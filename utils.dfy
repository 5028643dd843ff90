/** The helpers of utils.py that have no outside effect: the duplicate check used by
    the correctness test, the per-line grid parser of read_input (over a sequence of
    lines instead of a file) and url_convert. */
module Utils {
  import opened Results

  /** The value stored for an empty cell. */
  const Blank := -1

  // ---------------------------------------------------------------------------
  // is_unique

  /** No value other than -1 occurs twice in `values`. */
  predicate NoRepeats(values: seq<int>)
  {
    forall x, y :: 0 <= x < |values| && 0 <= y < |values| && x != y && values[x] != Blank ==>
      values[x] != values[y]
  }

  /** is_unique: scans the list once, remembering the non-empty values seen so far,
      and stops at the first value seen twice. */
  method IsUnique(values: seq<int>) returns (r: bool)
    ensures r == NoRepeats(values)
  {
    var seen: set<int> := {};
    var k := 0;
    while k < |values|
      invariant 0 <= k <= |values|
      invariant seen == set x | 0 <= x < k && values[x] != Blank :: values[x]
      invariant NoRepeats(values[..k])
    {
      var value := values[k];
      if value != Blank {
        if value in seen {
          var x :| 0 <= x < k && values[x] != Blank && values[x] == value;
          assert !NoRepeats(values) by {
            assert values[x] == values[k];
          }
          return false;
        }
        seen := seen + {value};
      }
      assert values[..k + 1] == values[..k] + [value];
      k := k + 1;
    }
    assert values[..k] == values;
    return true;
  }

  // ---------------------------------------------------------------------------
  // The output of a loop that appends to a list

  /** What the first k iterations of a loop append, when iteration i appends parts(i). */
  function Concat<T>(parts: int -> seq<T>, k: int): seq<T>
    requires 0 <= k
  {
    if k == 0 then [] else Concat(parts, k - 1) + parts(k - 1)
  }

  /** An element is in the output exactly when some iteration appended it. */
  lemma {:induction false} ConcatHas<T>(parts: int -> seq<T>, k: int, x: T)
    requires 0 <= k
    ensures x in Concat(parts, k) <==> exists i :: 0 <= i < k && x in parts(i)
  {
    if k > 0 {
      ConcatHas(parts, k - 1, x);
    }
  }

  // ---------------------------------------------------------------------------
  // Visiting a set of notes in ascending order

  /** The smallest element of a non-empty set. */
  function Least(s: set<int>): (m: int)
    requires s != {}
    ensures m in s && forall x :: x in s ==> m <= x
  {
    LeastExists(s);
    var m :| m in s && forall x :: x in s ==> m <= x;
    m
  }

  lemma {:induction false} LeastExists(s: set<int>)
    requires s != {}
    ensures exists m :: m in s && forall x :: x in s ==> m <= x
    decreases |s|
  {
    if forall x :: x !in s {
      assert false;
    }
    var y :| y in s;
    var r := s - {y};
    if r == {} {
      assert forall x :: x in s ==> x == y by {
        forall x | x in s ensures x == y {
          assert x in r || x == y;
        }
      }
      assert y in s && forall x :: x in s ==> y <= x;
    } else {
      LeastExists(r);
      var m :| m in r && forall x :: x in r ==> m <= x;
      var least := if y < m then y else m;
      forall x | x in s ensures least <= x {
        if x != y {
          assert x in r;
        }
      }
      assert least in s;
    }
  }

  // ---------------------------------------------------------------------------
  // Text: str.strip, str.count, str.split and str.join

  /** The characters str.isspace() accepts. */
  predicate IsSpace(c: char)
  {
    c == ' ' || ('\U{0009}' <= c <= '\U{000d}') || ('\U{001c}' <= c <= '\U{001f}') || c == '\U{0085}' || c == '\U{00a0}' ||
    c == '\U{1680}' || ('\U{2000}' <= c <= '\U{200a}') || c == '\U{2028}' || c == '\U{2029}' || c == '\U{202f}' ||
    c == '\U{205f}' || c == '\U{3000}'
  }

  predicate IsDigit(c: char) { '0' <= c <= '9' }

  /** s without its leading whitespace. */
  function TrimStart(s: string): (t: string)
    ensures |t| <= |s| && t == s[|s| - |t|..]
    ensures t == [] || !IsSpace(t[0])
    ensures forall k :: 0 <= k < |s| - |t| ==> IsSpace(s[k])
  {
    if s != [] && IsSpace(s[0]) then TrimStart(s[1..]) else s
  }

  /** s without its trailing whitespace. */
  function TrimEnd(s: string): (t: string)
    ensures |t| <= |s| && t == s[..|t|]
    ensures t == [] || !IsSpace(t[|t| - 1])
    ensures forall k :: |t| <= k < |s| ==> IsSpace(s[k])
  {
    if s != [] && IsSpace(s[|s| - 1]) then TrimEnd(s[..|s| - 1]) else s
  }

  /** str.strip() */
  function Strip(s: string): string
  {
    TrimEnd(TrimStart(s))
  }

  /** TrimStart stops at the first non-space. */
  lemma {:induction false} TrimStartAt(s: string, j: int)
    requires 0 <= j < |s| && !IsSpace(s[j])
    requires forall k :: 0 <= k < j ==> IsSpace(s[k])
    ensures TrimStart(s) == s[j..]
    decreases j
  {
    if j > 0 {
      var t := s[1..];
      assert IsSpace(s[0]) && t[j - 1] == s[j];
      assert forall k :: 0 <= k < j - 1 ==> t[k] == s[k + 1];
      TrimStartAt(t, j - 1);
      assert t[j - 1..] == s[j..];
    }
  }

  /** TrimEnd stops after the last non-space. */
  lemma {:induction false} TrimEndAt(s: string, e: int)
    requires 0 < e <= |s| && !IsSpace(s[e - 1])
    requires forall k :: e <= k < |s| ==> IsSpace(s[k])
    ensures TrimEnd(s) == s[..e]
    decreases |s| - e
  {
    if e < |s| {
      var t := s[..|s| - 1];
      assert IsSpace(s[|s| - 1]) && t[e - 1] == s[e - 1];
      assert forall k :: e <= k < |t| ==> t[k] == s[k];
      TrimEndAt(t, e);
      assert t[..e] == s[..e];
    }
  }

  /** Whitespace around a text that starts and ends with a non-space is exactly what
      strip removes. */
  lemma StripIs(a: string, m: string, c: string)
    requires forall k :: 0 <= k < |a| ==> IsSpace(a[k])
    requires forall k :: 0 <= k < |c| ==> IsSpace(c[k])
    requires m != [] && !IsSpace(m[0]) && !IsSpace(m[|m| - 1])
    ensures Strip(a + m + c) == m
  {
    var s := a + (m + c);
    assert s == a + m + c;
    assert forall k :: 0 <= k < |a| ==> s[k] == a[k];
    assert s[|a|] == m[0];
    TrimStartAt(s, |a|);
    assert s[|a|..] == m + c;
    var u := m + c;
    assert u[|m| - 1] == m[|m| - 1];
    assert forall k :: |m| <= k < |u| ==> u[k] == c[k - |m|];
    TrimEndAt(u, |m|);
    assert u[..|m|] == m;
  }

  /** A text without whitespace is its own strip. */
  lemma StripNoSpace(s: string)
    requires forall k :: 0 <= k < |s| ==> !IsSpace(s[k])
    ensures Strip(s) == s
  {
    if s != [] {
      StripIs([], s, []);
      assert [] + s + [] == s;
    }
  }

  /** str.count for one character. */
  function Count(s: string, c: char): nat
  {
    if s == [] then 0 else (if s[0] == c then 1 else 0) + Count(s[1..], c)
  }

  lemma {:induction false} CountAppend(a: string, b: string, c: char)
    ensures Count(a + b, c) == Count(a, c) + Count(b, c)
  {
    if a != [] {
      assert (a + b)[0] == a[0] && (a + b)[1..] == a[1..] + b;
      CountAppend(a[1..], b, c);
    } else {
      assert a + b == b;
    }
  }

  /** Leading whitespace holds no comma. */
  lemma {:induction false} CountTrimStart(s: string)
    ensures Count(TrimStart(s), ',') == Count(s, ',')
  {
    if s != [] && IsSpace(s[0]) {
      CountTrimStart(s[1..]);
    }
  }

  /** Trailing whitespace holds no comma. */
  lemma {:induction false} CountTrimEnd(s: string)
    ensures Count(TrimEnd(s), ',') == Count(s, ',')
  {
    if s != [] && IsSpace(s[|s| - 1]) {
      var init := s[..|s| - 1];
      CountTrimEnd(init);
      assert s == init + [s[|s| - 1]];
      CountAppend(init, [s[|s| - 1]], ',');
    }
  }

  /** Stripping whitespace removes no comma. */
  lemma StripCount(s: string)
    ensures Count(Strip(s), ',') == Count(s, ',')
  {
    CountTrimStart(s);
    CountTrimEnd(TrimStart(s));
  }

  /** str.split(sep): the pieces between the separators, one more than there are
      separators. */
  function Split(s: string, sep: char): (parts: seq<string>)
    ensures |parts| == Count(s, sep) + 1
    ensures forall k :: 0 <= k < |parts| ==> sep !in parts[k]
  {
    if s == [] then [[]]
    else
      var rest := Split(s[1..], sep);
      if s[0] == sep then [[]] + rest else [[s[0]] + rest[0]] + rest[1..]
  }

  /** sep.join(parts) */
  function Join(parts: seq<string>, sep: char): string
    requires |parts| >= 1
  {
    if |parts| == 1 then parts[0] else parts[0] + [sep] + Join(parts[1..], sep)
  }

  lemma JoinFront(x: string, parts: seq<string>, sep: char)
    requires |parts| >= 1
    ensures Join([x + parts[0]] + parts[1..], sep) == x + Join(parts, sep)
  {
    var q := [x + parts[0]] + parts[1..];
    if |parts| > 1 {
      assert q[1..] == parts[1..];
    }
  }

  /** Joining the pieces of a split gives back the text. */
  lemma {:induction false} SplitJoin(s: string, sep: char)
    ensures Join(Split(s, sep), sep) == s
  {
    if s != [] {
      var rest := Split(s[1..], sep);
      SplitJoin(s[1..], sep);
      if s[0] == sep {
        assert ([[]] + rest)[1..] == rest;
      } else {
        JoinFront([s[0]], rest, sep);
      }
    }
  }

  /** Splitting a piece without separators, followed by one, splits it off. */
  lemma {:induction false} SplitFront(a: string, rest: string, sep: char)
    requires sep !in a
    ensures Split(a + [sep] + rest, sep) == [a] + Split(rest, sep)
  {
    var s := a + [sep] + rest;
    if a == [] {
      assert s[1..] == rest;
    } else {
      assert s[1..] == a[1..] + [sep] + rest;
      SplitFront(a[1..], rest, sep);
      assert [a[0]] + a[1..] == a;
    }
  }

  lemma {:induction false} SplitNone(a: string, sep: char)
    requires sep !in a
    ensures Split(a, sep) == [a]
  {
    if a != [] {
      SplitNone(a[1..], sep);
      assert [a[0]] + a[1..] == a;
    }
  }

  /** Splitting what was joined from pieces without separators gives back the pieces. */
  lemma {:induction false} JoinSplit(parts: seq<string>, sep: char)
    requires |parts| >= 1
    requires forall k :: 0 <= k < |parts| ==> sep !in parts[k]
    ensures Split(Join(parts, sep), sep) == parts
  {
    if |parts| == 1 {
      SplitNone(parts[0], sep);
    } else {
      JoinSplit(parts[1..], sep);
      SplitFront(parts[0], Join(parts[1..], sep), sep);
      assert [parts[0]] + parts[1..] == parts;
    }
  }

  // ---------------------------------------------------------------------------
  // int(): an optional sign and decimal digits, single underscores allowed between
  // digits, whitespace allowed around

  /** Digits with single underscores between them. */
  predicate DigitGroups(t: string)
  {
    |t| > 0 && IsDigit(t[0]) && IsDigit(t[|t| - 1]) &&
    (forall k :: 0 <= k < |t| ==> IsDigit(t[k]) || t[k] == '_') &&
    (forall k :: 0 <= k < |t| - 1 ==> t[k] == '_' ==> t[k + 1] != '_')
  }

  /** The number the digits of t spell, underscores skipped. */
  function DigitsValue(t: string): nat
  {
    if t == [] then 0
    else
      var c := t[|t| - 1];
      if IsDigit(c) then DigitsValue(t[..|t| - 1]) * 10 + (c - '0') as int else DigitsValue(t[..|t| - 1])
  }

  function ParseInt(f: string): (r: Option<int>)
  {
    var t := Strip(f);
    if |t| > 0 && (t[0] == '+' || t[0] == '-') then
      var n: int := DigitsValue(t[1..]);
      if DigitGroups(t[1..]) then Some(if t[0] == '-' then -n else n) else None
    else if DigitGroups(t) then Some(DigitsValue(t))
    else None
  }

  // ---------------------------------------------------------------------------
  // read_input, over the lines of the file

  /** Blank lines and lines starting with '#' are skipped. */
  predicate Skipped(line: string)
  {
    Strip(line) == [] || (|line| > 0 && line[0] == '#')
  }

  /** A field: "0" is an empty cell, anything else goes through int(). */
  function ParseField(f: string): Option<int>
  {
    if f == "0" then Some(Blank) else ParseInt(f)
  }

  /** The values of a row's fields in order, or the error of the first bad one. */
  function ParseFields(fields: seq<string>): (r: Result<seq<int>>)
    ensures r.Ok? ==> |r.value| == |fields|
    ensures r.Err? ==> r.error == BadField
  {
    if fields == [] then Ok([])
    else
      match ParseField(fields[0])
      case None => Err(BadField)
      case Some(v) =>
        match ParseFields(fields[1..])
        case Err(e) => Err(e)
        case Ok(vs) => Ok([v] + vs)
  }

  /** One line of the file: nothing for a skipped line, the nine values of a data line,
      or the error the line raises. */
  function ParseLine(line: string): Result<seq<int>>
  {
    if Skipped(line) then Ok([])
    else if Count(line, ',') != 8 || |Strip(line)| != 17 then Err(MalformedLine)
    else
      match ParseFields(Split(Strip(line), ','))
      case Err(e) => Err(e)
      case Ok(row) => if |row| != 9 then Err(MalformedLine) else Ok(row)
  }

  /** A skipped line gives no value, an accepted data line exactly nine: the check that
      a row has nine numbers can never fail once the line has eight commas. */
  lemma ParseLineShape(line: string)
    ensures ParseLine(line).Ok? && Skipped(line) ==> ParseLine(line).value == []
    ensures ParseLine(line).Ok? && !Skipped(line) ==> |ParseLine(line).value| == 9
    ensures ParseLine(line).Err? <==>
      !Skipped(line) && (Count(line, ',') != 8 || |Strip(line)| != 17 || ParseFields(Split(Strip(line), ',')).Err?)
  {
    StripCount(line);
  }

  /** The values gathered from the lines, in order, or the first line's error. */
  function Gather(lines: seq<string>): Result<seq<int>>
  {
    if lines == [] then Ok([])
    else
      match Gather(lines[..|lines| - 1])
      case Err(e) => Err(e)
      case Ok(grid) =>
        match ParseLine(lines[|lines| - 1])
        case Err(e) => Err(e)
        case Ok(row) => Ok(grid + row)
  }

  /** The number of data lines. */
  function DataLines(lines: seq<string>): nat
  {
    if lines == [] then 0
    else DataLines(lines[..|lines| - 1]) + (if Skipped(lines[|lines| - 1]) then 0 else 1)
  }

  /** Gathering succeeds exactly when every line parses, and then holds nine values per
      data line. */
  lemma {:induction false} GatherCount(lines: seq<string>)
    ensures Gather(lines).Ok? <==> forall k :: 0 <= k < |lines| ==> ParseLine(lines[k]).Ok?
    ensures Gather(lines).Ok? ==> |Gather(lines).value| == 9 * DataLines(lines)
  {
    if lines != [] {
      var init, last := lines[..|lines| - 1], lines[|lines| - 1];
      GatherCount(init);
      ParseLineShape(last);
      AllParsedSnoc(lines, init);
    }
  }

  /** Every line parses exactly when every line but the last does and the last does. */
  lemma AllParsedSnoc(lines: seq<string>, init: seq<string>)
    requires lines != [] && init == lines[..|lines| - 1]
    ensures (forall k :: 0 <= k < |lines| ==> ParseLine(lines[k]).Ok?) <==>
      (forall k :: 0 <= k < |init| ==> ParseLine(init[k]).Ok?) && ParseLine(lines[|lines| - 1]).Ok?
  {
    assert forall k :: 0 <= k < |init| ==> init[k] == lines[k];
  }

  /** read_input: the 81 values of the grid, or the error of the first bad line, or
      a count error. */
  function ParseLines(lines: seq<string>): Result<seq<int>>
  {
    match Gather(lines)
    case Err(e) => Err(e)
    case Ok(grid) => if |grid| != 81 then Err(WrongCellCount) else Ok(grid)
  }

  /** A file is read exactly when all its lines parse and nine of them hold data. */
  lemma ParseLinesIff(lines: seq<string>)
    ensures ParseLines(lines).Ok? <==>
      (forall k :: 0 <= k < |lines| ==> ParseLine(lines[k]).Ok?) && DataLines(lines) == 9
    ensures ParseLines(lines).Ok? ==> |ParseLines(lines).value| == 81
  {
    GatherCount(lines);
  }

  /** Once a line fails, reading more lines keeps that error. */
  lemma {:induction false} GatherErrStays(lines: seq<string>, k: int)
    requires 0 <= k <= |lines| && Gather(lines[..k]).Err?
    ensures Gather(lines) == Gather(lines[..k])
    decreases |lines| - k
  {
    if k < |lines| {
      assert lines[..k + 1][..k] == lines[..k];
      GatherErrStays(lines, k + 1);
    } else {
      assert lines[..k] == lines;
    }
  }

  /** read_input's loop: each data line extends the grid. */
  method ReadInput(lines: seq<string>) returns (r: Result<seq<int>>)
    ensures r == ParseLines(lines)
  {
    var grid: seq<int> := [];
    for k := 0 to |lines|
      invariant Gather(lines[..k]) == Ok(grid)
    {
      assert lines[..k + 1][..k] == lines[..k];
      var row := ParseLine(lines[k]);
      if row.Err? {
        GatherErrStays(lines, k + 1);
        return Err(row.error);
      }
      grid := grid + row.value;
    }
    assert lines[..|lines|] == lines;
    if |grid| != 81 {
      return Err(WrongCellCount);
    }
    return Ok(grid);
  }

  /** A digit character as a field: '0' is an empty cell, any other its value. */
  function DigitCell(c: char): int
    requires IsDigit(c)
  {
    if c == '0' then Blank else (c - '0') as int
  }

  /** A one-character field holding a digit reads as that digit, "0" as an empty cell. */
  lemma ParseDigitField(c: char)
    requires IsDigit(c)
    ensures ParseField([c]) == Some(DigitCell(c))
  {
    var f := [c];
    if c != '0' {
      assert f != "0" by { assert f[0] != "0"[0]; }
      ParseIntDigit(c);
    } else {
      assert f == "0";
    }
  }

  /** int() of a one-digit string is that digit. */
  lemma ParseIntDigit(c: char)
    requires IsDigit(c)
    ensures ParseInt([c]) == Some((c - '0') as int)
  {
    StripNoSpace([c]);
    DigitValueOne(c);
  }

  lemma DigitValueOne(c: char)
    requires IsDigit(c)
    ensures DigitGroups([c]) && DigitsValue([c]) == (c - '0') as int
  {
    assert [c][..0] == [];
  }

  // ---------------------------------------------------------------------------
  // url_convert

  /** pat occurs in s at position j. */
  predicate OccursAt(s: string, pat: string, j: int)
  {
    0 <= j && j + |pat| <= |s| && s[j..j + |pat|] == pat
  }

  /** The first position at or after k where pat occurs in s. */
  function Find(s: string, pat: string, k: nat): (r: Option<nat>)
    ensures r.Some? ==> k <= r.value && OccursAt(s, pat, r.value)
    ensures r.Some? ==> forall j :: k <= j < r.value ==> !OccursAt(s, pat, j)
    ensures r.None? ==> forall j :: k <= j ==> !OccursAt(s, pat, j)
    decreases |s| - k
  {
    if k + |pat| > |s| then None
    else if s[k..k + |pat|] == pat then Some(k)
    else Find(s, pat, k + 1)
  }

  /** url.split("bd=")[1]: the text after the first "bd=" up to the next one, if the
      URL has a "bd=" at all. */
  function BdValue(url: string): Option<string>
  {
    match Find(url, "bd=", 0)
    case None => None
    case Some(p) =>
      var rest := url[p + 3..];
      match Find(rest, "bd=", 0)
      case None => Some(rest)
      case Some(q) => Some(rest[..q])
  }

  /** grid[i * 9 : (i + 1) * 9], clamped to the text as Python slices are. */
  function Row(bd: string, i: nat): (row: string)
    ensures |row| <= 9
  {
    var lo := if 9 * i <= |bd| then 9 * i else |bd|;
    var hi := if 9 * i + 9 <= |bd| then 9 * i + 9 else |bd|;
    bd[lo..hi]
  }

  /** ','.join(list(row)): the characters of row with a comma between neighbours. */
  function Commas(row: string): (s: string)
    ensures |row| > 0 ==> |s| == 2 * |row| - 1
    ensures |row| == 0 ==> s == []
  {
    if |row| <= 1 then row else [row[0], ','] + Commas(row[1..])
  }

  /** The text url_convert builds before stripping it: the first k rows, each followed
      by a newline. */
  function RowsText(bd: string, k: nat): string
  {
    if k == 0 then [] else RowsText(bd, k - 1) + Commas(Row(bd, k - 1)) + "\n"
  }

  /** url_convert */
  function UrlSpec(url: string): Result<string>
  {
    match BdValue(url)
    case None => Err(MissingBdParameter)
    case Some(bd) => Ok(Strip(RowsText(bd, 9)))
  }

  /** url_convert raises exactly when the URL has no "bd=". */
  lemma UrlSpecErr(url: string)
    ensures UrlSpec(url).Err? <==> forall j :: !OccursAt(url, "bd=", j)
    ensures UrlSpec(url).Err? ==> UrlSpec(url).error == MissingBdParameter
  {
  }

  /** url_convert's loops: nine slices of the bd value, then one line per slice. */
  method UrlConvert(url: string) returns (r: Result<string>)
    ensures r == UrlSpec(url)
  {
    var value := BdValue(url);
    if value.None? {
      return Err(MissingBdParameter);
    }
    var bd := value.value;
    var rows: seq<string> := [];
    for i := 0 to 9
      invariant |rows| == i && forall j :: 0 <= j < i ==> rows[j] == Row(bd, j)
    {
      var lo := if 9 * i <= |bd| then 9 * i else |bd|;
      var hi := if 9 * i + 9 <= |bd| then 9 * i + 9 else |bd|;
      rows := rows + [bd[lo..hi]];
    }
    var text := "";
    for i := 0 to 9
      invariant text == RowsText(bd, i)
    {
      text := text + Commas(rows[i]) + "\n";
    }
    return Ok(Strip(text));
  }

  /** The nine lines url_convert writes for a bd value. */
  function UrlRows(bd: string): (rows: seq<string>)
    ensures |rows| == 9
  {
    seq(9, i requires 0 <= i < 9 => Commas(Row(bd, i)))
  }

  /** A bd value whose first 81 characters are digits. */
  predicate DigitBoard(bd: string)
  {
    |bd| >= 81 && forall k :: 0 <= k < 81 ==> IsDigit(bd[k])
  }

  /** The commas of a row of digits separate single characters. */
  lemma {:induction false} CommasShape(row: string)
    requires forall k :: 0 <= k < |row| ==> IsDigit(row[k])
    ensures forall k :: 0 <= k < |Commas(row)| ==> (if k % 2 == 0 then Commas(row)[k] == row[k / 2] else Commas(row)[k] == ',')
  {
    if |row| > 1 {
      CommasShape(row[1..]);
      var s := Commas(row);
      assert s == [row[0], ','] + Commas(row[1..]);
      forall k | 2 <= k < |s| ensures (if k % 2 == 0 then s[k] == row[k / 2] else s[k] == ',') {
        assert s[k] == Commas(row[1..])[k - 2];
        assert (k - 2) % 2 == k % 2 && (k - 2) / 2 + 1 == k / 2;
      }
    }
  }

  /** Splitting a row of digits with commas between them gives back its characters. */
  lemma {:induction false} CommasSplit(row: string)
    requires |row| > 0 && forall k :: 0 <= k < |row| ==> IsDigit(row[k])
    ensures Split(Commas(row), ',') == seq(|row|, k requires 0 <= k < |row| => [row[k]])
  {
    var singles := seq(|row|, k requires 0 <= k < |row| => [row[k]]);
    if |row| == 1 {
      SplitNone(row, ',');
      assert row == [row[0]] && |singles| == 1 && singles[0] == [row[0]];
    } else {
      CommasSplit(row[1..]);
      SplitFront([row[0]], Commas(row[1..]), ',');
      assert Commas(row) == [row[0]] + [','] + Commas(row[1..]);
      assert singles == [[row[0]]] + seq(|row| - 1, k requires 0 <= k < |row| - 1 => [row[1..][k]]);
    }
  }

  /** Reading singles of digits, in order. */
  lemma DigitFields(row: string)
    requires forall k :: 0 <= k < |row| ==> IsDigit(row[k])
    ensures ParseFields(seq(|row|, k requires 0 <= k < |row| => [row[k]])) ==
      Ok(seq(|row|, k requires 0 <= k < |row| => DigitCell(row[k])))
  {
    var fields := seq(|row|, k requires 0 <= k < |row| => [row[k]]);
    var cells := seq(|row|, k requires 0 <= k < |row| => DigitCell(row[k]));
    forall k | 0 <= k < |row|
      ensures ParseField(fields[k]) == Some(cells[k])
    {
      ParseDigitField(row[k]);
    }
    ParsedAll(fields, cells);
  }

  /** A field list whose every field parses reads as the list of their values. */
  lemma {:induction false} ParsedAll(fields: seq<string>, vals: seq<int>)
    requires |fields| == |vals|
    requires forall k :: 0 <= k < |fields| ==> ParseField(fields[k]) == Some(vals[k])
    ensures ParseFields(fields) == Ok(vals)
  {
    if fields != [] {
      ParsedAll(fields[1..], vals[1..]);
      assert vals == [vals[0]] + vals[1..];
    }
  }

  /** A row of digits with commas between them holds no whitespace and starts with
      its first digit. */
  lemma CommasNoSpace(row: string)
    requires |row| > 0 && forall k :: 0 <= k < |row| ==> IsDigit(row[k])
    ensures Commas(row)[0] == row[0]
    ensures forall k :: 0 <= k < |Commas(row)| ==> !IsSpace(Commas(row)[k])
  {
    CommasShape(row);
  }

  /** A line of nine digits with commas between them is a data line read as those
      nine digits. */
  lemma DigitLine(row: string)
    requires |row| == 9 && forall k :: 0 <= k < 9 ==> IsDigit(row[k])
    ensures !Skipped(Commas(row))
    ensures ParseLine(Commas(row)) == Ok(seq(9, k requires 0 <= k < 9 => DigitCell(row[k])))
  {
    var line := Commas(row);
    CommasNoSpace(row);
    StripNoSpace(line);
    assert Strip(line) == line && |line| == 17;
    assert line[0] != '#';
    CommasSplit(row);
    assert Count(line, ',') == 8;
    DigitFields(row);
  }

  /** The text url_convert builds from a board of digits: its nine lines, each followed
      by a newline. */
  lemma {:induction false} RowsTextIs(bd: string, k: nat)
    requires DigitBoard(bd) && 1 <= k <= 9
    ensures RowsText(bd, k) == Join(UrlRows(bd)[..k], '\n') + "\n"
  {
    if k > 1 {
      RowsTextIs(bd, k - 1);
      JoinSnoc(UrlRows(bd)[..k - 1], UrlRows(bd)[k - 1], '\n');
      assert UrlRows(bd)[..k - 1] + [UrlRows(bd)[k - 1]] == UrlRows(bd)[..k];
    } else {
      assert RowsText(bd, 0) == [];
    }
  }

  lemma {:induction false} JoinSnoc(parts: seq<string>, x: string, sep: char)
    requires |parts| >= 1
    ensures Join(parts + [x], sep) == Join(parts, sep) + [sep] + x
  {
    if |parts| > 1 {
      assert (parts + [x])[1..] == parts[1..] + [x];
      JoinSnoc(parts[1..], x, sep);
    }
  }

  /** The lines of url_convert's text, for a bd value of 81 digits, are the nine
      slices with commas, and read_input reads them back as the 81 cells of the
      board. */
  lemma UrlRoundTrip(url: string, bd: string)
    requires BdValue(url) == Some(bd) && DigitBoard(bd)
    ensures UrlSpec(url) == Ok(Join(UrlRows(bd), '\n'))
    ensures Split(UrlSpec(url).value, '\n') == UrlRows(bd)
    ensures ParseLines(UrlRows(bd)) == Ok(Cells(bd))
  {
    var rows := UrlRows(bd);
    forall i | 0 <= i < 9
      ensures |Row(bd, i)| == 9 && forall k :: 0 <= k < 9 ==> IsDigit(Row(bd, i)[k])
    {
      assert Row(bd, i) == bd[9 * i..9 * i + 9];
    }
    RowsTextIs(bd, 9);
    assert rows[..9] == rows;
    var text := Join(rows, '\n');
    RowText(bd, rows);
    assert RowsText(bd, 9) == [] + text + "\n";
    StripIs([], text, "\n");
    NoNewline(bd, rows);
    JoinSplit(rows, '\n');
    ReadRows(bd, rows);
  }

  /** The joined lines start with the first digit and end with the last one. */
  lemma RowText(bd: string, rows: seq<string>)
    requires DigitBoard(bd) && rows == UrlRows(bd)
    requires forall i :: 0 <= i < 9 ==> |Row(bd, i)| == 9 && forall k :: 0 <= k < 9 ==> IsDigit(Row(bd, i)[k])
    ensures Join(rows, '\n') != []
    ensures !IsSpace(Join(rows, '\n')[0])
    ensures !IsSpace(Join(rows, '\n')[|Join(rows, '\n')| - 1])
  {
    JoinEnds(rows, '\n');
    CommasShape(Row(bd, 0));
    CommasShape(Row(bd, 8));
  }

  lemma {:induction false} JoinEnds(parts: seq<string>, sep: char)
    requires |parts| >= 1 && forall k :: 0 <= k < |parts| ==> parts[k] != []
    ensures Join(parts, sep) != []
    ensures Join(parts, sep)[0] == parts[0][0]
    ensures Join(parts, sep)[|Join(parts, sep)| - 1] == parts[|parts| - 1][|parts[|parts| - 1]| - 1]
  {
    if |parts| > 1 {
      JoinEnds(parts[1..], sep);
    }
  }

  /** No line holds a newline. */
  lemma NoNewline(bd: string, rows: seq<string>)
    requires DigitBoard(bd) && rows == UrlRows(bd)
    requires forall i :: 0 <= i < 9 ==> |Row(bd, i)| == 9 && forall k :: 0 <= k < 9 ==> IsDigit(Row(bd, i)[k])
    ensures forall i :: 0 <= i < 9 ==> '\n' !in rows[i]
  {
    forall i | 0 <= i < 9 ensures '\n' !in rows[i] {
      CommasShape(Row(bd, i));
    }
  }

  /** The cells of row n of a digit board follow those of the rows before it. */
  lemma CellsStep(bd: string, n: int)
    requires DigitBoard(bd) && 0 <= n < 9
    ensures |Row(bd, n)| == 9 && forall k :: 0 <= k < 9 ==> IsDigit(Row(bd, n)[k])
    ensures Cells(bd)[..9 * n + 9] == Cells(bd)[..9 * n] + seq(9, k requires 0 <= k < 9 => DigitCell(Row(bd, n)[k]))
  {
    assert Row(bd, n) == bd[9 * n..9 * n + 9];
  }

  /** The 81 cells a digit board spells. */
  function Cells(bd: string): (cells: seq<int>)
    requires DigitBoard(bd)
    ensures |cells| == 81
  {
    seq(81, k requires 0 <= k < 81 => DigitCell(bd[k]))
  }

  /** read_input reads the nine lines as the board's 81 cells. */
  lemma ReadRows(bd: string, rows: seq<string>)
    requires DigitBoard(bd) && rows == UrlRows(bd)
    ensures ParseLines(rows) == Ok(Cells(bd))
  {
    ReadFirstRows(bd, rows, 9);
    assert rows[..9] == rows;
    assert Cells(bd)[..81] == Cells(bd);
  }

  /** The first n lines give the first 9 * n cells. */
  lemma {:induction false} ReadFirstRows(bd: string, rows: seq<string>, n: int)
    requires DigitBoard(bd) && rows == UrlRows(bd) && 0 <= n <= 9
    ensures Gather(rows[..n]) == Ok(Cells(bd)[..9 * n])
  {
    if n == 0 {
      assert rows[..0] == [];
    } else {
      ReadFirstRows(bd, rows, n - 1);
      ReadRowsStep(bd, rows, n - 1);
    }
  }

  /** Row n of the text adds the nine cells of row n of the board. */
  lemma ReadRowsStep(bd: string, rows: seq<string>, n: int)
    requires DigitBoard(bd) && rows == UrlRows(bd) && 0 <= n < 9
    requires Gather(rows[..n]) == Ok(Cells(bd)[..9 * n])
    ensures Gather(rows[..n + 1]) == Ok(Cells(bd)[..9 * n + 9])
  {
    var row := seq(9, k requires 0 <= k < 9 => DigitCell(Row(bd, n)[k]));
    CellsStep(bd, n);
    DigitLine(Row(bd, n));
    assert rows[n] == Commas(Row(bd, n));
    GatherNext(rows, n, Cells(bd)[..9 * n], row);
  }

  /** One more line that parses adds its values after those of the lines before it. */
  lemma GatherNext(lines: seq<string>, n: int, grid: seq<int>, row: seq<int>)
    requires 0 <= n < |lines| && Gather(lines[..n]) == Ok(grid) && ParseLine(lines[n]) == Ok(row)
    ensures Gather(lines[..n + 1]) == Ok(grid + row)
  {
    assert lines[..n + 1][..n] == lines[..n];
  }
}
