/** DeductionRuleFactory: the RULES table from rule names to a rule class and its tier,
    create_rule for one name and create_all_rules for the whole table. */
module Factory {
  import opened Results
  import opened Rules

  /** An entry of RULES: the rule's name, its class if the entry has one, and its tier. */
  datatype Entry = Entry(name: string, cls: Option<RuleKind>, tier: int)

  /** DeductionRuleFactory.RULES, in insertion order. */
  const Table: seq<Entry> := [
    Entry("naked_singles", Some(NakedSingles), 1),
    Entry("naked_pairs", Some(NakedPairs), 2),
    Entry("naked_triples", Some(NakedTriples), 2),
    Entry("hidden_singles", Some(HiddenSingles), 1),
    Entry("hidden_pairs", Some(HiddenPairs), 2),
    Entry("hidden_triples", Some(HiddenTriples), 3),
    Entry("y_wing", Some(YWingRule), 3)
  ]

  /** RULES.get(name) on a table t. */
  function LookupIn(t: seq<Entry>, name: string): Option<Entry>
  {
    if t == [] then None
    else if t[0].name == name then Some(t[0])
    else LookupIn(t[1..], name)
  }

  /** RULES.get finds an entry exactly when one has the name, and then an entry with
      that name. */
  lemma {:induction false} LookupInIff(t: seq<Entry>, name: string)
    ensures LookupIn(t, name).Some? <==> exists i :: 0 <= i < |t| && t[i].name == name
    ensures LookupIn(t, name).Some? ==> LookupIn(t, name).value in t && LookupIn(t, name).value.name == name
  {
    if t != [] && t[0].name != name {
      LookupInIff(t[1..], name);
      assert forall i :: 1 <= i < |t| ==> t[i] == t[1..][i - 1];
    }
  }

  function Lookup(name: string): Option<Entry>
  {
    LookupIn(Table, name)
  }

  /** What create_rule does for a name: the class and the tier the rule is built
      with, or the ValueError it raises. */
  function CreateSpec(name: string): Result<(RuleKind, int)>
  {
    match Lookup(name)
    case None => Err(UnknownRule(name))
    case Some(e) =>
      if e.cls.None? then Err(RuleWithoutClass(name))
      else Ok((e.cls.value, TierOr(e.cls.value, e.tier)))
  }

  /** The seven names of the table. */
  const Names: set<string> := {
    "naked_singles", "naked_pairs", "naked_triples",
    "hidden_singles", "hidden_pairs", "hidden_triples", "y_wing"
  }

  /** create_rule succeeds exactly on the seven table names; any other name is an
      unknown rule, and no entry of the table lacks a class. */
  lemma CreateSpecIff(name: string)
    ensures CreateSpec(name).Ok? <==> name in Names
    ensures CreateSpec(name).Err? ==> CreateSpec(name) == Err(UnknownRule(name))
    ensures CreateSpec(name).Ok? ==> 1 <= CreateSpec(name).value.1 <= 3
  {
    TableEntries();
    LookupInIff(Table, name);
    if name in Names {
      var i := if name == "naked_singles" then 0 else if name == "naked_pairs" then 1
        else if name == "naked_triples" then 2 else if name == "hidden_singles" then 3
        else if name == "hidden_pairs" then 4 else if name == "hidden_triples" then 5 else 6;
      assert Table[i].name == name;
    }
  }

  /** Every entry of the table has one of the seven names, a class and a tier in 1..3. */
  lemma TableEntries()
    ensures forall i :: 0 <= i < |Table| ==> Table[i].name in Names && Table[i].cls.Some? && 1 <= Table[i].tier <= 3
  {
    forall i | 0 <= i < |Table|
      ensures Table[i].name in Names && Table[i].cls.Some? && 1 <= Table[i].tier <= 3
    {
    }
  }

  /** create_rule: the entry's class built with the entry's tier. */
  method CreateRule(name: string) returns (r: Result<DeductionRule>)
    ensures r.Err? ==> CreateSpec(name) == Err(r.error)
    ensures r.Ok? ==> CreateSpec(name) == Ok((r.value.kind, r.value.difficulty))
    ensures r.Ok? ==> fresh(r.value) && !r.value.hasChanged
  {
    var entry := Lookup(name);
    if entry.None? {
      return Err(UnknownRule(name));
    }
    if entry.value.cls.None? {
      return Err(RuleWithoutClass(name));
    }
    var rule := new DeductionRule(entry.value.cls.value, entry.value.tier);
    return Ok(rule);
  }

  /** The rules create_all_rules builds from the entries of t that have a class, in
      table order, as (class, tier) pairs. */
  function Classed(t: seq<Entry>): seq<(RuleKind, int)>
  {
    if t == [] then []
    else
      var last := t[|t| - 1];
      Classed(t[..|t| - 1]) + (if last.cls.Some? then [(last.cls.value, TierOr(last.cls.value, last.tier))] else [])
  }

  /** create_all_rules yields the seven rules in table order, each with its table tier. */
  lemma AllRulesInOrder()
    ensures Classed(Table) == [(NakedSingles, 1), (NakedPairs, 2), (NakedTriples, 2),
      (HiddenSingles, 1), (HiddenPairs, 2), (HiddenTriples, 3), (YWingRule, 3)]
  {
    var t := Table;
    assert t[..1][..0] == [];
    assert Classed(t[..1]) == [(NakedSingles, 1)];
    assert t[..2][..1] == t[..1];
    assert Classed(t[..2]) == [(NakedSingles, 1), (NakedPairs, 2)];
    assert t[..3][..2] == t[..2];
    assert Classed(t[..3]) == [(NakedSingles, 1), (NakedPairs, 2), (NakedTriples, 2)];
    assert t[..4][..3] == t[..3];
    assert Classed(t[..4]) == [(NakedSingles, 1), (NakedPairs, 2), (NakedTriples, 2), (HiddenSingles, 1)];
    assert t[..5][..4] == t[..4];
    assert Classed(t[..5]) == [(NakedSingles, 1), (NakedPairs, 2), (NakedTriples, 2), (HiddenSingles, 1),
      (HiddenPairs, 2)];
    assert t[..6][..5] == t[..5];
    assert Classed(t[..6]) == [(NakedSingles, 1), (NakedPairs, 2), (NakedTriples, 2), (HiddenSingles, 1),
      (HiddenPairs, 2), (HiddenTriples, 3)];
    assert t[..|t| - 1] == t[..6];
  }

  /** Every rule of the whole table, and every rule create_rule builds, has a tier
      between 1 and 3. */
  lemma TiersInRange()
    ensures forall i :: 0 <= i < |Classed(Table)| ==> 1 <= Classed(Table)[i].1 <= 3
  {
    AllRulesInOrder();
  }

  /** create_all_rules */
  method CreateAllRules() returns (rs: seq<DeductionRule>)
    ensures |rs| == |Classed(Table)|
    ensures forall i :: 0 <= i < |rs| ==> (rs[i].kind, rs[i].difficulty) == Classed(Table)[i]
    ensures forall i :: 0 <= i < |rs| ==> fresh(rs[i]) && !rs[i].hasChanged
  {
    rs := [];
    for k := 0 to |Table|
      invariant |rs| == |Classed(Table[..k])|
      invariant forall i :: 0 <= i < |rs| ==> (rs[i].kind, rs[i].difficulty) == Classed(Table[..k])[i]
      invariant forall i :: 0 <= i < |rs| ==> fresh(rs[i]) && !rs[i].hasChanged
    {
      var e := Table[k];
      assert Table[..k + 1][..k] == Table[..k];
      if e.cls.Some? {
        var rule := new DeductionRule(e.cls.value, e.tier);
        rs := rs + [rule];
      }
    }
    assert Table[..|Table|] == Table;
  }
}
