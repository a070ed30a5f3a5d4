/**
 * The group object: built as a dictionary at login, then, on every check,
 * reassigned and updated in place before the expression reads it.
 */
module Groups {
  import opened Semantics

  /**
   * `user.groups.reduce((acc, item) => { acc[item] = true; return acc }, {})`:
   * the dictionary after the groups have been added one by one, left to right.
   */
  function GroupMapOf(groups: seq<string>): map<string, bool>
  {
    if groups == [] then map[]
    else GroupMapOf(groups[..|groups| - 1])[groups[|groups| - 1] := true]
  }

  /** The login fold as the loop the `reduce` performs, assigning one key per group. */
  method BuildGroupMap(groups: seq<string>) returns (acc: map<string, bool>)
    ensures acc == GroupMapOf(groups)
    ensures acc.Keys == set g | g in groups
    ensures forall g :: g in acc ==> acc[g]
  {
    acc := map[];
    for i := 0 to |groups|
      invariant acc == GroupMapOf(groups[..i])
    {
      assert groups[..i + 1][..i] == groups[..i];
      acc := acc[groups[i] := true];
    }
    assert groups[..|groups|] == groups;
    GroupMapEntries(groups);
  }

  /** Exactly the listed names are keys, and every key maps to `true`. */
  lemma {:induction false} GroupMapEntries(groups: seq<string>)
    ensures GroupMapOf(groups).Keys == set g | g in groups
    ensures forall g :: g in GroupMapOf(groups) ==> GroupMapOf(groups)[g]
    decreases |groups|
  {
    if groups != [] {
      var init := groups[..|groups| - 1];
      GroupMapEntries(init);
      assert groups == init + [groups[|groups| - 1]];
    }
  }

  predicate Distinct(s: seq<string>) {
    forall i, j :: 0 <= i < j < |s| ==> s[i] != s[j]
  }

  /**
   * Repeated names collapse into one key: the dictionary has as many entries
   * as the list exactly when the list has no duplicates.
   */
  lemma {:induction false} GroupMapSize(groups: seq<string>)
    ensures |GroupMapOf(groups)| <= |groups|
    ensures |GroupMapOf(groups)| == |groups| <==> Distinct(groups)
    decreases |groups|
  {
    if groups != [] {
      var init, last := groups[..|groups| - 1], groups[|groups| - 1];
      GroupMapSize(init);
      GroupMapEntries(init);
      var m := GroupMapOf(init);
      if last in m {
        assert GroupMapOf(groups).Keys == m.Keys;
        RepeatedLast(groups);
      } else {
        assert GroupMapOf(groups).Keys == m.Keys + {last};
        assert last !in init;
        DistinctSnoc(groups);
      }
    }
  }

  /** A list whose last name already occurs earlier has a duplicate. */
  lemma RepeatedLast(groups: seq<string>)
    requires groups != [] && groups[|groups| - 1] in groups[..|groups| - 1]
    ensures !Distinct(groups)
  {
    var init := groups[..|groups| - 1];
    var k :| 0 <= k < |init| && init[k] == groups[|groups| - 1];
    assert groups[k] == groups[|groups| - 1];
  }

  /** Appending a new name keeps a list distinct, and a duplicate stays a duplicate. */
  lemma DistinctSnoc(groups: seq<string>)
    requires groups != [] && groups[|groups| - 1] !in groups[..|groups| - 1]
    ensures Distinct(groups) <==> Distinct(groups[..|groups| - 1])
  {
    var init := groups[..|groups| - 1];
    if Distinct(init) {
      forall i, j | 0 <= i < j < |groups| ensures groups[i] != groups[j] {
        assert groups[i] == init[i];
        if j < |groups| - 1 {
          assert groups[j] == init[j];
        }
      }
    } else {
      var i, j :| 0 <= i < j < |init| && init[i] == init[j];
      assert groups[i] == groups[j];
    }
  }

  /** The names `true` and `false` set before evaluation (index.js, lines 117-118). */
  function WithLiterals(groups: map<string, bool>): (r: map<string, bool>)
  {
    groups["true" := true]["false" := false]
  }

  /**
   * `true` reads as true and `false` as false whatever was stored under those
   * names; every other name reads as before.
   */
  lemma LiteralsOverride(groups: map<string, bool>, n: string)
    ensures Lookup(WithLiterals(groups), "true") == Boolean(true)
    ensures Lookup(WithLiterals(groups), "false") == Boolean(false)
    ensures n != "true" && n != "false" ==> Lookup(WithLiterals(groups), n) == Lookup(groups, n)
    ensures WithLiterals(groups).Keys == groups.Keys + {"true", "false"}
  {
  }

  /** A JavaScript object used as a dictionary, whose properties are assigned in place. */
  class GroupObject {
    var entries: map<string, bool>

    constructor (entries: map<string, bool>)
      ensures this.entries == entries
    {
      this.entries := entries;
    }

    /** `groups[name] = value`. */
    method Assign(name: string, value: bool)
      modifies this
      ensures entries == old(entries)[name := value]
    {
      entries := entries[name := value];
    }
  }
}
