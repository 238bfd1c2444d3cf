/** The first two passes of `parse_manifest` (main.py:78-96): collecting every dependency
    reference into a key set, then filing each record under one key of an identity table. */
module Identity {
  import opened Results
  import opened Packages

  /** The identity table `dep_by_key`: reference string to the record it denotes. */
  type Table = map<string, Package>

  /** The strings of a list, as `set.update` adds them. */
  function Elements(ds: seq<string>): (s: set<string>)
    ensures forall d :: d in s <==> d in ds
  {
    set d | d in ds
  }

  /** `dep_keys`: every string that occurs in some record's dependency list. */
  function DependencyKeys(pkgs: seq<Package>): (keys: set<string>)
    ensures forall i, d :: 0 <= i < |pkgs| && d in DepsOf(pkgs[i]) ==> d in keys
    ensures forall d :: d in keys ==> exists i :: 0 <= i < |pkgs| && d in DepsOf(pkgs[i])
    decreases |pkgs|
  {
    if |pkgs| == 0 then {}
    else
      var front := pkgs[..|pkgs| - 1];
      assert forall i :: 0 <= i < |front| ==> front[i] == pkgs[i];
      DependencyKeys(front) + Elements(DepsOf(pkgs[|pkgs| - 1]))
  }

  /** The key a record is filed under, by priority: its bare name if some record refers to that
      string; else `"name version"` if some record refers to that; else the bare name if no
      record holds it yet; else `"name version"`. */
  function KeyFor(keys: set<string>, table: Table, p: Package): (k: string)
    ensures IsCandidateKey(k, p)
  {
    if p.name in keys then p.name
    else if CompositeKey(p) in keys then CompositeKey(p)
    else if p.name !in table then p.name
    else CompositeKey(p)
  }

  /** One step of the table build (main.py:83-96), with each `assert` a failure. It files `p`
      under the key the priority rule picks and fails exactly when that key is already taken,
      whoever holds it; no other entry changes. */
  function Insert(keys: set<string>, table: Table, p: Package): (r: Result<Table>)
    ensures r.Ok? <==> KeyFor(keys, table, p) !in table
    ensures r.Err? ==> r.error == AmbiguousIdentity(KeyFor(keys, table, p))
    ensures r.Ok? ==> r.value.Keys == table.Keys + {KeyFor(keys, table, p)}
    ensures r.Ok? ==> r.value[KeyFor(keys, table, p)] == p
    ensures r.Ok? ==> forall k :: k in table ==> r.value[k] == table[k]
    ensures r.Ok? ==> |r.value| == |table| + 1
  {
    var name, composite := p.name, CompositeKey(p);
    if name in keys then
      if name in table then Err(AmbiguousIdentity(name)) else Ok(table[name := p])
    else if composite in keys then
      if composite in table then Err(AmbiguousIdentity(composite)) else Ok(table[composite := p])
    else if name in table then
      if composite in table then Err(AmbiguousIdentity(composite)) else Ok(table[composite := p])
    else
      Ok(table[name := p])
  }

  /** The whole second pass: the records filed in source order into an empty table. On success
      every record has its own key (none overwrites another) and every key is a candidate key of
      the record it maps to. */
  function BuildTable(keys: set<string>, pkgs: seq<Package>): (r: Result<Table>)
    ensures r.Ok? ==> |r.value| == |pkgs|
    ensures r.Ok? ==> forall k :: k in r.value ==> IsCandidateKey(k, r.value[k])
    ensures r.Err? ==> r.error.AmbiguousIdentity?
    decreases |pkgs|
  {
    if |pkgs| == 0 then Ok(map[])
    else
      var front := pkgs[..|pkgs| - 1];
      var prev :- BuildTable(keys, front);
      Insert(keys, prev, pkgs[|pkgs| - 1])
  }

  /** Every record a successful build stores comes from the list. */
  lemma {:induction false} StoredRecordsListed(keys: set<string>, pkgs: seq<Package>)
    requires BuildTable(keys, pkgs).Ok?
    ensures forall k :: k in BuildTable(keys, pkgs).value ==> BuildTable(keys, pkgs).value[k] in pkgs
    decreases |pkgs|
  {
    if |pkgs| > 0 {
      var front := pkgs[..|pkgs| - 1];
      StoredRecordsListed(keys, front);
      assert forall q :: q in front ==> q in pkgs;
    }
  }

  /** Record `i` can be filed: the records before it were filed and its key is still free. */
  predicate Admits(keys: set<string>, pkgs: seq<Package>, i: int)
    requires 0 <= i < |pkgs|
  {
    var prev := BuildTable(keys, pkgs[..i]);
    prev.Ok? && KeyFor(keys, prev.value, pkgs[i]) !in prev.value
  }

  /** Whether a record can be filed depends only on the records before it. */
  lemma {:induction false} AdmitsInFront(keys: set<string>, pkgs: seq<Package>, i: int)
    requires 0 <= i < |pkgs| - 1
    ensures Admits(keys, pkgs[..|pkgs| - 1], i) <==> Admits(keys, pkgs, i)
  {
    var front := pkgs[..|pkgs| - 1];
    assert front[..i] == pkgs[..i];
    assert front[i] == pkgs[i];
  }

  /** The build of a non-empty list is the build of all but its last record, followed by the
      insertion of that record. */
  lemma {:induction false} LastStep(keys: set<string>, pkgs: seq<Package>)
    requires |pkgs| > 0
    ensures var prev := BuildTable(keys, pkgs[..|pkgs| - 1]);
      && (prev.Err? ==> BuildTable(keys, pkgs).Err?)
      && (prev.Ok? ==> BuildTable(keys, pkgs) == Insert(keys, prev.value, pkgs[|pkgs| - 1]))
      && (prev.Ok? ==> (Admits(keys, pkgs, |pkgs| - 1) <==> BuildTable(keys, pkgs).Ok?))
  {
  }

  /** Appending a record to a list whose build succeeded inserts that record into its table. */
  lemma {:induction false} BuildAppend(keys: set<string>, front: seq<Package>, p: Package)
    requires BuildTable(keys, front).Ok?
    ensures BuildTable(keys, front + [p]) == Insert(keys, BuildTable(keys, front).value, p)
  {
  }

  /** The build succeeds exactly when every record, in turn, finds its key free. */
  lemma {:induction false} BuildSucceedsIff(keys: set<string>, pkgs: seq<Package>)
    ensures BuildTable(keys, pkgs).Ok? <==> forall i :: 0 <= i < |pkgs| ==> Admits(keys, pkgs, i)
    decreases |pkgs|
  {
    if |pkgs| > 0 {
      var n := |pkgs|;
      var front := pkgs[..n - 1];
      BuildSucceedsIff(keys, front);
      forall i | 0 <= i < n - 1
        ensures Admits(keys, front, i) <==> Admits(keys, pkgs, i)
      {
        AdmitsInFront(keys, pkgs, i);
      }
      LastStep(keys, pkgs);
      var prev := BuildTable(keys, front);
      if BuildTable(keys, pkgs).Ok? {
        forall i | 0 <= i < n
          ensures Admits(keys, pkgs, i)
        {
          if i < n - 1 {
            assert Admits(keys, front, i);
          }
        }
      } else if prev.Ok? {
        assert !Admits(keys, pkgs, n - 1);
      } else {
        var i :| 0 <= i < n - 1 && !Admits(keys, front, i);
        assert !Admits(keys, pkgs, i);
      }
    }
  }

  /** Filing only adds entries: the table of a prefix is contained in the final table. */
  lemma {:induction false} PrefixTableGrows(keys: set<string>, pkgs: seq<Package>, j: int)
    requires 0 <= j <= |pkgs|
    requires BuildTable(keys, pkgs).Ok?
    ensures BuildTable(keys, pkgs[..j]).Ok?
    ensures forall k :: k in BuildTable(keys, pkgs[..j]).value ==>
      k in BuildTable(keys, pkgs).value && BuildTable(keys, pkgs).value[k] == BuildTable(keys, pkgs[..j]).value[k]
    decreases |pkgs|
  {
    if j == |pkgs| {
      assert pkgs[..j] == pkgs;
    } else {
      var front := pkgs[..|pkgs| - 1];
      assert front[..j] == pkgs[..j];
      PrefixTableGrows(keys, front, j);
    }
  }

  /** In a successful build, record `i` is stored under the key the rule picked for it when its
      turn came. */
  lemma {:induction false} FiledUnderItsKey(keys: set<string>, pkgs: seq<Package>, i: int)
    requires 0 <= i < |pkgs|
    requires BuildTable(keys, pkgs).Ok?
    ensures BuildTable(keys, pkgs[..i]).Ok?
    ensures var k := KeyFor(keys, BuildTable(keys, pkgs[..i]).value, pkgs[i]);
      k in BuildTable(keys, pkgs).value && BuildTable(keys, pkgs).value[k] == pkgs[i]
  {
    PrefixTableGrows(keys, pkgs, i + 1);
    var upto := pkgs[..i + 1];
    assert upto[..i] == pkgs[..i];
    assert upto[i] == pkgs[i];
  }

  /** A record whose bare name is referred to is what the table returns for that name. */
  lemma {:induction false} BareReferenceFindsRecord(keys: set<string>, pkgs: seq<Package>, i: int)
    requires 0 <= i < |pkgs|
    requires BuildTable(keys, pkgs).Ok?
    requires pkgs[i].name in keys
    ensures pkgs[i].name in BuildTable(keys, pkgs).value
    ensures BuildTable(keys, pkgs).value[pkgs[i].name] == pkgs[i]
  {
    FiledUnderItsKey(keys, pkgs, i);
  }

  /** A record referred to as `"name version"` and never by its bare name is what the table
      returns for `"name version"`. */
  lemma {:induction false} CompositeReferenceFindsRecord(keys: set<string>, pkgs: seq<Package>, i: int)
    requires 0 <= i < |pkgs|
    requires BuildTable(keys, pkgs).Ok?
    requires pkgs[i].name !in keys && CompositeKey(pkgs[i]) in keys
    ensures CompositeKey(pkgs[i]) in BuildTable(keys, pkgs).value
    ensures BuildTable(keys, pkgs).value[CompositeKey(pkgs[i])] == pkgs[i]
  {
    FiledUnderItsKey(keys, pkgs, i);
  }

  /** Two records sharing a name that some record refers to by that bare name make the build
      fail: the second one finds the name taken. */
  lemma {:induction false} SharedBareNameFails(keys: set<string>, pkgs: seq<Package>, i: int, j: int)
    requires 0 <= i < j < |pkgs|
    requires pkgs[i].name == pkgs[j].name
    requires pkgs[i].name in keys
    ensures BuildTable(keys, pkgs).Err?
  {
    if BuildTable(keys, pkgs).Ok? {
      BuildSucceedsIff(keys, pkgs);
      assert Admits(keys, pkgs, j);
      var upto := pkgs[..j];
      assert upto[..i + 1] == pkgs[..i + 1];
      assert upto[..i] == pkgs[..i] && upto[i] == pkgs[i];
      FiledUnderItsKey(keys, upto, i);
      assert false;
    }
  }

  /** No two records share a candidate key. */
  predicate CandidatesDisjoint(pkgs: seq<Package>) {
    forall i, j :: 0 <= i < |pkgs| && 0 <= j < |pkgs| && i != j ==>
      && pkgs[i].name != pkgs[j].name
      && pkgs[i].name != CompositeKey(pkgs[j])
      && CompositeKey(pkgs[i]) != CompositeKey(pkgs[j])
  }

  /** When no two records share a candidate key the build succeeds, whatever the references. */
  lemma {:induction false} DisjointCandidatesSucceed(keys: set<string>, pkgs: seq<Package>)
    requires CandidatesDisjoint(pkgs)
    ensures BuildTable(keys, pkgs).Ok?
    decreases |pkgs|
  {
    if |pkgs| > 0 {
      var n := |pkgs|;
      var front := pkgs[..n - 1];
      assert CandidatesDisjoint(front) by {
        assert forall i :: 0 <= i < |front| ==> front[i] == pkgs[i];
      }
      DisjointCandidatesSucceed(keys, front);
      var table := BuildTable(keys, front).value;
      StoredRecordsListed(keys, front);
      var p := pkgs[n - 1];
      forall k | k in table
        ensures !IsCandidateKey(k, p)
      {
        var m :| 0 <= m < |front| && front[m] == table[k];
        assert pkgs[m] == table[k];
      }
      LastStep(keys, pkgs);
    }
  }

  /** The shape of a Cargo lockfile: no two records share `"name version"`, and no record's
      name is any record's `"name version"`. Names may repeat, one record per version. */
  predicate VersionsDistinct(pkgs: seq<Package>) {
    forall i, j :: 0 <= i < |pkgs| && 0 <= j < |pkgs| ==>
      && (i != j ==> CompositeKey(pkgs[i]) != CompositeKey(pkgs[j]))
      && pkgs[i].name != CompositeKey(pkgs[j])
  }

  /** No name carried by two records is referred to by its bare name. */
  predicate SharedNamesUnreferenced(keys: set<string>, pkgs: seq<Package>) {
    forall i, j :: 0 <= i < j < |pkgs| && pkgs[i].name == pkgs[j].name ==> pkgs[i].name !in keys
  }

  /** When the records have distinct `"name version"` strings and every name carried by
      several versions is referred to only as `"name version"`, the build succeeds: no key the
      rule picks is ever taken. */
  lemma {:induction false} VersionedBuildSucceeds(keys: set<string>, pkgs: seq<Package>)
    requires VersionsDistinct(pkgs)
    requires SharedNamesUnreferenced(keys, pkgs)
    ensures BuildTable(keys, pkgs).Ok?
    decreases |pkgs|
  {
    if |pkgs| > 0 {
      var n := |pkgs|;
      var front := pkgs[..n - 1];
      assert VersionsDistinct(front) && SharedNamesUnreferenced(keys, front) by {
        assert forall i :: 0 <= i < |front| ==> front[i] == pkgs[i];
      }
      VersionedBuildSucceeds(keys, front);
      var table := BuildTable(keys, front).value;
      StoredRecordsListed(keys, front);
      var p := pkgs[n - 1];
      forall k | k in table
        ensures k != CompositeKey(p)
        ensures k == p.name ==> p.name !in keys
      {
        var m :| 0 <= m < |front| && front[m] == table[k];
        assert pkgs[m] == table[k];
      }
      LastStep(keys, pkgs);
    }
  }

  /** For a lockfile of Cargo's shape, the build succeeds exactly when no name carried by two
      versions is referred to by its bare name. */
  lemma {:induction false} VersionedBuildSucceedsIff(keys: set<string>, pkgs: seq<Package>)
    requires VersionsDistinct(pkgs)
    ensures BuildTable(keys, pkgs).Ok? <==> SharedNamesUnreferenced(keys, pkgs)
  {
    if SharedNamesUnreferenced(keys, pkgs) {
      VersionedBuildSucceeds(keys, pkgs);
    } else {
      var i, j :| 0 <= i < j < |pkgs| && pkgs[i].name == pkgs[j].name && pkgs[i].name in keys;
      SharedBareNameFails(keys, pkgs, i, j);
    }
  }
}
