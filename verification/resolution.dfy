/** The third pass of `parse_manifest` (main.py:98-110) and the whole function from the parsed
    document on: every record becomes one resolved entry, in source order, whose dependency URLs
    are found through the identity table. */
module Resolution {
  import opened Results
  import opened Packages
  import opened Identity
  import opened Payload

  /** The identity table `parse_manifest` builds for a package list. */
  function TableOf(pkgs: seq<Package>): Result<Table> {
    BuildTable(DependencyKeys(pkgs), pkgs)
  }

  /** `d` is the resolved entry of record `p` against `table`: its own package URL, and one
      dependency URL per reference, in order, each the URL of the record the table holds
      under that reference. */
  predicate ResolvedFrom(table: Table, p: Package, d: Dependency) {
    && d.packageUrl == Purl(p)
    && d.dependencies.Some?
    && |d.dependencies.value| == |DepsOf(p)|
    && forall j :: 0 <= j < |DepsOf(p)| ==>
        DepsOf(p)[j] in table && d.dependencies.value[j] == Purl(table[DepsOf(p)[j]])
  }

  /** `refs[j]` is the first reference the table lacks. */
  predicate FirstMissing(table: Table, refs: seq<string>, j: int)
    requires 0 <= j < |refs|
  {
    refs[j] !in table && forall j' :: 0 <= j' < j ==> refs[j'] in table
  }

  /** The inner loop of main.py:104-107: looks each reference up in turn. It fails on the
      first reference the table lacks (the `KeyError`), otherwise gives one URL per reference,
      keeping order and repeats. */
  function ResolveDeps(table: Table, refs: seq<string>): (r: Result<seq<string>>)
    ensures r.Ok? <==> forall j :: 0 <= j < |refs| ==> refs[j] in table
    ensures r.Ok? ==> |r.value| == |refs|
    ensures r.Ok? ==> forall j :: 0 <= j < |refs| ==> r.value[j] == Purl(table[refs[j]])
    ensures r.Err? ==> exists j :: 0 <= j < |refs| && FirstMissing(table, refs, j) && r.error == UnresolvedDependency(refs[j])
    decreases |refs|
  {
    if |refs| == 0 then Ok([])
    else if refs[0] !in table then Err(UnresolvedDependency(refs[0]))
    else
      var rest :- ResolveDeps(table, refs[1..]);
      Ok([Purl(table[refs[0]])] + rest)
  }

  /** The loop of main.py:99-108: one resolved entry per record, in source order. It fails
      exactly when some reference of some record is not a key of the table. */
  function ResolveAll(table: Table, pkgs: seq<Package>): (r: Result<seq<Dependency>>)
    ensures r.Ok? <==> forall i, d :: 0 <= i < |pkgs| && d in DepsOf(pkgs[i]) ==> d in table
    ensures r.Ok? ==> |r.value| == |pkgs|
    ensures r.Ok? ==> forall i :: 0 <= i < |pkgs| ==> ResolvedFrom(table, pkgs[i], r.value[i])
    ensures r.Err? ==> r.error.UnresolvedDependency? && r.error.reference !in table
    ensures r.Err? ==> exists i :: 0 <= i < |pkgs| && r.error.reference in DepsOf(pkgs[i])
    decreases |pkgs|
  {
    if |pkgs| == 0 then Ok([])
    else
      var urls :- ResolveDeps(table, DepsOf(pkgs[0]));
      assert forall i :: 0 <= i < |pkgs[1..]| ==> pkgs[1..][i] == pkgs[i + 1];
      var rest :- ResolveAll(table, pkgs[1..]);
      Ok([Dependency(Purl(pkgs[0]), Some(urls))] + rest)
  }

  /** `parse_manifest` once the document is parsed (main.py:78-110): `doc` is the document's
      `package` array, `None` when it has none. The manifest's name and source location are
      both the file name; it fails with an ambiguous identity exactly when the table build
      does, and otherwise with an unresolved dependency exactly when a reference is missing
      from the table. */
  function ParseManifest(fileName: string, doc: Option<seq<Package>>): (r: Result<Manifest>)
    ensures doc.None? ==> r == Err(MissingPackageTable)
    ensures doc.Some? && TableOf(doc.value).Err? ==> r.Err? && r.error.AmbiguousIdentity?
    ensures doc.Some? && TableOf(doc.value).Ok? ==>
      (r.Ok? <==> forall i, d :: 0 <= i < |doc.value| && d in DepsOf(doc.value[i]) ==> d in TableOf(doc.value).value)
    ensures doc.Some? && TableOf(doc.value).Ok? && r.Err? ==> r.error.UnresolvedDependency?
    ensures r.Err? && r.error.UnresolvedDependency? ==> r.error.reference !in TableOf(doc.value).value
    ensures r.Err? && r.error.UnresolvedDependency? ==>
      exists i :: 0 <= i < |doc.value| && r.error.reference in DepsOf(doc.value[i])
    ensures r.Ok? ==> r.value.name == fileName && r.value.sourceLocation == fileName
    ensures r.Ok? ==> |r.value.resolved| == |doc.value|
    ensures r.Ok? ==> forall i :: 0 <= i < |doc.value| ==>
      ResolvedFrom(TableOf(doc.value).value, doc.value[i], r.value.resolved[i])
  {
    match doc
    case None => Err(MissingPackageTable)
    case Some(pkgs) =>
      var keys := DependencyKeys(pkgs);
      var table :- BuildTable(keys, pkgs);
      var resolved :- ResolveAll(table, pkgs);
      Ok(Manifest(fileName, fileName, resolved))
  }

  /** Each dependency URL is the URL of a record of the lockfile whose bare name or
      `"name version"` is the reference it came from. */
  lemma {:induction false} ReferencesNameTheirTargets(fileName: string, pkgs: seq<Package>, i: int, j: int)
    requires ParseManifest(fileName, Some(pkgs)).Ok?
    requires 0 <= i < |pkgs| && 0 <= j < |DepsOf(pkgs[i])|
    ensures var q := TableOf(pkgs).value[DepsOf(pkgs[i])[j]];
      && q in pkgs
      && IsCandidateKey(DepsOf(pkgs[i])[j], q)
      && ParseManifest(fileName, Some(pkgs)).value.resolved[i].dependencies.value[j] == Purl(q)
  {
    StoredRecordsListed(DependencyKeys(pkgs), pkgs);
  }

  /** A reference that is the bare name of record `k` resolves to that record's URL. */
  lemma {:induction false} BareReferenceResolves(fileName: string, pkgs: seq<Package>, i: int, j: int, k: int)
    requires ParseManifest(fileName, Some(pkgs)).Ok?
    requires 0 <= i < |pkgs| && 0 <= j < |DepsOf(pkgs[i])| && 0 <= k < |pkgs|
    requires DepsOf(pkgs[i])[j] == pkgs[k].name
    ensures ParseManifest(fileName, Some(pkgs)).value.resolved[i].dependencies.value[j] == Purl(pkgs[k])
  {
    BareReferenceFindsRecord(DependencyKeys(pkgs), pkgs, k);
  }

  /** A reference that is `"name version"` of record `k`, whose bare name nobody refers to,
      resolves to that record's URL. */
  lemma {:induction false} CompositeReferenceResolves(fileName: string, pkgs: seq<Package>, i: int, j: int, k: int)
    requires ParseManifest(fileName, Some(pkgs)).Ok?
    requires 0 <= i < |pkgs| && 0 <= j < |DepsOf(pkgs[i])| && 0 <= k < |pkgs|
    requires DepsOf(pkgs[i])[j] == CompositeKey(pkgs[k])
    requires pkgs[k].name !in DependencyKeys(pkgs)
    ensures ParseManifest(fileName, Some(pkgs)).value.resolved[i].dependencies.value[j] == Purl(pkgs[k])
  {
    CompositeReferenceFindsRecord(DependencyKeys(pkgs), pkgs, k);
  }

  /** Two records sharing a name that some record refers to by that bare name make the whole
      resolution fail with an ambiguous identity. */
  lemma {:induction false} SharedBareNameIsAmbiguous(fileName: string, pkgs: seq<Package>, i: int, k: int, r: int)
    requires 0 <= i < k < |pkgs| && 0 <= r < |pkgs|
    requires pkgs[i].name == pkgs[k].name
    requires pkgs[i].name in DepsOf(pkgs[r])
    ensures ParseManifest(fileName, Some(pkgs)).Err?
    ensures ParseManifest(fileName, Some(pkgs)).error.AmbiguousIdentity?
  {
    SharedBareNameFails(DependencyKeys(pkgs), pkgs, i, k);
  }

  /** When no two records share a candidate key and every reference is some record's bare
      name, resolution succeeds. */
  lemma {:induction false} UniqueNamesResolve(fileName: string, pkgs: seq<Package>)
    requires CandidatesDisjoint(pkgs)
    requires forall i, d :: 0 <= i < |pkgs| && d in DepsOf(pkgs[i]) ==> exists k :: 0 <= k < |pkgs| && pkgs[k].name == d
    ensures ParseManifest(fileName, Some(pkgs)).Ok?
  {
    var keys := DependencyKeys(pkgs);
    DisjointCandidatesSucceed(keys, pkgs);
    forall i, d | 0 <= i < |pkgs| && d in DepsOf(pkgs[i])
      ensures d in TableOf(pkgs).value
    {
      var k :| 0 <= k < |pkgs| && pkgs[k].name == d;
      BareReferenceFindsRecord(keys, pkgs, k);
    }
  }

  /** Reference `d` names a record of the list in a form its table holds: the record's bare
      name, or its `"name version"` when its bare name is referred to nowhere. */
  predicate ReferenceNamesRecord(pkgs: seq<Package>, d: string) {
    exists k :: 0 <= k < |pkgs| &&
      (d == pkgs[k].name || (d == CompositeKey(pkgs[k]) && pkgs[k].name !in DependencyKeys(pkgs)))
  }

  /** A lockfile of Cargo's shape, where a name carried by several versions is referred to only
      as `"name version"` and every reference names a record, resolves. */
  lemma {:induction false} VersionedReferencesResolve(fileName: string, pkgs: seq<Package>)
    requires VersionsDistinct(pkgs)
    requires SharedNamesUnreferenced(DependencyKeys(pkgs), pkgs)
    requires forall r, d :: 0 <= r < |pkgs| && d in DepsOf(pkgs[r]) ==> ReferenceNamesRecord(pkgs, d)
    ensures ParseManifest(fileName, Some(pkgs)).Ok?
  {
    var keys := DependencyKeys(pkgs);
    VersionedBuildSucceeds(keys, pkgs);
    forall i, d | 0 <= i < |pkgs| && d in DepsOf(pkgs[i])
      ensures d in TableOf(pkgs).value
    {
      assert ReferenceNamesRecord(pkgs, d);
      var k :| 0 <= k < |pkgs| && (d == pkgs[k].name || (d == CompositeKey(pkgs[k]) && pkgs[k].name !in keys));
      if d == pkgs[k].name {
        BareReferenceFindsRecord(keys, pkgs, k);
      } else {
        CompositeReferenceFindsRecord(keys, pkgs, k);
      }
    }
  }

  /** In such a lockfile each reference yields the URL of the record whose bare name or
      `"name version"` it is. */
  lemma {:induction false} VersionedReferenceTarget(fileName: string, pkgs: seq<Package>, i: int, j: int, k: int)
    requires VersionsDistinct(pkgs)
    requires SharedNamesUnreferenced(DependencyKeys(pkgs), pkgs)
    requires forall r, d :: 0 <= r < |pkgs| && d in DepsOf(pkgs[r]) ==> ReferenceNamesRecord(pkgs, d)
    requires 0 <= i < |pkgs| && 0 <= j < |DepsOf(pkgs[i])| && 0 <= k < |pkgs|
    requires IsCandidateKey(DepsOf(pkgs[i])[j], pkgs[k])
    ensures ParseManifest(fileName, Some(pkgs)).Ok?
    ensures ParseManifest(fileName, Some(pkgs)).value.resolved[i].dependencies.value[j] == Purl(pkgs[k])
  {
    VersionedReferencesResolve(fileName, pkgs);
    var d := DepsOf(pkgs[i])[j];
    if d == pkgs[k].name {
      BareReferenceResolves(fileName, pkgs, i, j, k);
    } else {
      assert d in DepsOf(pkgs[i]);
      assert ReferenceNamesRecord(pkgs, d);
      var k' :| 0 <= k' < |pkgs| &&
        (d == pkgs[k'].name || (d == CompositeKey(pkgs[k']) && pkgs[k'].name !in DependencyKeys(pkgs)));
      assert k' == k;
      CompositeReferenceResolves(fileName, pkgs, i, j, k);
    }
  }

  /** An empty package list gives a manifest with no entries. */
  lemma {:induction false} EmptyLockfile(fileName: string)
    ensures ParseManifest(fileName, Some([])) == Ok(Manifest(fileName, fileName, []))
  {
  }

  // Three worked lockfiles, their records named as constants.

  const SingleA := Package("a", "1.0", Some([]))
  const SingleB := Package("b", "1.0", Some(["a"]))

  /** The only reference in `[a 1.0, b 1.0 -> "a"]` is `"a"`. */
  lemma {:induction false} SingleVersionKeys()
    ensures DependencyKeys([SingleA, SingleB]) == {"a"}
  {
    var a, b := SingleA, SingleB;
    assert [a, b][..1] == [a];
    assert [a][..0] == [];
    assert DependencyKeys([a]) == {};
  }

  /** Resolving `[a 1.0, b 1.0 -> "a"]`: both records are filed under their bare names and
      `b`'s reference finds `a`. */
  lemma {:induction false} SingleVersionResolve()
    ensures BuildTable({"a"}, [SingleA, SingleB]) == Ok(map["a" := SingleA, "b" := SingleB])
    ensures ResolveAll(map["a" := SingleA, "b" := SingleB], [SingleA, SingleB]) == Ok([
      Dependency("pkg:cargo/a@1.0", Some([])),
      Dependency("pkg:cargo/b@1.0", Some(["pkg:cargo/a@1.0"]))])
  {
    var keys: set<string>, a, b := {"a"}, SingleA, SingleB;
    assert CompositeKey(a) == "a 1.0" && CompositeKey(b) == "b 1.0";
    assert [a][..0] == [];
    assert BuildTable(keys, [a]) == Ok(map["a" := a]);
    assert [a, b][..1] == [a];
    var table := map["a" := a, "b" := b];
    assert Purl(a) == "pkg:cargo/a@1.0" && Purl(b) == "pkg:cargo/b@1.0";
    assert DepsOf(a) == [] && DepsOf(b) == ["a"];
    assert ["a"][1..] == [];
    assert ResolveDeps(table, []) == Ok([]);
    assert ["pkg:cargo/a@1.0"] + [] == ["pkg:cargo/a@1.0"];
    assert ResolveDeps(table, ["a"]) == Ok(["pkg:cargo/a@1.0"]);
    assert [b][1..] == [];
    assert ResolveAll(table, []) == Ok([]);
    var db := Dependency("pkg:cargo/b@1.0", Some(["pkg:cargo/a@1.0"]));
    assert [db] + [] == [db];
    assert ResolveAll(table, [b]) == Ok([db]);
    assert [a, b][1..] == [b];
    var da := Dependency("pkg:cargo/a@1.0", Some([]));
    assert ResolveAll(table, [a, b]) == Ok([da] + [db]);
    assert [da] + [db] == [da, db];
  }

  /** `[a 1.0, b 1.0 -> "a"]`: `b` depends on `pkg:cargo/a@1.0`, `a` on nothing. */
  lemma {:induction false} ExampleSingleVersion()
    ensures ParseManifest("Cargo.lock", Some([SingleA, SingleB])) == Ok(Manifest("Cargo.lock", "Cargo.lock", [
      Dependency("pkg:cargo/a@1.0", Some([])),
      Dependency("pkg:cargo/b@1.0", Some(["pkg:cargo/a@1.0"]))]))
  {
    SingleVersionKeys();
    SingleVersionResolve();
  }

  const TwoA1 := Package("a", "1.0", Some([]))
  const TwoA2 := Package("a", "2.0", Some([]))
  const TwoB := Package("b", "1.0", Some(["a 1.0"]))

  /** The only reference in `[a 1.0, a 2.0, b 1.0 -> "a 1.0"]` is `"a 1.0"`. */
  lemma {:induction false} TwoVersionsKeys()
    ensures DependencyKeys([TwoA1, TwoA2, TwoB]) == {"a 1.0"}
  {
    var a1, a2, b := TwoA1, TwoA2, TwoB;
    assert [a1, a2, b][..2] == [a1, a2];
    assert [a1, a2][..1] == [a1];
    assert [a1][..0] == [];
    assert DependencyKeys([a1]) == {};
    assert DependencyKeys([a1, a2]) == {};
  }

  /** Filing `[a 1.0, a 2.0]` when only `"a 1.0"` is referred to puts the first `a` under
      `"a 1.0"` and the second under its bare name.
      The records are parameters pinned by `requires` rather than the constants above: on
      constant arguments the verifier unfolds `BuildTable` eagerly and the proof grows past its
      budget. */
  lemma {:induction false} TwoVersionsPrefix(keys: set<string>, a1: Package, a2: Package)
    requires keys == {"a 1.0"}
    requires a1 == Package("a", "1.0", Some([]))
    requires a2 == Package("a", "2.0", Some([]))
    ensures BuildTable(keys, [a1, a2]) == Ok(map["a 1.0" := a1, "a" := a2])
  {
    assert CompositeKey(a1) == "a 1.0" && CompositeKey(a2) == "a 2.0";
    var t1 := map["a 1.0" := a1];
    assert BuildTable(keys, [a1]) == Ok(t1) by {
      assert BuildTable(keys, []) == Ok(map[]);
      BuildAppend(keys, [], a1);
      assert [] + [a1] == [a1];
    }
    assert "a" !in keys && "a 2.0" !in keys && "a" !in t1;
    BuildAppend(keys, [a1], a2);
    assert [a1] + [a2] == [a1, a2];
  }

  /** Filing `[a 1.0, a 2.0, b 1.0]` when only `"a 1.0"` is referred to puts the first `a`
      under `"a 1.0"`, the second under its bare name and `b` under its bare name. */
  lemma {:induction false} TwoVersionsBuild(keys: set<string>, a1: Package, a2: Package, b: Package)
    requires keys == {"a 1.0"}
    requires a1 == Package("a", "1.0", Some([]))
    requires a2 == Package("a", "2.0", Some([]))
    requires b == Package("b", "1.0", Some(["a 1.0"]))
    ensures BuildTable(keys, [a1, a2, b]) == Ok(map["a 1.0" := a1, "a" := a2, "b" := b])
  {
    TwoVersionsPrefix(keys, a1, a2);
    var t2 := map["a 1.0" := a1, "a" := a2];
    assert CompositeKey(b) == "b 1.0";
    assert "b" !in keys && "b 1.0" !in keys && "b" !in t2;
    BuildAppend(keys, [a1, a2], b);
    assert [a1, a2] + [b] == [a1, a2, b];
  }

  /** The identity table of `[a 1.0, a 2.0, b 1.0 -> "a 1.0"]`. */
  lemma {:induction false} TwoVersionsTable()
    ensures TableOf([TwoA1, TwoA2, TwoB]) == Ok(map["a 1.0" := TwoA1, "a" := TwoA2, "b" := TwoB])
  {
    TwoVersionsKeys();
    TwoVersionsBuild({"a 1.0"}, TwoA1, TwoA2, TwoB);
  }

  /** Resolving `[a 1.0, a 2.0, b 1.0 -> "a 1.0"]` against its identity table. */
  lemma {:induction false} TwoVersionsResolve()
    ensures ResolveAll(map["a 1.0" := TwoA1, "a" := TwoA2, "b" := TwoB], [TwoA1, TwoA2, TwoB]) == Ok([
      Dependency("pkg:cargo/a@1.0", Some([])),
      Dependency("pkg:cargo/a@2.0", Some([])),
      Dependency("pkg:cargo/b@1.0", Some(["pkg:cargo/a@1.0"]))])
  {
    var a1, a2, b := TwoA1, TwoA2, TwoB;
    var table := map["a 1.0" := a1, "a" := a2, "b" := b];
    assert Purl(a1) == "pkg:cargo/a@1.0" && Purl(a2) == "pkg:cargo/a@2.0" && Purl(b) == "pkg:cargo/b@1.0";
    assert DepsOf(a1) == [] && DepsOf(a2) == [] && DepsOf(b) == ["a 1.0"];
    assert ["a 1.0"][1..] == [];
    assert ResolveDeps(table, []) == Ok([]);
    assert table["a 1.0"] == a1;
    assert ["pkg:cargo/a@1.0"] + [] == ["pkg:cargo/a@1.0"];
    assert ResolveDeps(table, ["a 1.0"]) == Ok(["pkg:cargo/a@1.0"]);
    assert [b][1..] == [];
    assert ResolveAll(table, []) == Ok([]);
    var db := Dependency("pkg:cargo/b@1.0", Some(["pkg:cargo/a@1.0"]));
    assert [db] + [] == [db];
    assert ResolveAll(table, [b]) == Ok([db]);
    assert [a2, b][1..] == [b];
    var da2 := Dependency("pkg:cargo/a@2.0", Some([]));
    assert ResolveAll(table, [a2, b]) == Ok([da2] + [db]);
    assert [a1, a2, b][1..] == [a2, b];
    var da1 := Dependency("pkg:cargo/a@1.0", Some([]));
    assert ResolveAll(table, [a1, a2, b]) == Ok([da1] + ([da2] + [db]));
    assert [da1] + ([da2] + [db]) == [da1, da2, db];
  }

  /** `[a 1.0, a 2.0, b 1.0 -> "a 1.0"]`: `b` depends on `pkg:cargo/a@1.0`, not on 2.0. */
  lemma {:induction false} ExampleTwoVersions()
    ensures ParseManifest("Cargo.lock", Some([TwoA1, TwoA2, TwoB])) == Ok(Manifest("Cargo.lock", "Cargo.lock", [
      Dependency("pkg:cargo/a@1.0", Some([])),
      Dependency("pkg:cargo/a@2.0", Some([])),
      Dependency("pkg:cargo/b@1.0", Some(["pkg:cargo/a@1.0"]))]))
  {
    TwoVersionsTable();
    TwoVersionsResolve();
  }

  const MixedA := Package("a", "1.0", None)
  const MixedB := Package("b", "1.0", Some(["a"]))
  const MixedC := Package("c", "1.0", Some(["a 1.0"]))

  /** The references in `[a 1.0, b 1.0 -> "a", c 1.0 -> "a 1.0"]` are `"a"` and `"a 1.0"`. */
  lemma {:induction false} MixedFormsKeys()
    ensures DependencyKeys([MixedA, MixedB, MixedC]) == {"a", "a 1.0"}
  {
    var a, b, c := MixedA, MixedB, MixedC;
    assert [a, b, c][..2] == [a, b];
    assert [a, b][..1] == [a];
    assert [a][..0] == [];
    assert DependencyKeys([a]) == {};
    assert DependencyKeys([a, b]) == {"a"};
  }

  /** Filing `[a 1.0, b 1.0]` when `"a"` and `"a 1.0"` are referred to puts each record under
      its bare name. As for `TwoVersionsPrefix`, the records are parameters. */
  lemma {:induction false} MixedFormsPrefix(keys: set<string>, a: Package, b: Package)
    requires keys == {"a", "a 1.0"}
    requires a == Package("a", "1.0", None)
    requires b == Package("b", "1.0", Some(["a"]))
    ensures BuildTable(keys, [a, b]) == Ok(map["a" := a, "b" := b])
  {
    var t1 := map["a" := a];
    assert BuildTable(keys, [a]) == Ok(t1) by {
      assert BuildTable(keys, []) == Ok(map[]);
      BuildAppend(keys, [], a);
      assert [] + [a] == [a];
    }
    assert CompositeKey(b) == "b 1.0";
    assert "b" !in keys && "b 1.0" !in keys && "b" !in t1;
    BuildAppend(keys, [a], b);
    assert [a] + [b] == [a, b];
  }

  /** Filing `[a 1.0, b 1.0, c 1.0]` when `"a"` and `"a 1.0"` are referred to puts each record
      under its bare name. */
  lemma {:induction false} MixedFormsBuild(keys: set<string>, a: Package, b: Package, c: Package)
    requires keys == {"a", "a 1.0"}
    requires a == Package("a", "1.0", None)
    requires b == Package("b", "1.0", Some(["a"]))
    requires c == Package("c", "1.0", Some(["a 1.0"]))
    ensures BuildTable(keys, [a, b, c]) == Ok(map["a" := a, "b" := b, "c" := c])
  {
    MixedFormsPrefix(keys, a, b);
    var t2 := map["a" := a, "b" := b];
    assert CompositeKey(c) == "c 1.0";
    assert "c" !in keys && "c 1.0" !in keys && "c" !in t2;
    BuildAppend(keys, [a, b], c);
    assert [a, b] + [c] == [a, b, c];
  }

  /** Resolving `[a 1.0, b 1.0 -> "a", c 1.0 -> "a 1.0"]` against that table fails on
      `"a 1.0"`, which `a` is not filed under. */
  lemma {:induction false} MixedFormsResolve()
    ensures ResolveAll(map["a" := MixedA, "b" := MixedB, "c" := MixedC], [MixedA, MixedB, MixedC])
      == Err(UnresolvedDependency("a 1.0"))
  {
    var a, b, c := MixedA, MixedB, MixedC;
    var table := map["a" := a, "b" := b, "c" := c];
    assert DepsOf(a) == [] && DepsOf(b) == ["a"] && DepsOf(c) == ["a 1.0"];
    assert ResolveDeps(table, ["a 1.0"]) == Err(UnresolvedDependency("a 1.0"));
    assert ResolveAll(table, [c]) == Err(UnresolvedDependency("a 1.0"));
    assert [b, c][1..] == [c];
    assert ["a"][1..] == [];
    assert ResolveDeps(table, []) == Ok([]);
    assert ResolveDeps(table, ["a"]).Ok?;
    assert ResolveAll(table, [b, c]) == Err(UnresolvedDependency("a 1.0"));
    assert [a, b, c][1..] == [b, c];
  }

  /** A record referred to both by its bare name and as `"name version"` cannot be resolved:
      `[a 1.0, b 1.0 -> "a", c 1.0 -> "a 1.0"]` fails on the reference `"a 1.0"`. */
  lemma {:induction false} MixedReferenceFormsUnresolved()
    ensures ParseManifest("Cargo.lock", Some([MixedA, MixedB, MixedC])) == Err(UnresolvedDependency("a 1.0"))
  {
    MixedFormsKeys();
    MixedFormsBuild({"a", "a 1.0"}, MixedA, MixedB, MixedC);
    MixedFormsResolve();
  }
}
