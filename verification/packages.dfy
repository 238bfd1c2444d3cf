/** The lockfile's package records, as the TOML parser hands them over, and the two strings
    derived from a record's name and version: its candidate table keys and its package URL. */
module Packages {
  import opened Results

  /** One `[[package]]` record. `dependencies` is `None` when the record has no such field. */
  datatype Package = Package(name: string, version: string, dependencies: Option<seq<string>>)

  /** The record's dependency references, a missing field reading as the empty list
      (`p.get('dependencies', [])`). */
  function DepsOf(p: Package): (ds: seq<string>)
    ensures p.dependencies.None? ==> ds == []
    ensures p.dependencies.Some? ==> ds == p.dependencies.value
  {
    p.dependencies.GetOr([])
  }

  /** The disambiguated reference form `"name version"`: the name, one space, the version. It
      is never the bare name itself. */
  function CompositeKey(p: Package): (k: string)
    ensures |k| == |p.name| + 1 + |p.version|
    ensures k[..|p.name|] == p.name && k[|p.name|] == ' ' && k[|p.name| + 1..] == p.version
    ensures k != p.name
  {
    p.name + " " + p.version
  }

  /** `k` is one of the two strings a record can be filed under: its bare name or `"name version"`. */
  predicate IsCandidateKey(k: string, p: Package) {
    k == p.name || k == CompositeKey(p)
  }

  /** The canonical identity `pkg:cargo/{name}@{version}` of a record: the `pkg:cargo/` prefix,
      the name, `@`, the version. */
  function Purl(p: Package): (u: string)
    ensures |u| == 11 + |p.name| + |p.version|
    ensures u[..10] == "pkg:cargo/"
    ensures u[10..10 + |p.name|] == p.name && u[10 + |p.name|] == '@' && u[11 + |p.name|..] == p.version
  {
    "pkg:cargo/" + p.name + "@" + p.version
  }

  /** For versions without a space, as Cargo versions are, two records share `"name version"`
      exactly when they share both name and version. */
  lemma {:induction false} CompositeKeyIdentifies(p: Package, q: Package)
    requires ' ' !in p.version && ' ' !in q.version
    ensures CompositeKey(p) == CompositeKey(q) <==> p.name == q.name && p.version == q.version
  {
  }

  /** For versions without an `@`, as Cargo versions are, two records share a package URL exactly
      when they share both name and version. */
  lemma {:induction false} PurlIdentifies(p: Package, q: Package)
    requires '@' !in p.version && '@' !in q.version
    ensures Purl(p) == Purl(q) <==> p.name == q.name && p.version == q.version
  {
  }
}
