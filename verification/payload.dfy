/** The dependency-submission payload: the `GHSub*` records of main.py:10-72 and their
    `to_json` serialisers, plus a reader that recovers a manifest's dependency graph from its
    JSON form. */
module Payload {
  import opened Results
  import opened Json

  /** `GHSubDependency`: a package URL and, optionally, the URLs of its direct dependencies. */
  datatype Dependency = Dependency(packageUrl: string, dependencies: Option<seq<string>>)

  /** `GHSubManifest`: one lockfile's resolved packages. */
  datatype Manifest = Manifest(name: string, sourceLocation: string, resolved: seq<Dependency>)

  /** `GHSubJob`. */
  datatype Job = Job(jobId: string, correlator: string, htmlUrl: Option<string>)

  /** `GHSubDetector`. */
  datatype Detector = Detector(name: string, version: string, url: string)

  /** `GHSubRequest`. `scanned` is the timestamp string the constructor reads from the clock;
      here it is supplied by the caller. */
  datatype Request = Request(
    version: int, job: Job, sha: string, ref: string, detector: Detector,
    manifests: seq<Manifest>, scanned: string)

  /** The dependency URLs of an entry, an absent list reading as none. */
  function DependencyUrls(d: Dependency): seq<string> {
    d.dependencies.GetOr([])
  }

  /** A list of strings as a JSON array. */
  function StringArray(ss: seq<string>): (j: Json)
    ensures j.JArr? && |j.items| == |ss|
    ensures forall i :: 0 <= i < |ss| ==> j.items[i] == JStr(ss[i])
  {
    JArr(seq(|ss|, i requires 0 <= i < |ss| => JStr(ss[i])))
  }

  /** `GHSubDependency.to_json` (main.py:15-19): the package URL always, the `dependencies`
      key only for a present, non-empty list. */
  function DependencyToJson(d: Dependency): (j: Json)
    ensures j.JObj? && DistinctKeys(j.fields)
    ensures |j.fields| == if d.dependencies.Some? && |d.dependencies.value| > 0 then 2 else 1
    ensures Lookup(j.fields, "package_url") == Some(JStr(d.packageUrl))
    ensures Lookup(j.fields, "dependencies").Some? <==> d.dependencies.Some? && |d.dependencies.value| > 0
    ensures Lookup(j.fields, "dependencies").Some? ==> Lookup(j.fields, "dependencies").value == StringArray(DependencyUrls(d))
  {
    if d.dependencies.Some? && |d.dependencies.value| > 0 then
      var fs := [("package_url", JStr(d.packageUrl)), ("dependencies", StringArray(d.dependencies.value))];
      DisplayFacts(fs);
      JObj(fs)
    else
      var fs := [("package_url", JStr(d.packageUrl))];
      DisplayFacts(fs);
      JObj(fs)
  }

  /** Reads the strings of a JSON array back; `None` if an item is not a string. */
  function DecodeStrings(items: seq<Json>): Option<seq<string>> {
    if |items| == 0 then Some([])
    else
      match (items[0], DecodeStrings(items[1..]))
      case (JStr(s), Some(rest)) => Some([s] + rest)
      case _ => None
  }

  /** Reads one `resolved` entry stored under `url` back into its dependency URLs, a missing
      `dependencies` key reading as none; `None` if the entry is malformed or names another
      package. */
  function DecodeEntry(url: string, j: Json): Option<seq<string>> {
    match j
    case JObj(fs) =>
      if Lookup(fs, "package_url") != Some(JStr(url)) then None
      else (
        match Lookup(fs, "dependencies")
        case None => Some([])
        case Some(JArr(items)) => DecodeStrings(items)
        case Some(_) => None)
    case _ => None
  }

  /** Reading an array of strings back gives the strings. */
  lemma {:induction false} StringArrayRoundTrip(ss: seq<string>)
    ensures DecodeStrings(StringArray(ss).items) == Some(ss)
  {
    if |ss| > 0 {
      StringArrayRoundTrip(ss[1..]);
      assert StringArray(ss).items[1..] == StringArray(ss[1..]).items;
      assert [ss[0]] + ss[1..] == ss;
    }
  }

  /** Serialising an entry and reading it back under its own URL gives its dependency URLs,
      whether the list was absent, empty or not. */
  lemma {:induction false} DependencyRoundTrip(d: Dependency)
    ensures DecodeEntry(d.packageUrl, DependencyToJson(d)) == Some(DependencyUrls(d))
  {
    StringArrayRoundTrip(DependencyUrls(d));
  }

  /** The package URLs of a list of entries, in order. */
  function Urls(rs: seq<Dependency>): (us: seq<string>)
    ensures |us| == |rs|
    ensures forall i :: 0 <= i < |rs| ==> us[i] == rs[i].packageUrl
  {
    seq(|rs|, i requires 0 <= i < |rs| => rs[i].packageUrl)
  }

  /** The JSON of a list of entries, in order. */
  function EntryJsons(rs: seq<Dependency>): (js: seq<Json>)
    ensures |js| == |rs|
    ensures forall i :: 0 <= i < |rs| ==> js[i] == DependencyToJson(rs[i])
  {
    seq(|rs|, i requires 0 <= i < |rs| => DependencyToJson(rs[i]))
  }

  /** The `resolved` object of `GHSubManifest.to_json` (main.py:29-31): each entry assigned
      under its own package URL, in order. Its keys are exactly the package URLs, and a URL
      carried by several entries holds the JSON of the last of them. */
  function ResolvedObject(rs: seq<Dependency>): (fs: Fields)
    ensures DistinctKeys(fs)
    ensures KeySet(fs) == set u | u in Urls(rs)
    ensures forall i :: 0 <= i < |rs| && LastIn(Urls(rs), i) ==>
      Lookup(fs, rs[i].packageUrl) == Some(DependencyToJson(rs[i]))
  {
    Assign(Urls(rs), EntryJsons(rs))
  }

  /** `GHSubManifest.to_json` (main.py:28-32). */
  function ManifestToJson(m: Manifest): (j: Json)
    ensures j.JObj? && DistinctKeys(j.fields)
    ensures |j.fields| == 3
    ensures Lookup(j.fields, "name") == Some(JStr(m.name))
    ensures Lookup(j.fields, "file") == Some(JObj([("source_location", JStr(m.sourceLocation))]))
    ensures Lookup(j.fields, "resolved") == Some(JObj(ResolvedObject(m.resolved)))
  {
    var fs := [
      ("name", JStr(m.name)),
      ("file", JObj([("source_location", JStr(m.sourceLocation))])),
      ("resolved", JObj(ResolvedObject(m.resolved)))];
    DisplayFacts(fs);
    JObj(fs)
  }

  /** One entry more: if `g` is the graph of all entries of `rs` but the newest, adding the
      newest gives the graph of all of `rs`. */
  lemma {:induction false} GraphStep(rs: seq<Dependency>, front: seq<Dependency>, g: map<string, seq<string>>,
                                     r: map<string, seq<string>>)
    requires |rs| > 0 && front == rs[..|rs| - 1]
    requires g.Keys == set u | u in Urls(front)
    requires forall i :: 0 <= i < |front| && LastIn(Urls(front), i) ==> g[front[i].packageUrl] == DependencyUrls(front[i])
    requires r == g[rs[|rs| - 1].packageUrl := DependencyUrls(rs[|rs| - 1])]
    ensures r.Keys == set u | u in Urls(rs)
    ensures forall i :: 0 <= i < |rs| && LastIn(Urls(rs), i) ==> r[rs[i].packageUrl] == DependencyUrls(rs[i])
  {
    var last := rs[|rs| - 1];
    assert Urls(rs) == Urls(front) + [last.packageUrl];
    forall i | 0 <= i < |front| && LastIn(Urls(rs), i)
      ensures LastIn(Urls(front), i) && rs[i].packageUrl != last.packageUrl
    {
      assert Urls(rs)[|rs| - 1] == last.packageUrl;
    }
  }

  /** The dependency graph a list of entries describes: package URL to dependency URLs, a
      later entry for the same URL replacing an earlier one. */
  function Graph(rs: seq<Dependency>): (g: map<string, seq<string>>)
    ensures g.Keys == set u | u in Urls(rs)
    ensures forall i :: 0 <= i < |rs| && LastIn(Urls(rs), i) ==> g[rs[i].packageUrl] == DependencyUrls(rs[i])
    decreases |rs|
  {
    if |rs| == 0 then map[]
    else
      var front := rs[..|rs| - 1];
      var g := Graph(front);
      var r := g[rs[|rs| - 1].packageUrl := DependencyUrls(rs[|rs| - 1])];
      GraphStep(rs, front, g, r);
      r
  }

  /** Reads a `resolved` object back into a graph; `None` when an entry is malformed. */
  function ReadEntries(rf: Fields): Option<map<string, seq<string>>> {
    if forall k :: k in KeySet(rf) ==> DecodeEntry(k, Lookup(rf, k).value).Some? then
      Some(map k | k in KeySet(rf) :: DecodeEntry(k, Lookup(rf, k).value).value)
    else
      None
  }

  /** Reads the dependency graph back from a manifest's JSON; `None` when the JSON is not a
      manifest or an entry is malformed. */
  function ReadGraph(j: Json): Option<map<string, seq<string>>> {
    match j
    case JObj(fs) => (
      match Lookup(fs, "resolved")
      case Some(JObj(rf)) => ReadEntries(rf)
      case _ => None)
    case _ => None
  }

  /** Each URL of the `resolved` object reads back as the dependency URLs the graph gives it. */
  lemma {:induction false} ReadBackEntry(rs: seq<Dependency>, k: string)
    requires k in Urls(rs)
    ensures k in KeySet(ResolvedObject(rs))
    ensures DecodeEntry(k, Lookup(ResolvedObject(rs), k).value) == Some(Graph(rs)[k])
  {
    var us := Urls(rs);
    var i :| 0 <= i < |us| && us[i] == k;
    LastOccurrence(us, i);
    var j :| i <= j < |us| && us[j] == k && LastIn(us, j);
    DependencyRoundTrip(rs[j]);
  }

  /** A `resolved` object reads back as `g` when it has `g`'s keys and each entry reads back as
      `g` says. */
  lemma {:induction false} ReadEntriesExactly(rf: Fields, g: map<string, seq<string>>)
    requires KeySet(rf) == g.Keys
    requires forall k :: k in KeySet(rf) ==> DecodeEntry(k, Lookup(rf, k).value) == Some(g[k])
    ensures ReadEntries(rf) == Some(g)
  {
    var m := map k | k in KeySet(rf) :: DecodeEntry(k, Lookup(rf, k).value).value;
    assert m.Keys == g.Keys;
    assert m == g;
  }

  /** Reading the `resolved` object of a list of entries back gives their graph. */
  lemma {:induction false} ResolvedRoundTrip(rs: seq<Dependency>)
    ensures ReadEntries(ResolvedObject(rs)) == Some(Graph(rs))
  {
    var rf := ResolvedObject(rs);
    var g := Graph(rs);
    forall k | k in KeySet(rf)
      ensures DecodeEntry(k, Lookup(rf, k).value) == Some(g[k])
    {
      ReadBackEntry(rs, k);
    }
    ReadEntriesExactly(rf, g);
  }

  /** Serialising a manifest and reading it back gives the dependency graph of its entries:
      every package URL with its dependency URLs, in order and with repeats. An absent and an
      empty `dependencies` list both read back as empty. */
  lemma {:induction false} ManifestRoundTrip(m: Manifest)
    ensures ReadGraph(ManifestToJson(m)) == Some(Graph(m.resolved))
  {
    ResolvedRoundTrip(m.resolved);
  }

  /** `GHSubJob.to_json` (main.py:41-45): `html_url` present exactly when one was supplied. */
  function JobToJson(job: Job): (j: Json)
    ensures j.JObj? && DistinctKeys(j.fields)
    ensures Lookup(j.fields, "id") == Some(JStr(job.jobId))
    ensures Lookup(j.fields, "correlator") == Some(JStr(job.correlator))
    ensures Lookup(j.fields, "html_url") == if job.htmlUrl.Some? then Some(JStr(job.htmlUrl.value)) else None
    ensures |j.fields| == if job.htmlUrl.Some? then 3 else 2
  {
    if job.htmlUrl.Some? then
      var fs := [("id", JStr(job.jobId)), ("correlator", JStr(job.correlator)), ("html_url", JStr(job.htmlUrl.value))];
      DisplayFacts(fs);
      JObj(fs)
    else
      var fs := [("id", JStr(job.jobId)), ("correlator", JStr(job.correlator))];
      DisplayFacts(fs);
      JObj(fs)
  }

  /** `GHSubDetector.to_json` (main.py:54-55). */
  function DetectorToJson(det: Detector): (j: Json)
    ensures j.JObj? && DistinctKeys(j.fields)
    ensures |j.fields| == 3
    ensures Lookup(j.fields, "name") == Some(JStr(det.name))
    ensures Lookup(j.fields, "version") == Some(JStr(det.version))
    ensures Lookup(j.fields, "url") == Some(JStr(det.url))
  {
    var fs := [("name", JStr(det.name)), ("version", JStr(det.version)), ("url", JStr(det.url))];
    DisplayFacts(fs);
    JObj(fs)
  }

  /** The names of a list of manifests, in order. */
  function Names(ms: seq<Manifest>): (ns: seq<string>)
    ensures |ns| == |ms|
    ensures forall i :: 0 <= i < |ms| ==> ns[i] == ms[i].name
  {
    seq(|ms|, i requires 0 <= i < |ms| => ms[i].name)
  }

  /** The JSON of a list of manifests, in order. */
  function ManifestJsons(ms: seq<Manifest>): (js: seq<Json>)
    ensures |js| == |ms|
    ensures forall i :: 0 <= i < |ms| ==> js[i] == ManifestToJson(ms[i])
  {
    seq(|ms|, i requires 0 <= i < |ms| => ManifestToJson(ms[i]))
  }

  /** The `manifests` object of `GHSubRequest.to_json` (main.py:70-71): each manifest assigned
      under its name, in order. Its keys are exactly the names, and a name shared by several
      manifests holds the JSON of the last of them: earlier ones are overwritten, not refused. */
  function ManifestsObject(ms: seq<Manifest>): (fs: Fields)
    ensures DistinctKeys(fs)
    ensures KeySet(fs) == set n | n in Names(ms)
    ensures forall i :: 0 <= i < |ms| && LastIn(Names(ms), i) ==>
      Lookup(fs, ms[i].name) == Some(ManifestToJson(ms[i]))
  {
    Assign(Names(ms), ManifestJsons(ms))
  }

  /** The seven top-level keys of the payload are distinct. */
  lemma {:induction false} RequestKeysDistinct(a: Json, b: Json, c: Json, d: Json, e: Json, f: Json, g: Json)
    ensures DistinctKeys([
      ("version", a), ("job", b), ("sha", c), ("ref", d), ("detector", e), ("manifests", f), ("scanned", g)])
  {
  }

  /** `GHSubRequest.to_json` (main.py:68-72). */
  function RequestToJson(req: Request): (j: Json)
    ensures j.JObj? && DistinctKeys(j.fields)
    ensures |j.fields| == 7
    ensures Lookup(j.fields, "version") == Some(JInt(req.version))
    ensures Lookup(j.fields, "job") == Some(JobToJson(req.job))
    ensures Lookup(j.fields, "sha") == Some(JStr(req.sha))
    ensures Lookup(j.fields, "ref") == Some(JStr(req.ref))
    ensures Lookup(j.fields, "detector") == Some(DetectorToJson(req.detector))
    ensures Lookup(j.fields, "manifests") == Some(JObj(ManifestsObject(req.manifests)))
    ensures Lookup(j.fields, "scanned") == Some(JStr(req.scanned))
  {
    var fs := [
      ("version", JInt(req.version)),
      ("job", JobToJson(req.job)),
      ("sha", JStr(req.sha)),
      ("ref", JStr(req.ref)),
      ("detector", DetectorToJson(req.detector)),
      ("manifests", JObj(ManifestsObject(req.manifests))),
      ("scanned", JStr(req.scanned))];
    RequestKeysDistinct(fs[0].1, fs[1].1, fs[2].1, fs[3].1, fs[4].1, fs[5].1, fs[6].1);
    DisplayFacts(fs);
    JObj(fs)
  }
}
