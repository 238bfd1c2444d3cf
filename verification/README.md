# Cargo lockfile to dependency-submission manifest

A Dafny model of the core of a small tool. The tool reads a Cargo/Bazel lockfile and
turns its `[[package]]` records into a dependency-submission snapshot: one manifest whose
`resolved` map lists every package by its package URL (`pkg:cargo/{name}@{version}`) together
with the package URLs of its direct dependencies.

The model covers:

- `parse_manifest` from the parsed document on, in three passes:
  - collecting every dependency reference into a key set;
  - filing each record in an identity table under its bare name or under `"name version"`. A
    three-way priority rule picks the key, and an assertion rejects a key that is already
    taken;
  - resolving each record's references through that table into package URLs.
- The `to_json` serialisers of the five `GHSub*` records.

Modules:

- `Results`: `Option`, `Result` and the three failure kinds.
  - A missing `package` array is `MissingPackageTable`.
  - A failed assertion in the table build is `AmbiguousIdentity`.
  - A `KeyError` on lookup is `UnresolvedDependency`.
- `Packages`: the package record, its two candidate keys and its package URL.
- `Identity`: the key set and the identity table. The table is built by a fold that returns a
  `Result`.
- `Resolution`: dependency lookup and `ParseManifest`, plus three worked lockfiles.
- `Json`: JSON values. An object is its entry list in insertion order, as a Python dict keeps
  it, and `Put` is the assignment `d[k] = v`.
- `Payload`: the `GHSub*` records and their serialisers, plus a reader that recovers a
  manifest's dependency graph from its JSON. The reader is the partner of `ManifestToJson` in
  a round-trip lemma.

Two behaviours follow the code:

- Two manifests with the same name do not make the request fail. The later one overwrites the
  earlier one in `manifests`.
- A record's resolved dependency list is not deduplicated. It has one URL per reference, in
  reference order.

## Model

| member | source | states |
|---|---|---|
| Packages.DepsOf | main.py:80 | a record's references are its `dependencies` list when present and the empty list when the field is missing |
| Packages.CompositeKey | main.py:88 | the composite key is the name, one space and the version, in that order, and is never the bare name |
| Packages.CompositeKeyIdentifies | main.py:88 | for versions without a space, two records share a composite key exactly when they share name and version |
| Packages.Purl | main.py:102 | a package URL is `pkg:cargo/`, the name, `@` and the version, at those positions |
| Packages.PurlIdentifies | main.py:102 | for versions without an `@`, two records share a package URL exactly when they share name and version, so the URL identifies the record |
| Identity.DependencyKeys | main.py:78-80 | the key set holds exactly the strings that occur in some record's dependency list, a missing list counting as empty |
| Identity.KeyFor | main.py:85-96 | the key chosen for a record is always its bare name or its `"name version"` string |
| Identity.Insert | main.py:83-96 | filing a record fails exactly when the key the priority rule picks is already taken, whoever holds it, and the error names that key; on success the record is added under that key and every other entry is unchanged |
| Identity.BuildTable | main.py:81-96 | a successful build has exactly one key per record (no record overwrites another); every key is the bare name or `"name version"` of the record it maps to; any failure is an ambiguous identity |
| Identity.StoredRecordsListed | main.py:82-96 | every record a successful build stores comes from the package list |
| Identity.BuildSucceedsIff | main.py:82-96 | the build succeeds if and only if every record, when its turn comes, finds its chosen key free |
| Identity.PrefixTableGrows | main.py:82-96 | filing only adds entries: the table of every prefix of the list is contained in the final table |
| Identity.FiledUnderItsKey | main.py:83-96 | in a successful build, each record is stored under the key the rule picked for it when its turn came |
| Identity.BareReferenceFindsRecord | main.py:85-87 | a record whose bare name is referred to is what the table returns for that name |
| Identity.CompositeReferenceFindsRecord | main.py:88-90 | a record referred to as `"name version"` but never by its bare name is what the table returns for `"name version"` |
| Identity.SharedBareNameFails | main.py:85-87 | two records that share a bare name which some record refers to make the build fail |
| Identity.VersionedBuildSucceeds | main.py:82-96 | if no two records share `"name version"`, no name equals any `"name version"`, and every name carried by several records is referred to only as `"name version"`, the build succeeds |
| Identity.VersionedBuildSucceedsIff | main.py:82-96 | for a lockfile whose records have distinct `"name version"` strings, none equal to a name, the build succeeds if and only if no name carried by two records is referred to by its bare name |
| Identity.DisjointCandidatesSucceed | main.py:82-96 | if no two records share a candidate key, the build succeeds whatever the references |
| Resolution.ResolveDeps | main.py:103-107 | the lookup succeeds if and only if every reference is a table key; on success it gives one URL per reference, in order and with repeats, each the URL of the record stored under that reference; on failure it names the first missing reference |
| Resolution.ResolveAll | main.py:98-108 | resolution succeeds if and only if every reference of every record is a table key; on success it gives one entry per record, in source order, with the record's own package URL and the URLs of the referenced records; a failure is an unresolved dependency naming a reference of some record that is missing from the table |
| Resolution.ParseManifest | main.py:78-110 | a missing `package` array fails; a failed table build fails as an ambiguous identity; otherwise the result succeeds if and only if every reference is a table key, and fails only with an unresolved dependency naming a reference of some record that is missing from the table; on success the name and source location are the file name and the entries are as in `ResolveAll` |
| Resolution.ReferencesNameTheirTargets | main.py:104-107 | each dependency URL is the URL of a record of the lockfile whose bare name or `"name version"` is the reference it came from |
| Resolution.BareReferenceResolves | main.py:85-107 | a reference that is the bare name of a record resolves to that record's URL |
| Resolution.CompositeReferenceResolves | main.py:88-107 | a reference that is `"name version"` of a record whose bare name nobody refers to resolves to that record's URL |
| Resolution.SharedBareNameIsAmbiguous | main.py:78-87 | two records that share a name which some record refers to make `parse_manifest` fail with an ambiguous identity |
| Resolution.UniqueNamesResolve | main.py:78-107 | if no two records share a candidate key and every reference is some record's bare name, `parse_manifest` succeeds |
| Resolution.VersionedReferencesResolve | main.py:78-107 | a Cargo-shaped lockfile resolves when shared names are referred to only as `"name version"` and each reference is a record's bare name, or its `"name version"` when that bare name is referred to nowhere |
| Resolution.VersionedReferenceTarget | main.py:85-107 | in such a lockfile, each reference resolves to the URL of the record whose bare name or `"name version"` it is |
| Resolution.EmptyLockfile | main.py:98-110 | an empty package list gives a manifest with no entries |
| Resolution.ExampleSingleVersion | main.py:78-110 | `[a 1.0, b 1.0 -> "a"]`: `b` depends on `pkg:cargo/a@1.0` and `a` on nothing |
| Resolution.ExampleTwoVersions | main.py:78-110 | `[a 1.0, a 2.0, b 1.0 -> "a 1.0"]`: the first `a` is filed under `"a 1.0"` and the second under `"a"`, and `b` depends on `pkg:cargo/a@1.0` |
| Resolution.MixedReferenceFormsUnresolved | main.py:85-106 | a record referred to both as `"a"` and as `"a 1.0"` is filed under `"a"` only, so the `"a 1.0"` lookup fails |
| Json.Put | main.py:31 | the dict assignment `d[k] = v` binds `k` to `v`, leaves every other key's value alone, adds `k` to the keys, grows the dict only for a new key, and keeps keys distinct |
| Json.Assign | main.py:70-71 | a run of assignments into an empty dict binds exactly the assigned keys, and each key holds the value of its last assignment |
| Payload.DependencyToJson | main.py:15-19 | the object always has `package_url`; it has `dependencies`, as the list of URLs, if and only if the list is present and non-empty |
| Payload.DependencyRoundTrip | main.py:15-19 | reading an entry's JSON back gives its dependency URLs; an absent list and an empty list both read back as empty |
| Payload.ResolvedObject | main.py:29-31 | the `resolved` keys are exactly the entries' package URLs, and a URL carried by several entries holds the JSON of the last of them |
| Payload.ManifestToJson | main.py:28-32 | the manifest object has exactly `name`, `file` (holding `source_location`) and `resolved` |
| Payload.Graph | main.py:29-31 | the dependency graph of a list of entries has exactly their package URLs as keys, and the last entry for a URL decides its dependencies |
| Payload.ResolvedRoundTrip | main.py:29-31 | reading the `resolved` object back gives the dependency graph of the entries |
| Payload.ManifestRoundTrip | main.py:28-32 | reading a serialised manifest back gives the dependency graph of its entries |
| Payload.JobToJson | main.py:41-45 | the job object has `id` and `correlator`, and it has `html_url` if and only if one was supplied |
| Payload.DetectorToJson | main.py:54-55 | the detector object has exactly `name`, `version` and `url` |
| Payload.ManifestsObject | main.py:69-71 | the `manifests` keys are exactly the manifest names; a name shared by several manifests holds the JSON of the last of them, overwriting the earlier ones rather than failing |
| Payload.RequestToJson | main.py:68-72 | the request object has exactly the seven keys `version`, `job`, `sha`, `ref`, `detector`, `manifests` and `scanned`, each holding the serialised field |

## Left out

- Resolution.VersionedReferencesResolve: only the success direction is proved. The converse is not stated: that a Cargo-shaped lockfile which resolves uses only these reference forms.
- Opening the lockfile and parsing TOML (main.py:76-77): file I/O and a foreign parser. The input is the already-parsed `package` array, or `None` when the document has none.
- The clock read for `scanned` (main.py:66): it is a plain string field supplied by the caller.
- `submit` (main.py:113-122): an HTTP POST and a status check.
- `get_sha` and `main` (main.py:125-138): environment-variable reads and wiring.
- ci/src/dependencies/integration/github/github_api.py and ci/src/dependencies/job/bazel_rust_gh_submission_job.py: environment reads, HTTP calls and a parser that is not part of this model.
- Records without a `name` or `version` field (a `KeyError` at main.py:83-84): every modelled record has both fields.
- A `dependencies` field that is not a list of strings: the record type only admits such lists.
- Python run with `-O`, which skips `assert`: the model treats each assertion at main.py:86, 89 and 93 as a failure.
- JSON text encoding: the serialisers are modelled up to the JSON value, not the bytes `requests` sends.
- Idempotence and determinism of the serialisers: every member is a pure function, so both hold by construction.
