# GoTypes jenny — a Dafny model

This project models the Go types generator of grafana-app-sdk (the `GoTypes` jenny in
`codegen/jennies/gotypes.go`). For each version of a kind, the jenny asks the cog code
generator for Go types. It works either on the whole schema (Depth 0 or less) or on each
schema node exactly `Depth` fields below the schema root. It names the generated types
from their field paths, and it assembles the output file paths from the kind's machine
name and the field path.

The model follows the code:

- `Jenny.Generate` picks the current version or loops over all versions, and
  `Jenny.GenerateFiles` handles one version. Both are methods, each proved equal to a
  function (`GenerateSpec`, `FilesForVersion`).
- `Walker.GenerateFilesAtDepth` is the recursive depth walk with its loop over a node's
  fields. It is proved equal to `Walker.FilesAtDepth`, which works on the tree.
- `Naming.ResolveName` is the `nameFunc` closure with its counting loop. It is proved
  equal to `Naming.ResolvedName`.
- `Labels` holds `exportField` and `sanitizeLabelString`.

What the model takes as given:

- The cog backend is a function-typed parameter (`Emitter.Backend`). It receives a
  request kept as data: package, schema node, envelope name, naming rule, and the list of
  schema transformations. It returns a list of files or an error.
- `ToPackageName` and `GetGeneratedPath` are function fields of `Jenny.Collaborators`.
- A CUE value is a finite tree `CuePaths.Node`. Each node has a path of selectors. A node
  either lists its fields (`Struct`) or fails to (`Malformed`), which models `v.Fields()`
  returning an error.
- `TrimPathPrefix` drops the root path from the front when it is a prefix. `SelEq` is
  selector equality.
- `kind.Version(id)` returns the first version with that identifier.
- A path renders as its selectors joined by `.`. An optional selector renders as `name?`
  and a definition as `#name`.

Three behaviours of the code are easy to miss:

- At the target depth, the file-name suffix and the type-name seed are built from the raw
  selector strings, `?` and `#` included. Only the names that `nameFunc` produces are
  trimmed.
- The kind-name prefix is computed only when Depth > 0. A whole-kind run (Depth <= 0)
  sends no `PrefixObjectsNames` transformation at all (`Jenny.WholeKindRequest`).
- With `GenerateOnlyCurrent`, the version's Go-enabled flag is not consulted. The
  machine name is used as both the package name and the path prefix.

## Model

| member | source | states |
|---|---|---|
| `Labels.ExportField` | codegen/jennies/gotypes.go:235-240 | The result has the input's length. When the input is non-empty, its first byte is the ASCII upper-case of the input's first byte and is never a lower-case letter, and the rest is unchanged. |
| `Labels.ExportFieldIdempotent` | codegen/jennies/gotypes.go:235-240 | Exporting an exported name changes nothing. |
| `Labels.ExportFieldFixpoint` | codegen/jennies/gotypes.go:235-240 | A name is left unchanged exactly when it is empty or does not start with a lower-case ASCII letter. |
| `Labels.SanitizeLabelString` | codegen/jennies/gotypes.go:217-232 | The output is no longer than the input and holds only `[a-zA-Z0-9_]`. |
| `Labels.SanitizeConcat` | codegen/jennies/gotypes.go:217-232 | Sanitizing distributes over concatenation, so the kept characters stay in input order. |
| `Labels.SanitizeCounts` | codegen/jennies/gotypes.go:217-232 | Each label character occurs in the output exactly as often as in the input. Every other character occurs zero times. |
| `Labels.SanitizeFixpoint` | codegen/jennies/gotypes.go:217-232 | A string is unchanged by sanitizing if and only if all its characters are label characters. |
| `Labels.SanitizeIdempotent` | codegen/jennies/gotypes.go:217-232 | Sanitizing twice equals sanitizing once. |
| `Strings.ToUpper` | codegen/jennies/gotypes.go:237 | `strings.ToUpper` keeps the length and maps each character to its ASCII upper case; no character of the result is a lower-case letter. |
| `Strings.ToLower` | codegen/jennies/gotypes.go:114 | `strings.ToLower` of the machine name keeps the length and maps each character to its ASCII lower case; no character of the result is an upper-case letter. |
| `Strings.Join` | codegen/jennies/gotypes.go:129 | `strings.Join` of no parts is empty. Otherwise its length is the parts' total length plus one separator between each pair of neighbours. |
| `Strings.JoinEnds` | codegen/jennies/gotypes.go:141 | A join of at least one part starts with the first part and ends with the last. |
| `Strings.Trim` | codegen/jennies/gotypes.go:188 | `strings.Trim` returns the infix left after dropping cut-set characters from both ends. The result neither starts nor ends with a cut-set character, and everything removed was a cut-set character. |
| `CuePaths.SelectorString` | codegen/jennies/gotypes.go:124 | A field selector renders as its name, an optional one as the name followed by `?`, and a definition as `#` followed by the name. |
| `CuePaths.PathString` | codegen/jennies/gotypes.go:188 | The empty path renders as the empty string. Otherwise the rendering holds each selector's string plus one `.` between neighbours, and it starts with the first selector's string. |
| `CuePaths.TrimPathPrefix` | codegen/jennies/gotypes.go:123 | When the root path is a prefix, the node path is that prefix followed by the result. Otherwise the node path is returned unchanged. |
| `Naming.MatchedCountCharacterized` | codegen/jennies/gotypes.go:176-184 | The count `i` is at most both path lengths, and at most `maxNamingDepth` when that is positive. All selectors below `i` are equal. The loop stops only at a path's end, at the cap, or at the first differing selector. |
| `Naming.MatchedCount` | codegen/jennies/gotypes.go:176-184 | The number of matched leading selectors is at most both path lengths, and at most the cap when the cap is positive. |
| `Naming.ResolvedName` | codegen/jennies/gotypes.go:185-188 | The name neither starts nor ends with `?` or `#`. It is no longer than the rendering of the unmatched rest of the definition path, and it is non-empty whenever that rendering holds a character other than `?` and `#`. |
| `Naming.ResolvedNameShape` | codegen/jennies/gotypes.go:185-188 | The resolved name never starts or ends with `?` or `#`. When nothing matched, it is the trimmed rendering of the whole definition path. |
| `Naming.MatchedAlongPrefix` | codegen/jennies/gotypes.go:176-184 | When the node path is a prefix of the definition path, the loop matches the whole node path, or exactly the cap when the cap is positive and shorter. |
| `Naming.ResolvedAlongPrefix` | codegen/jennies/gotypes.go:176-188 | When the node path is a prefix of the definition path, the name is the trimmed rendering of the definition path after the whole node path, or after the first `maxNamingDepth` selectors when that cap is positive and shorter. |
| `Naming.ZeroCapExample` | codegen/jennies/gotypes.go:178 | As written, a cap of 0 means no cap: node `spec`, definition `spec.Foo` and cap 0 give `Foo`. Taken literally, the cap would keep `spec.Foo`. |
| `Naming.IntendedResolvedName` | codegen/jennies/gotypes.go:175-188 | The corrected closure, in which a cap of 0 or less matches nothing. Its name never starts or ends with `?` or `#`, and with such a cap it is the trimmed rendering of the whole definition path. |
| `Naming.IntendedAgreesWhenCapped` | codegen/jennies/gotypes.go:175-188 | For a positive cap, the corrected closure gives the same name as the code's. |
| `Naming.IntendedAlongPrefix` | codegen/jennies/gotypes.go:176-188 | When the node path is a prefix of the definition path, the corrected name drops nothing for a cap of 0 or less. Otherwise it drops the cap or the whole node path, whichever is shorter. |
| `Naming.ResolveName` | codegen/jennies/gotypes.go:175-189 | The closure's loop with its two early `break`s returns exactly `ResolvedName`: the rendering of the definition path without its matched prefix, trimmed of `?` and `#`. |
| `Naming.TruncationExample` | codegen/jennies/gotypes.go:175-189 | Node path `a.b`, definition path `a.b.c.d` and cap 2 resolve to `c.d`. |
| `Kinds.FindVersion` | codegen/jennies/gotypes.go:58-59 | A version is found only if it is in the list and carries the identifier. None is found exactly when no version has that identifier. |
| `Emitter.NameOf` | codegen/jennies/gotypes.go:175-192 | cog's default naming gives no name. The `nameFunc` closure gives a name that neither starts nor ends with `?` or `#`. |
| `Emitter.KubernetesComments` | codegen/jennies/gotypes.go:199-201 | The `+k8s:openapi-gen=true` comment transformation is present exactly when it is asked for, and nothing else is added. |
| `Emitter.RunSingle` | codegen/jennies/gotypes.go:203-212 | The run succeeds exactly when the backend returns one file, and then it yields that file's bytes. A backend error passes through unchanged. Any other number of files gives an error carrying the count. |
| `Emitter.GoTypesFromCUE` | codegen/jennies/gotypes.go:174-213 | Running the CUE request built from the node, the settings and the cap succeeds exactly when the backend returns one file, and then it yields that file's bytes. A backend error passes through. Any other number of files gives a count error. |
| `Emitter.CueRequest` | codegen/jennies/gotypes.go:191-201 | The request envelopes the node under the configured name. Its naming closure is built over the node's path and the cap. Its first transformation prefixes object names, and the only other one allowed is the OpenAPI comment, present exactly when configured. The Go options are the configured `anyAsInterface` and `allowMarshalEmptyDisjunctions`. |
| `Emitter.JoinPath` | codegen/jennies/gotypes.go:114 | `path.Join` of a clean prefix and a clean file name gives the file alone when the prefix is empty, and otherwise the prefix, `/` and the file. |
| `Emitter.WholeKindFilePath` | codegen/jennies/gotypes.go:114 | The path ends in `<lower machineName>_gen.go`. It starts with `pathPrefix/` when the prefix is non-empty. |
| `Emitter.FieldFilePath` | codegen/jennies/gotypes.go:141 | The path ends in `<lower machineName>_<fields joined by _>_gen.go`. It starts with `pathPrefix/` when the prefix is non-empty. |
| `Walker.CollectFieldName` | codegen/jennies/gotypes.go:122-125 | The append loop produces the string of every selector of the node's path below the schema root, in order. |
| `Walker.LeafConfig` | codegen/jennies/gotypes.go:127-133 | The OpenAPI comment flag is true exactly when Kubernetes codegen is on and the field path is not exactly `["metadata"]`. The type name is the exported concatenation of the field path. `anyAsInterface` comes from the jenny's settings and `allowMarshalEmptyDisjunctions` from the version. |
| `Walker.MaxNamingDepth` | codegen/jennies/gotypes.go:134 | The cap `len(path) - (Depth - NamingDepth)` covers the node's whole path when Depth <= NamingDepth, and is shorter than the path when NamingDepth < Depth. |
| `Walker.LeafRequest` | codegen/jennies/gotypes.go:127-134 | For a node at the target depth, the request's first transformation prefixes names with the walk's prefix. The naming cap is `len(path) - (Depth - NamingDepth)`. The envelope is the exported joined field path. The OpenAPI comment is present exactly when enabled and the field path is not `metadata`, and no other transformation follows the prefix. The Go options are the jenny's `anyAsInterface` and the version's `allowMarshalEmptyDisjunctions`. |
| `Walker.LeafNaming` | codegen/jennies/gotypes.go:175-192 | A leaf request's naming gives every definition path the name resolved against the leaf's path under the leaf's cap. With NamingDepth equal to Depth, the cap is the leaf's whole path length. |
| `Walker.EmitLeaf` | codegen/jennies/gotypes.go:121-143 | At the target depth, the result is exactly one file, `pathPrefix/lower(machineName)_<fields joined by _>_gen.go`, holding the backend's single file. It succeeds exactly when the backend returns one file, and otherwise reports that error. |
| `Walker.FilesAtDepth` | codegen/jennies/gotypes.go:120-160 | At the target depth, a successful walk gives one file at the node's field path. Above it, a node that cannot list its fields gives that error, and a node with no fields gives no files and no error. |
| `Walker.ChildrenFiles` | codegen/jennies/gotypes.go:151-158 | No fields give no files. An error is the error of the first failing field, in field order: some field's walk returns it, and every earlier field's walk succeeds. So if every field's walk succeeds, the loop succeeds. |
| `Walker.ChildrenConcat` | codegen/jennies/gotypes.go:151-158 | Walking the fields `a + b` gives `a`'s files followed by `b`'s. If a field of `a` fails, the first such failure is the result and `b` is not consulted. |
| `Walker.ChildrenStep` | codegen/jennies/gotypes.go:151-158 | The loop over a non-empty field list succeeds exactly when the first field's walk and the loop over the rest both succeed. |
| `Walker.WalkEmitsLeaves` | codegen/jennies/gotypes.go:146-159 | A successful walk returns, in order, exactly the files emitted for the nodes `Depth - currDepth` levels down, one per node. |
| `Walker.WalkFieldsEmitLeaves` | codegen/jennies/gotypes.go:151-158 | The loop over fields concatenates the children's files in field order. |
| `Walker.WalkSucceeds` | codegen/jennies/gotypes.go:146-159 | The walk succeeds exactly when no node above the target level fails to list its fields and every node at the target level emits. Otherwise it aborts with no files. |
| `Walker.WalkFieldsSucceed` | codegen/jennies/gotypes.go:151-158 | The loop over fields succeeds exactly when every field's walk succeeds. |
| `Walker.WalkCountsLeaves` | codegen/jennies/gotypes.go:120-160 | If the backend always returns one file and no node above the target level is malformed, the walk succeeds. It then returns one file per node exactly `Depth - currDepth` levels down, each at the path built from that node's field path, so a childless node yields nothing. |
| `Walker.LeavesLieBelow` | codegen/jennies/gotypes.go:152-153 | In a well-formed tree, a node `k` levels below `n` has a path that extends `n`'s path by exactly `k` selectors. |
| `Walker.FieldLeavesLieBelow` | codegen/jennies/gotypes.go:152-153 | The same holds for the nodes below a list of fields of one parent. |
| `Walker.RootFieldNames` | codegen/jennies/gotypes.go:122-141 | Walking a well-formed schema from its root, every emitted node's field path has exactly `Depth` components: its selectors below the root. |
| `Walker.LeafLength` | codegen/jennies/gotypes.go:146-159 | A node the walk reaches at the target depth of a well-formed schema lies exactly Depth selectors below the root. |
| `Walker.LeafNamingCap` | codegen/jennies/gotypes.go:134 | In a well-formed schema, every node the walk reaches at the target depth gets the cap root length + NamingDepth. |
| `Walker.LeafNamesOwnField` | codegen/jennies/gotypes.go:31-34 | If Depth <= NamingDepth, a type defined below a leaf is named by its own field names: the name is the trimmed rendering of the definition path after the root and the leaf's Depth fields. The same holds when root length + NamingDepth is 0 or less. |
| `Walker.LeafNamesPrefixed` | codegen/jennies/gotypes.go:31-34 | If NamingDepth < Depth and the cap is positive, a type below a leaf is prefixed by the field names between NamingDepth and Depth. The name is the trimmed rendering of the definition path after the root and the first NamingDepth fields. |
| `Walker.IntendedLeafNames` | codegen/jennies/gotypes.go:31-34 | With the corrected closure, every 0 <= NamingDepth < Depth prefixes names with the field names between NamingDepth and Depth, whether or not the root path is empty. |
| `Walker.GenerateLeaf` | codegen/jennies/gotypes.go:121-143 | The target-depth branch, which collects the field path with its loop and runs the node's request, returns exactly `EmitLeaf`. |
| `Walker.GenerateFilesAtDepth` | codegen/jennies/gotypes.go:120-160 | The recursive method with its loop over the field iterator returns exactly `FilesAtDepth`. |
| `Jenny.WholeKindRequest` | codegen/jennies/gotypes.go:92-101 | A whole-kind request envelopes the version's schema under the kind's name and uses cog's default naming. Its only possible transformation is the OpenAPI comment, present exactly when Kubernetes codegen is on, so no name prefix is applied. The Go options are the jenny's `anyAsInterface` and the version's `allowMarshalEmptyDisjunctions`. |
| `Jenny.DepthContext` | codegen/jennies/gotypes.go:84-89 | A depth walk gets the jenny's settings, the backend, the version, machine name, package and path prefix. Its name prefix is `exportField(name)` when not grouping by kind, and it is non-empty exactly when not grouping by kind and the name is non-empty. |
| `Jenny.FilesForVersion` | codegen/jennies/gotypes.go:84-116 | With Depth <= 0, a version yields exactly one file at `pathPrefix/lower(machineName)_gen.go`, or it fails exactly when the backend does not return one file. The failure is the backend's own error or a count error. |
| `Jenny.DepthMode` | codegen/jennies/gotypes.go:84-90 | With Depth > 0, a version's files are those of the nodes `Depth` levels below its root. Every request prefixes names. The prefix is `exportField(name)` when not grouping by kind, and it is non-empty exactly when not grouping by kind and the name is non-empty. |
| `Jenny.Enabled` | codegen/jennies/gotypes.go:69-71 | A version is kept if and only if it is in the list and Go-enabled. The result is no longer than the list. |
| `Jenny.EnabledConcat` | codegen/jennies/gotypes.go:67-72 | The filter keeps order: the enabled versions of `a + b` are those of `a` followed by those of `b`. |
| `Jenny.VersionFiles` | codegen/jennies/gotypes.go:73 | For one version, with Depth <= 0, the result succeeds exactly when the whole-kind request yields one file. That file is placed at `GetGeneratedPath(...)/lower(machineName)_gen.go`, with package `ToPackageName(version)`. With Depth > 0, the result is the depth walk of the version's schema from level 0. |
| `Jenny.AllVersionsFiles` | codegen/jennies/gotypes.go:65-80 | With no enabled version, the loop gives no files and no error. Any error is the error of some enabled version's files, and if every enabled version succeeds, the loop succeeds. |
| `Jenny.GenerateSpec` | codegen/jennies/gotypes.go:56-81 | With `GenerateOnlyCurrent`, a missing current version gives an error naming the version and the kind, and success needs a version with the current identifier. Otherwise no enabled version gives no files, and any error is some enabled version's error. |
| `Jenny.OnlyCurrent` | codegen/jennies/gotypes.go:57-63 | With `GenerateOnlyCurrent`, a missing current version gives an error naming the version and the kind. Otherwise the result is the first matching version's files, with the machine name as package and prefix. |
| `Jenny.DisabledVersionsSkipped` | codegen/jennies/gotypes.go:67-72 | The version loop gives the same result over all versions as over the enabled ones alone. |
| `Jenny.VersionsConcatenate` | codegen/jennies/gotypes.go:65-80 | The loop over `a + b` gives `a`'s files followed by `b`'s, in version order. An error in `a` is returned first. |
| `Jenny.WholeKindOnePerVersion` | codegen/jennies/gotypes.go:65-116 | If Depth <= 0 and the backend always returns one file, the loop succeeds. The relative paths of its files are, in order and one for one, `GetGeneratedPath(...)/lower(machineName)_gen.go` for each enabled version. |
| `Jenny.WholeKindVersionFile` | codegen/jennies/gotypes.go:73-116 | If Depth <= 0 and the backend always returns one file, one enabled version yields one file at `GetGeneratedPath(...)/lower(machineName)_gen.go`. |
| `Jenny.GenerateFiles` | codegen/jennies/gotypes.go:83-117 | The method for one version returns exactly `FilesForVersion`. |
| `Jenny.Generate` | codegen/jennies/gotypes.go:56-81 | The method, with its loop over versions and its early error return, returns exactly `GenerateSpec`. |

## Left out

- cmd/grafana-app-sdk/project_local.go is not part of this model. It holds CLI flags, file reads, template execution, YAML/JSON handling and map iteration.
- The cog pipeline internals (`CUEValue`, `ForceEnvelope`, `PrefixObjectsNames`, `AppendCommentToObjects`, Go emission) are not modelled. The backend is an arbitrary function of the request, which is kept as data.
- CUE evaluation is not modelled. Index selectors and the bracket notation of `cue.Path.String` are not modelled: paths render as dot-joined field and definition selectors.
- `path.Join` cleaning is not modelled: the prefix is assumed clean and without a trailing `/`, and the file name clean (`path.Join("/", f)` gives `/f`, while the model would give `//f`). `fmt.Sprintf` verbs inside `pathPrefix` are not modelled.
- Unicode is not modelled. `exportField`, `strings.ToUpper` and `strings.ToLower` act on ASCII letters, one character per byte. `sanitizeLabelString` treats one character as one rune.
- `GoTypesMaxDepth` is declared but not enforced, as in the code.
- Walker.FilesAtDepth: requires `0 <= currDepth <= Depth`. Both of the code's callers meet this. The code with a larger `currDepth` would recurse until fields run out; that case is not modelled.
- Generated file contents, package names returned by `ToPackageName`, and paths returned by `GetGeneratedPath` are opaque.
- Type-name collisions across branches are not detected, as in the code. No property about them is stated.
- Round-tripping the generated Go back to a schema needs the backend and a Go parser, which are outside this model.

## Findings

| source | as written | input that shows it | evidently intended | confidence | as-written member | corrected member |
|---|---|---|---|---|---|---|
| codegen/jennies/gotypes.go:134, codegen/jennies/gotypes.go:178 | The cap `len(path) - (Depth - NamingDepth)` can come out at 0, and the closure then applies no cap at all, so it drops the whole leaf path. | Schema root with an empty path, Depth 1, NamingDepth 0. The leaf `spec` gets cap 0, and the definition `spec.Foo` is named `Foo`. | Names prefixed by the field names between NamingDepth and Depth (gotypes.go:31-34), here `spec.Foo`, as a non-empty root gives. | not executed; depends on whether a schema root can have an empty path | `Naming.ZeroCapExample` | `Naming.IntendedResolvedName`, with `Walker.IntendedLeafNames` |

The code's behaviour is kept everywhere else in the model (`Naming.ResolvedName`, `Emitter.CueRequest`, the walk). The correction sits beside it with its property proved, because which behaviour the generator shows depends on the root path that CUE gives the schema, and that is outside this model.
