/** The GoTypes jenny: `generateFiles` for one version and `Generate` over a kind's versions. */
module Jenny {
  import opened Results
  import opened Strings
  import opened Labels
  import opened CuePaths
  import opened Kinds
  import opened Emitter
  import opened Walker

  /** The functions the jenny calls that this model does not define: the cog backend,
      ToPackageName and GetGeneratedPath. */
  datatype Collaborators = Collaborators(
    backend: Backend,
    toPackageName: string -> string,
    generatedPath: (bool, Kind, string) -> string)

  /** The request for a whole-kind run: the version's schema enveloped under the kind's
      name, cog's default naming, and only the optional OpenAPI comment. */
  function WholeKindRequest(cfg: Config, version: KindVersion, name: string, packageName: string): (req: CogRequest)
    ensures req.schema == version.schema && req.envelope == name && req.packageName == packageName
    ensures req.naming == DefaultNames
    ensures forall t :: t in req.transformations ==> t == AppendCommentToObjects(OpenAPIGenComment)
    ensures |req.transformations| <= 1
    ensures req.golang == GoConfig(cfg.anyAsInterface, version.allowMarshalEmptyDisjunctions)
    ensures AppendCommentToObjects(OpenAPIGenComment) in req.transformations <==> cfg.addKubernetesCodegen
  {
    CogRequest(
      packageName, version.schema, name, DefaultNames,
      KubernetesComments(cfg.addKubernetesCodegen),
      GoConfig(cfg.anyAsInterface, version.allowMarshalEmptyDisjunctions))
  }

  /** The context of a depth walk over one version; its name prefix is the exported
      kind name unless files are grouped by kind. */
  function DepthContext(cfg: Config, backend: Backend, version: KindVersion, name: string,
                        machineName: string, packageName: string, pathPrefix: string): (ctx: WalkContext)
    ensures ctx.cfg == cfg && ctx.backend == backend && ctx.version == version
    ensures ctx.machineName == machineName && ctx.packageName == packageName && ctx.pathPrefix == pathPrefix
    ensures ctx.namePrefix != "" <==> !cfg.groupByKind && name != ""
    ensures !cfg.groupByKind ==> ctx.namePrefix == ExportField(name)
  {
    var namePrefix := if !cfg.groupByKind then ExportField(name) else "";
    WalkContext(cfg, backend, version, machineName, packageName, pathPrefix, namePrefix)
  }

  /** generateFiles, as a function. With Depth at most 0 a version yields exactly one
      file, at `<pathPrefix>/<lower machineName>_gen.go`, holding the single file cog
      generated for the whole-kind request; it fails exactly when that run does not
      yield one file, with the backend's error or the count. */
  function FilesForVersion(cfg: Config, backend: Backend, version: KindVersion, name: string,
                           machineName: string, packageName: string, pathPrefix: string): (r: Result<seq<File>, Error>)
    ensures var out := backend(WholeKindRequest(cfg, version, name, packageName));
      cfg.depth <= 0 ==>
        && (r.Success? <==> out.Success? && |out.value| == 1)
        && (r.Success? ==> r.value == [File(out.value[0], WholeKindFilePath(pathPrefix, machineName), JennyName)])
        && (out.Failure? ==> r == Failure(out.error))
        && (out.Success? && |out.value| != 1 ==> r == Failure(UnexpectedFileCount(|out.value|)))
  {
    if cfg.depth > 0 then
      FilesAtDepth(DepthContext(cfg, backend, version, name, machineName, packageName, pathPrefix), version.schema, 0)
    else
      var data :- RunSingle(backend, WholeKindRequest(cfg, version, name, packageName));
      Success([File(data, WholeKindFilePath(pathPrefix, machineName), JennyName)])
  }

  /** With Depth above 0, the files of a version are those of the nodes Depth levels
      below its schema root, in order; every request sent to cog prefixes object names,
      and the prefix is non-empty exactly when files are not grouped by kind and the
      kind has a name. */
  lemma DepthMode(cfg: Config, backend: Backend, version: KindVersion, name: string,
                  machineName: string, packageName: string, pathPrefix: string)
    requires cfg.depth > 0
    ensures var ctx := DepthContext(cfg, backend, version, name, machineName, packageName, pathPrefix);
      var r := FilesForVersion(cfg, backend, version, name, machineName, packageName, pathPrefix);
      var leaves := Leaves(version.schema, cfg.depth);
      && (r.Success? ==>
            |r.value| == |leaves| && forall j :: 0 <= j < |leaves| ==> EmitLeaf(ctx, leaves[j]) == Success([r.value[j]]))
      && (forall leaf: Node :: LeafRequest(ctx, leaf).transformations[0] == PrefixObjectsNames(ctx.namePrefix))
      && (ctx.namePrefix != "" <==> !cfg.groupByKind && name != "")
      && (!cfg.groupByKind ==> ctx.namePrefix == ExportField(name))
  {
    var ctx := DepthContext(cfg, backend, version, name, machineName, packageName, pathPrefix);
    WalkEmitsLeaves(ctx, version.schema, 0);
    if !cfg.groupByKind && name != "" {
      assert |ctx.namePrefix| == |name|;
    }
  }

  /** The versions whose Go code generation is enabled, in order. */
  function Enabled(versions: seq<KindVersion>): (r: seq<KindVersion>)
    ensures forall v :: v in r <==> v in versions && v.goEnabled
    ensures |r| <= |versions|
  {
    if versions == [] then []
    else (if versions[0].goEnabled then [versions[0]] else []) + Enabled(versions[1..])
  }

  /** Filtering keeps the order: the enabled versions of `a + b` are those of `a`
      followed by those of `b`. */
  lemma {:induction false} EnabledConcat(a: seq<KindVersion>, b: seq<KindVersion>)
    ensures Enabled(a + b) == Enabled(a) + Enabled(b)
  {
    if a == [] {
      assert a + b == b;
    } else {
      assert (a + b)[0] == a[0] && (a + b)[1..] == a[1..] + b;
      EnabledConcat(a[1..], b);
    }
  }

  /** The files of one enabled version in the loop over all versions. */
  function VersionFiles(cfg: Config, co: Collaborators, kind: Kind, ver: KindVersion): (r: Result<seq<File>, Error>)
    ensures var out := co.backend(WholeKindRequest(cfg, ver, kind.name, co.toPackageName(ver.version)));
      cfg.depth <= 0 ==>
        && (r.Success? <==> out.Success? && |out.value| == 1)
        && (r.Success? ==> r.value == [File(out.value[0],
              WholeKindFilePath(co.generatedPath(cfg.groupByKind, kind, ver.version), kind.machineName), JennyName)])
    ensures cfg.depth > 0 ==> r == FilesAtDepth(
      DepthContext(cfg, co.backend, ver, kind.name, kind.machineName, co.toPackageName(ver.version),
                   co.generatedPath(cfg.groupByKind, kind, ver.version)), ver.schema, 0)
  {
    FilesForVersion(cfg, co.backend, ver, kind.name, kind.machineName,
                    co.toPackageName(ver.version), co.generatedPath(cfg.groupByKind, kind, ver.version))
  }

  /** The loop of Generate over `versions`: disabled versions skipped, the others'
      files appended in order, the first error returned. */
  function AllVersionsFiles(cfg: Config, co: Collaborators, kind: Kind, versions: seq<KindVersion>): (r: Result<seq<File>, Error>)
    ensures Enabled(versions) == [] ==> r == Success([])
    ensures r.Failure? ==> exists v :: v in versions && v.goEnabled && VersionFiles(cfg, co, kind, v) == Failure(r.error)
    ensures (forall v :: v in versions && v.goEnabled ==> VersionFiles(cfg, co, kind, v).Success?) ==> r.Success?
  {
    if versions == [] then Success([])
    else if !versions[0].goEnabled then AllVersionsFiles(cfg, co, kind, versions[1..])
    else match VersionFiles(cfg, co, kind, versions[0])
      case Failure(e) => Failure(e)
      case Success(f) => Prepend(f, AllVersionsFiles(cfg, co, kind, versions[1..]))
  }

  /** Generate, as a function. */
  function GenerateSpec(cfg: Config, co: Collaborators, kind: Kind): (r: Result<seq<File>, Error>)
    ensures cfg.generateOnlyCurrent && (forall v :: v in kind.versions ==> v.version != kind.current)
        ==> r == Failure(VersionNotFound(kind.current, kind.name))
    ensures cfg.generateOnlyCurrent && r.Success? ==> exists v :: v in kind.versions && v.version == kind.current
    ensures !cfg.generateOnlyCurrent && Enabled(kind.versions) == [] ==> r == Success([])
    ensures !cfg.generateOnlyCurrent && r.Failure?
        ==> exists v :: v in kind.versions && v.goEnabled && VersionFiles(cfg, co, kind, v) == Failure(r.error)
  {
    if cfg.generateOnlyCurrent then
      match FindVersion(kind.versions, kind.current)
      case None => Failure(VersionNotFound(kind.current, kind.name))
      case Some(ver) => FilesForVersion(cfg, co.backend, ver, kind.name, kind.machineName, kind.machineName, kind.machineName)
    else AllVersionsFiles(cfg, co, kind, kind.versions)
  }

  /** Only the current version: an error naming the version and the kind when it is
      missing, otherwise the files of the first version with that identifier, with the
      machine name as package name and path prefix (its Go flag is not consulted). */
  lemma OnlyCurrent(cfg: Config, co: Collaborators, kind: Kind)
    requires cfg.generateOnlyCurrent
    ensures (forall i :: 0 <= i < |kind.versions| ==> kind.versions[i].version != kind.current)
        ==> GenerateSpec(cfg, co, kind) == Failure(VersionNotFound(kind.current, kind.name))
    ensures forall i ::
      (0 <= i < |kind.versions| && kind.versions[i].version == kind.current
       && (forall j :: 0 <= j < i ==> kind.versions[j].version != kind.current))
      ==> GenerateSpec(cfg, co, kind)
          == FilesForVersion(cfg, co.backend, kind.versions[i], kind.name, kind.machineName, kind.machineName, kind.machineName)
  {
    forall i | 0 <= i < |kind.versions| && kind.versions[i].version == kind.current
        && (forall j :: 0 <= j < i ==> kind.versions[j].version != kind.current)
      ensures FindVersion(kind.versions, kind.current) == Some(kind.versions[i])
    {
      FindFirst(kind.versions, kind.current, i);
    }
  }

  lemma {:induction false} FindFirst(versions: seq<KindVersion>, id: string, i: nat)
    requires i < |versions| && versions[i].version == id
    requires forall j :: 0 <= j < i ==> versions[j].version != id
    ensures FindVersion(versions, id) == Some(versions[i])
  {
    if i > 0 {
      FindFirst(versions[1..], id, i - 1);
    }
  }

  /** Disabled versions contribute nothing: the loop gives what it gives over the enabled ones alone. */
  lemma {:induction false} DisabledVersionsSkipped(cfg: Config, co: Collaborators, kind: Kind, versions: seq<KindVersion>)
    ensures AllVersionsFiles(cfg, co, kind, versions) == AllVersionsFiles(cfg, co, kind, Enabled(versions))
  {
    if versions != [] {
      DisabledVersionsSkipped(cfg, co, kind, versions[1..]);
      if versions[0].goEnabled {
        var e := Enabled(versions);
        assert e == [versions[0]] + Enabled(versions[1..]);
        assert e[0] == versions[0] && e[1..] == Enabled(versions[1..]);
      } else {
        assert Enabled(versions) == Enabled(versions[1..]);
      }
    }
  }

  /** Running the loop over `a + b` gives `a`'s files followed by `b`'s; an error in `a` wins. */
  lemma {:induction false} VersionsConcatenate(cfg: Config, co: Collaborators, kind: Kind, a: seq<KindVersion>, b: seq<KindVersion>)
    ensures var ra := AllVersionsFiles(cfg, co, kind, a);
      AllVersionsFiles(cfg, co, kind, a + b)
        == if ra.Failure? then ra else Prepend(ra.value, AllVersionsFiles(cfg, co, kind, b))
  {
    if a == [] {
      assert a + b == b;
      PrependNothing(AllVersionsFiles(cfg, co, kind, b));
    } else {
      assert (a + b)[0] == a[0] && (a + b)[1..] == a[1..] + b;
      VersionsConcatenate(cfg, co, kind, a[1..], b);
      var head := VersionFiles(cfg, co, kind, a[0]);
      if a[0].goEnabled && head.Success? {
        var rest := AllVersionsFiles(cfg, co, kind, a[1..]);
        if rest.Success? {
          PrependPrepend(head.value, rest.value, AllVersionsFiles(cfg, co, kind, b));
        }
      }
    }
  }

  /** The relative paths of `files`, in order. */
  function RelativePaths(files: seq<File>): (paths: seq<string>)
    ensures |paths| == |files|
  {
    if files == [] then [] else [files[0].relativePath] + RelativePaths(files[1..])
  }

  /** The whole-kind file path of each of `versions`, in order. */
  function WholeKindPaths(cfg: Config, co: Collaborators, kind: Kind, versions: seq<KindVersion>): (paths: seq<string>)
    ensures |paths| == |versions|
  {
    if versions == [] then []
    else [WholeKindFilePath(co.generatedPath(cfg.groupByKind, kind, versions[0].version), kind.machineName)]
         + WholeKindPaths(cfg, co, kind, versions[1..])
  }

  /** With Depth at most 0 and a backend that always generates one file, the loop yields
      exactly one file per enabled version, in order, at
      `<GetGeneratedPath(...)>/<lower machineName>_gen.go`. */
  lemma {:induction false} WholeKindOnePerVersion(cfg: Config, co: Collaborators, kind: Kind, versions: seq<KindVersion>)
    requires cfg.depth <= 0
    requires SingleFileBackend(co.backend)
    ensures var r := AllVersionsFiles(cfg, co, kind, versions);
      r.Success? && RelativePaths(r.value) == WholeKindPaths(cfg, co, kind, Enabled(versions))
  {
    if versions != [] {
      var rest := versions[1..];
      WholeKindOnePerVersion(cfg, co, kind, rest);
      var tail := AllVersionsFiles(cfg, co, kind, rest);
      if versions[0].goEnabled {
        var v := versions[0];
        WholeKindVersionFile(cfg, co, kind, v);
        var head := VersionFiles(cfg, co, kind, v);
        var files := head.value + tail.value;
        assert AllVersionsFiles(cfg, co, kind, versions) == Success(files);
        var en := Enabled(versions);
        assert en == [v] + Enabled(rest);
        assert en[0] == v && en[1..] == Enabled(rest);
        assert files[0] == head.value[0] && files[1..] == tail.value;
      } else {
        assert Enabled(versions) == Enabled(rest);
        assert AllVersionsFiles(cfg, co, kind, versions) == tail;
      }
    }
  }

  lemma WholeKindVersionFile(cfg: Config, co: Collaborators, kind: Kind, v: KindVersion)
    requires cfg.depth <= 0
    requires SingleFileBackend(co.backend)
    ensures var r := VersionFiles(cfg, co, kind, v);
      && r.Success? && |r.value| == 1
      && r.value[0].relativePath == WholeKindFilePath(co.generatedPath(cfg.groupByKind, kind, v.version), kind.machineName)
  {
    var req := WholeKindRequest(cfg, v, kind.name, co.toPackageName(v.version));
    assert co.backend(req).Success? && |co.backend(req).value| == 1;
  }

  /** generateFiles: one version's files, at depth or for the whole kind. */
  method GenerateFiles(cfg: Config, backend: Backend, version: KindVersion, name: string,
                       machineName: string, packageName: string, pathPrefix: string) returns (r: Result<seq<File>, Error>)
    ensures r == FilesForVersion(cfg, backend, version, name, machineName, packageName, pathPrefix)
  {
    if cfg.depth > 0 {
      var namePrefix := "";
      if !cfg.groupByKind {
        namePrefix := ExportField(name);
      }
      r := GenerateFilesAtDepth(WalkContext(cfg, backend, version, machineName, packageName, pathPrefix, namePrefix), version.schema, 0);
      return;
    }
    var files := RunSingle(backend, WholeKindRequest(cfg, version, name, packageName));
    if files.Failure? {
      return Failure(files.error);
    }
    return Success([File(files.value, WholeKindFilePath(pathPrefix, machineName), JennyName)]);
  }

  /** Generate: the current version only, or every enabled version in order. */
  method Generate(cfg: Config, co: Collaborators, kind: Kind) returns (r: Result<seq<File>, Error>)
    ensures r == GenerateSpec(cfg, co, kind)
  {
    if cfg.generateOnlyCurrent {
      var ver := FindVersion(kind.versions, kind.current);
      if ver.None? {
        return Failure(VersionNotFound(kind.current, kind.name));
      }
      r := GenerateFiles(cfg, co.backend, ver.value, kind.name, kind.machineName, kind.machineName, kind.machineName);
      return;
    }
    var files: seq<File> := [];
    var versions := kind.versions;
    assert versions[0..] == versions;
    PrependNothing(AllVersionsFiles(cfg, co, kind, versions));
    for i := 0 to |versions|
      invariant AllVersionsFiles(cfg, co, kind, versions) == Prepend(files, AllVersionsFiles(cfg, co, kind, versions[i..]))
    {
      var ver := versions[i];
      assert versions[i..][0] == ver && versions[i..][1..] == versions[i + 1..];
      if !ver.goEnabled {
        continue;
      }
      var generated := GenerateFiles(cfg, co.backend, ver, kind.name, kind.machineName,
                                     co.toPackageName(ver.version), co.generatedPath(cfg.groupByKind, kind, ver.version));
      if generated.Failure? {
        return Failure(generated.error);
      }
      PrependPrepend(files, generated.value, AllVersionsFiles(cfg, co, kind, versions[i + 1..]));
      files := files + generated.value;
    }
    assert versions[|versions|..] == [];
    assert files + [] == files;
    r := Success(files);
  }
}
