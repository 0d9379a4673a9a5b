/** The single-node emitter: a request to the cog pipeline, kept as data, the
    exactly-one-file check made on its answer, and the assembly of file paths. */
module Emitter {
  import opened Results
  import opened Strings
  import opened CuePaths
  import opened Naming

  newtype byte = x: int | 0 <= x < 256
  type Bytes = seq<byte>

  /** The schema transformations the generator asks cog to apply. */
  datatype Transformation = PrefixObjectsNames(prefix: string) | AppendCommentToObjects(comment: string)

  /** How cog names the types it finds: its own default, or the `nameFunc` closure built
      from the path of the node being generated and a naming cap. */
  datatype NameRule = DefaultNames | TrimmedNames(nodePath: seq<Selector>, maxNamingDepth: int)

  datatype GoConfig = GoConfig(anyAsInterface: bool, allowMarshalEmptyDisjunctions: bool)

  /** One run of the cog pipeline: `CUEValue(packageName, schema, ForceEnvelope(envelope)[, NameFunc])`,
      then the schema transformations in order, then `Golang(golang)`. */
  datatype CogRequest = CogRequest(
    packageName: string,
    schema: Node,
    envelope: string,
    naming: NameRule,
    transformations: seq<Transformation>,
    golang: GoConfig)

  /** The cog backend: the files it generates for a request, or its error. */
  type Backend = CogRequest -> Result<seq<Bytes>, Error>

  /** A generated file and the jenny it came from. */
  datatype File = File(data: Bytes, relativePath: string, from: string)

  const JennyName: string := "GoTypes"
  const OpenAPIGenComment: string := "+k8s:openapi-gen=true"

  /** The name cog gives a type found at `definitionPath`. */
  function NameOf(rule: NameRule, definitionPath: seq<Selector>): (name: Option<string>)
    ensures name.None? <==> rule.DefaultNames?
    ensures name.Some? && name.value != [] ==> name.value[0] !in Markers && name.value[|name.value| - 1] !in Markers
  {
    match rule
    case DefaultNames => None
    case TrimmedNames(nodePath, maxNamingDepth) => Some(ResolvedName(definitionPath, nodePath, maxNamingDepth))
  }

  /** The OpenAPI comment transformation, present only when asked for. */
  function KubernetesComments(add: bool): (ts: seq<Transformation>)
    ensures AppendCommentToObjects(OpenAPIGenComment) in ts <==> add
    ensures forall t :: t in ts ==> t == AppendCommentToObjects(OpenAPIGenComment)
    ensures |ts| <= 1
  {
    if add then [AppendCommentToObjects(OpenAPIGenComment)] else []
  }

  /** `Run` the pipeline and insist on exactly one file: a backend error passes through
      unchanged, any other number of files is an error that carries the count. */
  function RunSingle(backend: Backend, req: CogRequest): (r: Result<Bytes, Error>)
    ensures r.Success? <==> backend(req).Success? && |backend(req).value| == 1
    ensures r.Success? ==> r.value == backend(req).value[0]
    ensures backend(req).Failure? ==> r == Failure(backend(req).error)
    ensures backend(req).Success? && |backend(req).value| != 1 ==> r == Failure(UnexpectedFileCount(|backend(req).value|))
  {
    match backend(req)
    case Failure(e) => Failure(e)
    case Success(files) =>
      if |files| != 1 then Failure(UnexpectedFileCount(|files|)) else Success(files[0])
  }

  /** CUEGoConfig. */
  datatype CueGoConfig = CueGoConfig(
    packageName: string,
    name: string,
    addKubernetesOpenAPIGenComment: bool,
    anyAsInterface: bool,
    allowMarshalEmptyDisjunctions: bool,
    namePrefix: string)

  /** The pipeline GoTypesFromCUE builds for a node: enveloped under `cfg.name`, named by
      the closure over the node's path, with every object name prefixed, and the
      OpenAPI comment added last when asked for. */
  function CueRequest(v: Node, cfg: CueGoConfig, maxNamingDepth: int): (req: CogRequest)
    ensures req.schema == v && req.packageName == cfg.packageName && req.envelope == cfg.name
    ensures req.naming == TrimmedNames(v.path, maxNamingDepth)
    ensures |req.transformations| >= 1 && req.transformations[0] == PrefixObjectsNames(cfg.namePrefix)
    ensures AppendCommentToObjects(OpenAPIGenComment) in req.transformations <==> cfg.addKubernetesOpenAPIGenComment
    ensures |req.transformations| <= 2
    ensures forall t :: t in req.transformations[1..] ==> t == AppendCommentToObjects(OpenAPIGenComment)
    ensures req.golang == GoConfig(cfg.anyAsInterface, cfg.allowMarshalEmptyDisjunctions)
  {
    CogRequest(
      cfg.packageName, v, cfg.name, TrimmedNames(v.path, maxNamingDepth),
      [PrefixObjectsNames(cfg.namePrefix)] + KubernetesComments(cfg.addKubernetesOpenAPIGenComment),
      GoConfig(cfg.anyAsInterface, cfg.allowMarshalEmptyDisjunctions))
  }

  /** GoTypesFromCUE: the bytes of the one file cog generates for the node's request;
      a backend error passes through, and any other number of files is a count error. */
  function GoTypesFromCUE(backend: Backend, v: Node, cfg: CueGoConfig, maxNamingDepth: int): (r: Result<Bytes, Error>)
    ensures var out := backend(CueRequest(v, cfg, maxNamingDepth));
      && (r.Success? <==> out.Success? && |out.value| == 1)
      && (r.Success? ==> r.value == out.value[0])
      && (out.Failure? ==> r == Failure(out.error))
      && (out.Success? && |out.value| != 1 ==> r == Failure(UnexpectedFileCount(|out.value|)))
  {
    RunSingle(backend, CueRequest(v, cfg, maxNamingDepth))
  }

  /** path.Join of a prefix and a file name, for a clean prefix without a trailing `/`
      and a clean file name. */
  function JoinPath(prefix: string, file: string): (r: string)
    ensures prefix == "" ==> r == file
    ensures prefix != "" ==> r == prefix + "/" + file
  {
    if prefix == "" then file else prefix + "/" + file
  }

  /** The file of a whole-kind run: `<pathPrefix>/<lower machineName>_gen.go`. */
  function WholeKindFilePath(pathPrefix: string, machineName: string): (r: string)
    ensures var file := ToLower(machineName) + "_gen.go";
      |r| >= |file| && r[|r| - |file|..] == file
    ensures pathPrefix != "" ==> |r| > |pathPrefix| && r[..|pathPrefix| + 1] == pathPrefix + "/"
    ensures |r| == |ToLower(machineName) + "_gen.go"| + (if pathPrefix == "" then 0 else |pathPrefix| + 1)
  {
    JoinPath(pathPrefix, ToLower(machineName) + "_gen.go")
  }

  /** The file of a node at depth: `<pathPrefix>/<lower machineName>_<fields joined by _>_gen.go`. */
  function FieldFilePath(pathPrefix: string, machineName: string, fieldName: seq<string>): (r: string)
    ensures var file := ToLower(machineName) + "_" + Join(fieldName, "_") + "_gen.go";
      |r| >= |file| && r[|r| - |file|..] == file
    ensures pathPrefix != "" ==> |r| > |pathPrefix| && r[..|pathPrefix| + 1] == pathPrefix + "/"
    ensures |r| == |ToLower(machineName) + "_" + Join(fieldName, "_") + "_gen.go"| + (if pathPrefix == "" then 0 else |pathPrefix| + 1)
  {
    JoinPath(pathPrefix, ToLower(machineName) + "_" + Join(fieldName, "_") + "_gen.go")
  }
}
