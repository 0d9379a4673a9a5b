/** The inputs of a generation run: a kind with its versions, and the jenny's settings. */
module Kinds {
  import opened Results
  import opened CuePaths

  /** The documented bound on Depth. It is declared but not enforced: nothing in the jenny
      checks Depth against it. */
  const GoTypesMaxDepth: int := 5

  /** One version of a kind: its identifier, its schema root and its Go codegen settings. */
  datatype KindVersion = KindVersion(
    version: string,
    schema: Node,
    goEnabled: bool,
    allowMarshalEmptyDisjunctions: bool)

  /** A kind: its name, its machine name, the identifier of its current version and its versions in order. */
  datatype Kind = Kind(name: string, machineName: string, current: string, versions: seq<KindVersion>)

  /** The settings of the GoTypes jenny. */
  datatype Config = Config(
    generateOnlyCurrent: bool,
    depth: int,
    namingDepth: int,
    addKubernetesCodegen: bool,
    groupByKind: bool,
    anyAsInterface: bool)

  /** kind.Version(id): the first version with that identifier, if any. */
  function FindVersion(versions: seq<KindVersion>, id: string): (r: Option<KindVersion>)
    ensures r.Some? ==> r.value in versions && r.value.version == id
    ensures r.None? <==> forall i :: 0 <= i < |versions| ==> versions[i].version != id
  {
    if versions == [] then None
    else if versions[0].version == id then Some(versions[0])
    else FindVersion(versions[1..], id)
  }
}
