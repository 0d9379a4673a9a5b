/** The depth dispatcher `generateFilesAtDepth`: it walks a version's schema field by
    field and emits one file for every node exactly `Depth` levels below the root. */
module Walker {
  import opened Results
  import opened Strings
  import opened Labels
  import opened CuePaths
  import opened Kinds
  import opened Naming
  import opened Emitter

  /** What stays fixed during one walk: the settings, the backend, the version whose
      schema is the root, and the names the caller chose. */
  datatype WalkContext = WalkContext(
    cfg: Config,
    backend: Backend,
    version: KindVersion,
    machineName: string,
    packageName: string,
    pathPrefix: string,
    namePrefix: string)

  /** The field path of a node: the strings of its selectors below the schema root. */
  function FieldName(path: seq<Selector>, root: seq<Selector>): seq<string> {
    SelectorStrings(TrimPathPrefix(path, root))
  }

  function LeafFieldName(ctx: WalkContext, n: Node): seq<string> {
    FieldName(n.path, ctx.version.schema.path)
  }

  /** The loop that builds `fieldName` one selector at a time. */
  method CollectFieldName(path: seq<Selector>, root: seq<Selector>) returns (fieldName: seq<string>)
    ensures fieldName == FieldName(path, root)
  {
    var sels := TrimPathPrefix(path, root);
    fieldName := [];
    for i := 0 to |sels|
      invariant fieldName == SelectorStrings(sels[..i])
    {
      assert sels[..i + 1] == sels[..i] + [sels[i]];
      fieldName := fieldName + [SelectorString(sels[i])];
    }
    assert sels[..|sels|] == sels;
  }

  /** The settings handed to GoTypesFromCUE for a node at the target depth. The
      Kubernetes OpenAPI comment is requested unless the field path is exactly `metadata`. */
  function LeafConfig(ctx: WalkContext, fieldName: seq<string>): (c: CueGoConfig)
    ensures c.addKubernetesOpenAPIGenComment <==> ctx.cfg.addKubernetesCodegen && fieldName != ["metadata"]
    ensures c.name == ExportField(Join(fieldName, "")) && c.namePrefix == ctx.namePrefix
    ensures c.packageName == ctx.packageName
    ensures c.anyAsInterface == ctx.cfg.anyAsInterface
    ensures c.allowMarshalEmptyDisjunctions == ctx.version.allowMarshalEmptyDisjunctions
  {
    CueGoConfig(
      ctx.packageName,
      ExportField(Join(fieldName, "")),
      ctx.cfg.addKubernetesCodegen && !(|fieldName| == 1 && fieldName[0] == "metadata"),
      ctx.cfg.anyAsInterface,
      ctx.version.allowMarshalEmptyDisjunctions,
      ctx.namePrefix)
  }

  /** The naming cap: the node's path length minus (Depth - NamingDepth). */
  function MaxNamingDepth(ctx: WalkContext, n: Node): (cap: int)
    ensures ctx.cfg.depth <= ctx.cfg.namingDepth ==> cap >= |n.path|
    ensures ctx.cfg.namingDepth < ctx.cfg.depth ==> cap < |n.path|
  {
    |n.path| - (ctx.cfg.depth - ctx.cfg.namingDepth)
  }

  /** The request sent to cog for a node at the target depth. */
  function LeafRequest(ctx: WalkContext, n: Node): (req: CogRequest)
    ensures AppendCommentToObjects(OpenAPIGenComment) in req.transformations
        <==> ctx.cfg.addKubernetesCodegen && LeafFieldName(ctx, n) != ["metadata"]
    ensures |req.transformations| >= 1 && req.transformations[0] == PrefixObjectsNames(ctx.namePrefix)
    ensures req.naming == TrimmedNames(n.path, |n.path| - (ctx.cfg.depth - ctx.cfg.namingDepth))
    ensures req.envelope == ExportField(Join(LeafFieldName(ctx, n), ""))
    ensures req.schema == n && req.packageName == ctx.packageName
    ensures |req.transformations| <= 2
    ensures forall t :: t in req.transformations[1..] ==> t == AppendCommentToObjects(OpenAPIGenComment)
    ensures req.golang == GoConfig(ctx.cfg.anyAsInterface, ctx.version.allowMarshalEmptyDisjunctions)
  {
    CueRequest(n, LeafConfig(ctx, LeafFieldName(ctx, n)), MaxNamingDepth(ctx, n))
  }

  function LeafPath(ctx: WalkContext, n: Node): string {
    FieldFilePath(ctx.pathPrefix, ctx.machineName, LeafFieldName(ctx, n))
  }

  /** The `currDepth == Depth` branch: exactly one file, named after the field path,
      or the error of the single-file run. */
  function EmitLeaf(ctx: WalkContext, n: Node): (r: Result<seq<File>, Error>)
    ensures var out := ctx.backend(LeafRequest(ctx, n));
      r.Success? <==> out.Success? && |out.value| == 1
    ensures r.Success? ==> r.value == [File(ctx.backend(LeafRequest(ctx, n)).value[0], LeafPath(ctx, n), JennyName)]
    ensures r.Failure? ==> r.error == RunSingle(ctx.backend, LeafRequest(ctx, n)).error
  {
    var fieldName := LeafFieldName(ctx, n);
    var data :- GoTypesFromCUE(ctx.backend, n, LeafConfig(ctx, fieldName), MaxNamingDepth(ctx, n));
    Success([File(data, FieldFilePath(ctx.pathPrefix, ctx.machineName, fieldName), JennyName)])
  }

  /** A leaf's request names every type cog finds by the truncated definition path,
      capped at the leaf's naming depth; with NamingDepth equal to Depth the cap is the
      leaf's whole path. */
  lemma LeafNaming(ctx: WalkContext, n: Node)
    ensures forall d :: NameOf(LeafRequest(ctx, n).naming, d) == Some(ResolvedName(d, n.path, MaxNamingDepth(ctx, n)))
    ensures ctx.cfg.namingDepth == ctx.cfg.depth ==> MaxNamingDepth(ctx, n) == |n.path|
  {
  }

  /** generateFilesAtDepth, as a function of the tree. */
  function FilesAtDepth(ctx: WalkContext, n: Node, currDepth: int): (r: Result<seq<File>, Error>)
    requires 0 <= currDepth <= ctx.cfg.depth
    ensures currDepth == ctx.cfg.depth && r.Success? ==> |r.value| == 1 && r.value[0].relativePath == LeafPath(ctx, n)
    ensures currDepth < ctx.cfg.depth && n.Malformed? ==> r == Failure(n.error)
    ensures currDepth < ctx.cfg.depth && n.Struct? && n.fields == [] ==> r == Success([])
    decreases ctx.cfg.depth - currDepth, 1, 0
  {
    if currDepth == ctx.cfg.depth then EmitLeaf(ctx, n)
    else match n
      case Malformed(_, e) => Failure(e)
      case Struct(_, fields) => ChildrenFiles(ctx, fields, currDepth)
  }

  /** The loop over a node's fields: each field walked one level deeper, the results
      appended in field order, the first error returned. */
  function ChildrenFiles(ctx: WalkContext, fields: seq<Node>, currDepth: int): (r: Result<seq<File>, Error>)
    requires 0 <= currDepth < ctx.cfg.depth
    ensures fields == [] ==> r == Success([])
    ensures r.Failure? ==>
      exists i :: (0 <= i < |fields| && FilesAtDepth(ctx, fields[i], currDepth + 1) == Failure(r.error)
                   && forall j :: 0 <= j < i ==> FilesAtDepth(ctx, fields[j], currDepth + 1).Success?)
    decreases ctx.cfg.depth - currDepth, 0, |fields|
  {
    if fields == [] then Success([])
    else
      match FilesAtDepth(ctx, fields[0], currDepth + 1)
      case Failure(e) => Failure(e)
      case Success(f) =>
        var rest := ChildrenFiles(ctx, fields[1..], currDepth);
        assert rest.Failure? ==> forall i :: 0 <= i < |fields| - 1 ==> fields[1..][i] == fields[i + 1];
        Prepend(f, rest)
  }

  /** Walking the fields `a + b` gives `a`'s files followed by `b`'s; the first failing
      field, in field order, decides the error. */
  lemma {:induction false} ChildrenConcat(ctx: WalkContext, a: seq<Node>, b: seq<Node>, currDepth: int)
    requires 0 <= currDepth < ctx.cfg.depth
    ensures var ra := ChildrenFiles(ctx, a, currDepth);
      ChildrenFiles(ctx, a + b, currDepth)
        == if ra.Failure? then ra else Prepend(ra.value, ChildrenFiles(ctx, b, currDepth))
  {
    if a == [] {
      assert a + b == b;
      PrependNothing(ChildrenFiles(ctx, b, currDepth));
    } else {
      assert (a + b)[0] == a[0] && (a + b)[1..] == a[1..] + b;
      ChildrenConcat(ctx, a[1..], b, currDepth);
      var head := FilesAtDepth(ctx, a[0], currDepth + 1);
      if head.Success? {
        var rest := ChildrenFiles(ctx, a[1..], currDepth);
        if rest.Success? {
          PrependPrepend(head.value, rest.value, ChildrenFiles(ctx, b, currDepth));
        }
      }
    }
  }

  /** The nodes exactly `k` levels below `n`, in field order. */
  function Leaves(n: Node, k: nat): seq<Node>
    decreases k, 1, 0
  {
    if k == 0 then [n]
    else match n
      case Malformed(_, _) => []
      case Struct(_, fields) => LeavesOfFields(fields, k - 1)
  }

  function LeavesOfFields(fields: seq<Node>, k: nat): seq<Node>
    decreases k, 2, |fields|
  {
    if fields == [] then [] else Leaves(fields[0], k) + LeavesOfFields(fields[1..], k)
  }

  /** No node less than `k` levels below `n` fails to list its fields. */
  predicate NoMalformedAbove(n: Node, k: nat)
    decreases k, 1, 0
  {
    k == 0 || (n.Struct? && NoMalformedInFields(n.fields, k - 1))
  }

  predicate NoMalformedInFields(fields: seq<Node>, k: nat)
    decreases k, 2, |fields|
  {
    fields == [] || (NoMalformedAbove(fields[0], k) && NoMalformedInFields(fields[1..], k))
  }

  /** `files` are, one for one and in order, the files emitted for `leaves`. */
  predicate Emits(ctx: WalkContext, leaves: seq<Node>, files: seq<File>) {
    |files| == |leaves| && forall j :: 0 <= j < |leaves| ==> EmitLeaf(ctx, leaves[j]) == Success([files[j]])
  }

  predicate LeavesEmit(ctx: WalkContext, leaves: seq<Node>) {
    forall j :: 0 <= j < |leaves| ==> EmitLeaf(ctx, leaves[j]).Success?
  }

  lemma EmitsConcat(ctx: WalkContext, a: seq<Node>, f: seq<File>, b: seq<Node>, g: seq<File>)
    requires Emits(ctx, a, f) && Emits(ctx, b, g)
    ensures Emits(ctx, a + b, f + g)
  {
    forall j | 0 <= j < |a + b|
      ensures EmitLeaf(ctx, (a + b)[j]) == Success([(f + g)[j]])
    {
      if j >= |a| {
        assert (a + b)[j] == b[j - |a|] && (f + g)[j] == g[j - |a|];
      }
    }
  }

  lemma LeavesEmitConcat(ctx: WalkContext, a: seq<Node>, b: seq<Node>)
    ensures LeavesEmit(ctx, a + b) <==> LeavesEmit(ctx, a) && LeavesEmit(ctx, b)
  {
    if LeavesEmit(ctx, a + b) {
      forall j | 0 <= j < |a| ensures EmitLeaf(ctx, a[j]).Success? {
        assert a[j] == (a + b)[j];
      }
      forall j | 0 <= j < |b| ensures EmitLeaf(ctx, b[j]).Success? {
        assert b[j] == (a + b)[|a| + j];
      }
    }
    if LeavesEmit(ctx, a) && LeavesEmit(ctx, b) {
      forall j | 0 <= j < |a + b| ensures EmitLeaf(ctx, (a + b)[j]).Success? {
        if j < |a| {
          assert (a + b)[j] == a[j];
        } else {
          assert (a + b)[j] == b[j - |a|];
        }
      }
    }
  }

  /** The walk from `n` at `currDepth` returns, in order, exactly the files emitted for
      the nodes `Depth - currDepth` levels down. */
  lemma {:induction false} WalkEmitsLeaves(ctx: WalkContext, n: Node, currDepth: int)
    requires 0 <= currDepth <= ctx.cfg.depth
    ensures var r := FilesAtDepth(ctx, n, currDepth);
      r.Success? ==> Emits(ctx, Leaves(n, ctx.cfg.depth - currDepth), r.value)
    decreases ctx.cfg.depth - currDepth, 1, 0
  {
    if currDepth < ctx.cfg.depth && n.Struct? {
      assert Leaves(n, ctx.cfg.depth - currDepth) == LeavesOfFields(n.fields, ctx.cfg.depth - currDepth - 1);
      WalkFieldsEmitLeaves(ctx, n.fields, currDepth);
    }
  }

  lemma {:induction false} WalkFieldsEmitLeaves(ctx: WalkContext, fields: seq<Node>, currDepth: int)
    requires 0 <= currDepth < ctx.cfg.depth
    ensures var r := ChildrenFiles(ctx, fields, currDepth);
      r.Success? ==> Emits(ctx, LeavesOfFields(fields, ctx.cfg.depth - currDepth - 1), r.value)
    decreases ctx.cfg.depth - currDepth, 0, |fields|
  {
    if fields != [] {
      var k := ctx.cfg.depth - currDepth - 1;
      WalkEmitsLeaves(ctx, fields[0], currDepth + 1);
      WalkFieldsEmitLeaves(ctx, fields[1..], currDepth);
      var head := FilesAtDepth(ctx, fields[0], currDepth + 1);
      var tail := ChildrenFiles(ctx, fields[1..], currDepth);
      if head.Success? && tail.Success? {
        EmitsConcat(ctx, Leaves(fields[0], k), head.value, LeavesOfFields(fields[1..], k), tail.value);
      }
    }
  }

  /** The walk from `n` at `currDepth` succeeds exactly when no node above the target
      level fails to list its fields and every node at the target level emits its file. */
  lemma {:induction false} WalkSucceeds(ctx: WalkContext, n: Node, currDepth: int)
    requires 0 <= currDepth <= ctx.cfg.depth
    ensures FilesAtDepth(ctx, n, currDepth).Success?
        <==> NoMalformedAbove(n, ctx.cfg.depth - currDepth) && LeavesEmit(ctx, Leaves(n, ctx.cfg.depth - currDepth))
    decreases ctx.cfg.depth - currDepth, 1, 0
  {
    if currDepth == ctx.cfg.depth {
      assert Leaves(n, 0) == [n];
      assert EmitLeaf(ctx, Leaves(n, 0)[0]) == EmitLeaf(ctx, n);
    } else if n.Struct? {
      assert Leaves(n, ctx.cfg.depth - currDepth) == LeavesOfFields(n.fields, ctx.cfg.depth - currDepth - 1);
      WalkFieldsSucceed(ctx, n.fields, currDepth);
    }
  }

  lemma {:induction false} WalkFieldsSucceed(ctx: WalkContext, fields: seq<Node>, currDepth: int)
    requires 0 <= currDepth < ctx.cfg.depth
    ensures var k := ctx.cfg.depth - currDepth - 1;
      (ChildrenFiles(ctx, fields, currDepth).Success? <==>
         NoMalformedInFields(fields, k) && LeavesEmit(ctx, LeavesOfFields(fields, k)))
    decreases ctx.cfg.depth - currDepth, 0, |fields|
  {
    if fields != [] {
      var k := ctx.cfg.depth - currDepth - 1;
      WalkSucceeds(ctx, fields[0], currDepth + 1);
      WalkFieldsSucceed(ctx, fields[1..], currDepth);
      LeavesEmitConcat(ctx, Leaves(fields[0], k), LeavesOfFields(fields[1..], k));
      ChildrenStep(ctx, fields, currDepth);
    }
  }

  /** The loop over a non-empty field list succeeds exactly when the first field's walk
      and the loop over the rest both do. */
  lemma ChildrenStep(ctx: WalkContext, fields: seq<Node>, currDepth: int)
    requires 0 <= currDepth < ctx.cfg.depth && fields != []
    ensures ChildrenFiles(ctx, fields, currDepth).Success?
        <==> FilesAtDepth(ctx, fields[0], currDepth + 1).Success? && ChildrenFiles(ctx, fields[1..], currDepth).Success?
  {
  }

  /** The cog backend generates exactly one file for every request. */
  ghost predicate SingleFileBackend(backend: Backend) {
    forall req :: backend(req).Success? && |backend(req).value| == 1
  }

  /** With a backend that always generates one file and a tree whose nodes above the
      target level all list their fields, the walk succeeds with one file per node at
      that level, in order, each at the path made from that node's field path; a node
      without fields above the target level contributes nothing. */
  lemma WalkCountsLeaves(ctx: WalkContext, n: Node, currDepth: int)
    requires 0 <= currDepth <= ctx.cfg.depth
    requires SingleFileBackend(ctx.backend)
    requires NoMalformedAbove(n, ctx.cfg.depth - currDepth)
    ensures var r := FilesAtDepth(ctx, n, currDepth);
      var leaves := Leaves(n, ctx.cfg.depth - currDepth);
      && r.Success? && |r.value| == |leaves|
      && forall j :: 0 <= j < |leaves| ==> r.value[j].relativePath == LeafPath(ctx, leaves[j])
  {
    WalkEmitsLeaves(ctx, n, currDepth);
    WalkSucceeds(ctx, n, currDepth);
    var leaves := Leaves(n, ctx.cfg.depth - currDepth);
    assert LeavesEmit(ctx, leaves) by {
      forall j | 0 <= j < |leaves| ensures EmitLeaf(ctx, leaves[j]).Success? {
        var out := ctx.backend(LeafRequest(ctx, leaves[j]));
        assert out.Success? && |out.value| == 1;
      }
    }
    var r := FilesAtDepth(ctx, n, currDepth);
    forall j | 0 <= j < |leaves| ensures r.value[j].relativePath == LeafPath(ctx, leaves[j]) {
      assert EmitLeaf(ctx, leaves[j]) == Success([r.value[j]]);
    }
  }

  lemma PrefixTransitive(a: seq<Selector>, b: seq<Selector>, c: seq<Selector>)
    requires IsPrefix(a, b) && IsPrefix(b, c)
    ensures IsPrefix(a, c)
  {
  }

  /** In a well-formed tree, a node `k` levels below `n` has a path that extends `n`'s by exactly `k` selectors. */
  lemma {:induction false} LeavesLieBelow(n: Node, k: nat)
    requires WellFormed(n)
    ensures forall j :: 0 <= j < |Leaves(n, k)| ==>
      |Leaves(n, k)[j].path| == |n.path| + k && IsPrefix(n.path, Leaves(n, k)[j].path)
    decreases k, 1, 0
  {
    if k > 0 && n.Struct? {
      FieldLeavesLieBelow(n.fields, n.path, k - 1);
    }
  }

  lemma {:induction false} FieldLeavesLieBelow(fields: seq<Node>, parent: seq<Selector>, k: nat)
    requires forall i :: 0 <= i < |fields| ==> ChildOf(fields[i], parent) && WellFormed(fields[i])
    ensures forall j :: 0 <= j < |LeavesOfFields(fields, k)| ==>
      |LeavesOfFields(fields, k)[j].path| == |parent| + 1 + k && IsPrefix(parent, LeavesOfFields(fields, k)[j].path)
    decreases k, 2, |fields|
  {
    if fields != [] {
      LeavesLieBelow(fields[0], k);
      FieldLeavesLieBelow(fields[1..], parent, k);
      var a: seq<Node>, b: seq<Node> := Leaves(fields[0], k), LeavesOfFields(fields[1..], k);
      forall j | 0 <= j < |a + b|
        ensures |(a + b)[j].path| == |parent| + 1 + k && IsPrefix(parent, (a + b)[j].path)
      {
        if j < |a| {
          PrefixTransitive(parent, fields[0].path, a[j].path);
        } else {
          assert (a + b)[j] == b[j - |a|];
        }
      }
    }
  }

  /** Walking a well-formed schema from its root, every file's field path has exactly
      `Depth` components: the selectors of its node below the root. */
  lemma RootFieldNames(ctx: WalkContext)
    requires 0 <= ctx.cfg.depth
    requires WellFormed(ctx.version.schema)
    ensures var leaves := Leaves(ctx.version.schema, ctx.cfg.depth);
      forall j :: 0 <= j < |leaves| ==>
        var root := ctx.version.schema.path;
        && |leaves[j].path| == |root| + ctx.cfg.depth
        && |LeafFieldName(ctx, leaves[j])| == ctx.cfg.depth
        && LeafFieldName(ctx, leaves[j]) == SelectorStrings(leaves[j].path[|root|..])
  {
    LeavesLieBelow(ctx.version.schema, ctx.cfg.depth);
  }

  /** The `currDepth == Depth` branch of generateFilesAtDepth: collect the field path,
      run the node's request, and wrap the one file it yields. */
  method GenerateLeaf(ctx: WalkContext, n: Node) returns (r: Result<seq<File>, Error>)
    ensures r == EmitLeaf(ctx, n)
  {
    var fieldName := CollectFieldName(n.path, ctx.version.schema.path);
    assert fieldName == LeafFieldName(ctx, n);
    var goBytes := GoTypesFromCUE(ctx.backend, n, LeafConfig(ctx, fieldName), |n.path| - (ctx.cfg.depth - ctx.cfg.namingDepth));
    if goBytes.Failure? {
      return Failure(goBytes.error);
    }
    return Success([File(goBytes.value, FieldFilePath(ctx.pathPrefix, ctx.machineName, fieldName), JennyName)]);
  }

  /** The naming cap of a leaf of a well-formed schema is the root's length plus
      NamingDepth. */
  lemma LeafNamingCap(ctx: WalkContext, j: nat)
    requires 0 <= ctx.cfg.depth && WellFormed(ctx.version.schema)
    requires j < |Leaves(ctx.version.schema, ctx.cfg.depth)|
    ensures MaxNamingDepth(ctx, Leaves(ctx.version.schema, ctx.cfg.depth)[j]) == |ctx.version.schema.path| + ctx.cfg.namingDepth
  {
    LeafLength(ctx, j);
  }

  /** With Depth <= NamingDepth, or when the cap comes out at 0 or less, a type defined
      below a leaf is named from its own fields: the leaf's whole path is dropped. */
  lemma LeafNamesOwnField(ctx: WalkContext, j: nat, definitionPath: seq<Selector>)
    requires 0 <= ctx.cfg.depth && WellFormed(ctx.version.schema)
    requires j < |Leaves(ctx.version.schema, ctx.cfg.depth)|
    requires IsPrefix(Leaves(ctx.version.schema, ctx.cfg.depth)[j].path, definitionPath)
    requires ctx.cfg.depth <= ctx.cfg.namingDepth || |ctx.version.schema.path| + ctx.cfg.namingDepth <= 0
    ensures var leaf, root := Leaves(ctx.version.schema, ctx.cfg.depth)[j], |ctx.version.schema.path|;
      && root + ctx.cfg.depth <= |definitionPath|
      && ResolvedName(definitionPath, leaf.path, MaxNamingDepth(ctx, leaf))
         == Trim(PathString(definitionPath[root + ctx.cfg.depth..]), Markers)
  {
    var leaf := Leaves(ctx.version.schema, ctx.cfg.depth)[j];
    LeafLength(ctx, j);
    var cap := MaxNamingDepth(ctx, leaf);
    ResolvedAlongPrefix(definitionPath, leaf.path, cap, |leaf.path|);
  }

  /** With NamingDepth below Depth and a positive cap, a type defined below a leaf keeps
      as prefix the field names from NamingDepth down to the leaf: exactly the root and
      the first NamingDepth fields are dropped. */
  lemma LeafNamesPrefixed(ctx: WalkContext, j: nat, definitionPath: seq<Selector>)
    requires 0 <= ctx.cfg.depth && WellFormed(ctx.version.schema)
    requires j < |Leaves(ctx.version.schema, ctx.cfg.depth)|
    requires IsPrefix(Leaves(ctx.version.schema, ctx.cfg.depth)[j].path, definitionPath)
    requires 0 < |ctx.version.schema.path| + ctx.cfg.namingDepth && ctx.cfg.namingDepth < ctx.cfg.depth
    ensures var leaf, root := Leaves(ctx.version.schema, ctx.cfg.depth)[j], |ctx.version.schema.path|;
      && root + ctx.cfg.namingDepth <= |definitionPath|
      && ResolvedName(definitionPath, leaf.path, MaxNamingDepth(ctx, leaf))
         == Trim(PathString(definitionPath[root + ctx.cfg.namingDepth..]), Markers)
  {
    var leaf := Leaves(ctx.version.schema, ctx.cfg.depth)[j];
    LeafLength(ctx, j);
    var cap := MaxNamingDepth(ctx, leaf);
    ResolvedAlongPrefix(definitionPath, leaf.path, cap, cap);
  }

  /** With a cap of 0 taken literally, a non-negative NamingDepth below Depth always keeps
      the field names from NamingDepth down as prefix, whether or not the root path is
      empty. */
  lemma IntendedLeafNames(ctx: WalkContext, j: nat, definitionPath: seq<Selector>)
    requires 0 <= ctx.cfg.namingDepth < ctx.cfg.depth && WellFormed(ctx.version.schema)
    requires j < |Leaves(ctx.version.schema, ctx.cfg.depth)|
    requires IsPrefix(Leaves(ctx.version.schema, ctx.cfg.depth)[j].path, definitionPath)
    ensures var leaf, root := Leaves(ctx.version.schema, ctx.cfg.depth)[j], |ctx.version.schema.path|;
      && root + ctx.cfg.namingDepth <= |definitionPath|
      && IntendedResolvedName(definitionPath, leaf.path, MaxNamingDepth(ctx, leaf))
         == Trim(PathString(definitionPath[root + ctx.cfg.namingDepth..]), Markers)
  {
    var leaf := Leaves(ctx.version.schema, ctx.cfg.depth)[j];
    LeafLength(ctx, j);
    var cap := MaxNamingDepth(ctx, leaf);
    IntendedAlongPrefix(definitionPath, leaf.path, cap, cap);
  }

  /** A leaf of a well-formed schema lies exactly Depth selectors below the root. */
  lemma LeafLength(ctx: WalkContext, j: nat)
    requires 0 <= ctx.cfg.depth && WellFormed(ctx.version.schema)
    requires j < |Leaves(ctx.version.schema, ctx.cfg.depth)|
    ensures |Leaves(ctx.version.schema, ctx.cfg.depth)[j].path| == |ctx.version.schema.path| + ctx.cfg.depth
  {
    LeavesLieBelow(ctx.version.schema, ctx.cfg.depth);
  }

  /** generateFilesAtDepth: the recursive walk with its loop over the field iterator. */
  method GenerateFilesAtDepth(ctx: WalkContext, n: Node, currDepth: int) returns (r: Result<seq<File>, Error>)
    requires 0 <= currDepth <= ctx.cfg.depth
    ensures r == FilesAtDepth(ctx, n, currDepth)
    decreases ctx.cfg.depth - currDepth
  {
    if currDepth == ctx.cfg.depth {
      r := GenerateLeaf(ctx, n);
      return;
    }
    if n.Malformed? {
      return Failure(n.error);
    }
    assert FilesAtDepth(ctx, n, currDepth) == ChildrenFiles(ctx, n.fields, currDepth);
    var fields := n.fields;
    var files: seq<File> := [];
    var i := 0;
    assert fields[0..] == fields;
    PrependNothing(ChildrenFiles(ctx, fields, currDepth));
    while i < |fields|
      invariant 0 <= i <= |fields|
      invariant FilesAtDepth(ctx, n, currDepth) == Prepend(files, ChildrenFiles(ctx, fields[i..], currDepth))
    {
      var f := GenerateFilesAtDepth(ctx, fields[i], currDepth + 1);
      assert fields[i..][1..] == fields[i + 1..];
      if f.Failure? {
        return Failure(f.error);
      }
      PrependPrepend(files, f.value, ChildrenFiles(ctx, fields[i + 1..], currDepth));
      files := files + f.value;
      i := i + 1;
    }
    assert fields[i..] == [];
    assert files + [] == files;
    r := Success(files);
  }
}
