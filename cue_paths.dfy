/** An abstract view of the CUE values the generator walks: a finite tree of nodes,
    each knowing its path of selectors from the top of the schema and listing its
    fields (or failing to). */
module CuePaths {
  import opened Results
  import opened Strings

  /** A selector of a CUE path: a regular field `name`, an optional field `name?`
      or a definition `#name`. */
  datatype Selector = Regular(name: string) | Optional(name: string) | Definition(name: string)

  /** cue.Selector.String */
  function SelectorString(s: Selector): (r: string)
    ensures s.Regular? ==> r == s.name
    ensures s.Optional? ==> |r| == |s.name| + 1 && r[..|s.name|] == s.name && r[|s.name|] == '?'
    ensures s.Definition? ==> |r| == |s.name| + 1 && r[0] == '#' && r[1..] == s.name
  {
    match s
    case Regular(n) => n
    case Optional(n) => n + "?"
    case Definition(n) => "#" + n
  }

  /** SelEq: selector equality. */
  predicate SelEq(a: Selector, b: Selector) {
    a == b
  }

  /** The string form of every selector of a path, in order. */
  function SelectorStrings(p: seq<Selector>): (r: seq<string>)
    ensures |r| == |p|
    ensures forall i :: 0 <= i < |p| ==> r[i] == SelectorString(p[i])
  {
    seq(|p|, i requires 0 <= i < |p| => SelectorString(p[i]))
  }

  /** cue.Path.String: the selectors joined by dots. */
  function PathString(p: seq<Selector>): (r: string)
    ensures p == [] ==> r == ""
    ensures |p| > 0 ==> |r| == SumLengths(SelectorStrings(p)) + |p| - 1
    ensures |p| > 0 ==> |SelectorString(p[0])| <= |r| && r[..|SelectorString(p[0])|] == SelectorString(p[0])
  {
    Join(SelectorStrings(p), ".")
  }

  predicate IsPrefix(prefix: seq<Selector>, p: seq<Selector>) {
    |prefix| <= |p| && p[..|prefix|] == prefix
  }

  /** TrimPathPrefix: drops the selectors of `prefix` from the front of `p` when `p`
      starts with them, and leaves `p` alone otherwise. */
  function TrimPathPrefix(p: seq<Selector>, prefix: seq<Selector>): (r: seq<Selector>)
    ensures IsPrefix(prefix, p) ==> p == prefix + r
    ensures !IsPrefix(prefix, p) ==> r == p
  {
    if IsPrefix(prefix, p) then p[|prefix|..] else p
  }

  /** A schema node. `Malformed` is a node whose field iterator (`v.Fields()`) fails. */
  datatype Node =
    | Struct(path: seq<Selector>, fields: seq<Node>)
    | Malformed(path: seq<Selector>, error: Error)

  /** `c` is a direct field of a node whose path is `parent`. */
  predicate ChildOf(c: Node, parent: seq<Selector>) {
    |c.path| == |parent| + 1 && IsPrefix(parent, c.path)
  }

  /** Every field's path extends its parent's path by one selector. */
  predicate WellFormed(n: Node) {
    match n
    case Malformed(_, _) => true
    case Struct(p, fields) => forall i :: 0 <= i < |fields| ==> ChildOf(fields[i], p) && WellFormed(fields[i])
  }
}
