/**
 * The payload and schema shapes the data explorer of frontend/app.js works on.
 * A payload is a JSON value; a schema is an optional, best-effort mirror of it.
 */
module JsonModel {
  import opened Wrappers

  /** JSON scalars. JavaScript numbers are modelled as mathematical integers. */
  datatype Prim = Null | Bool(b: bool) | Num(n: int) | Str(s: string)

  /** A JSON value. Object members are kept in `Object.keys` order. */
  datatype Node =
    | Scalar(p: Prim)
    | Arr(items: seq<Node>)
    | Obj(props: seq<(string, Node)>)
  {
    /** `Array.isArray(v) || (v && typeof v === 'object')`: arrays and objects, never null. */
    predicate IsContainer() {
      Arr? || Obj?
    }

    /** `typeof v === 'object'`: true for arrays, objects AND null. */
    predicate IsTypeofObject() {
      Arr? || Obj? || (Scalar? && p.Null?)
    }
  }

  /** JavaScript truthiness of a JSON value. Containers are always truthy. */
  predicate Truthy(n: Node) {
    match n
    case Scalar(p) => PrimTruthy(p)
    case _ => true
  }

  predicate PrimTruthy(p: Prim) {
    match p
    case Null => false
    case Bool(b) => b
    case Num(k) => k != 0
    case Str(s) => s != ""
  }

  /** `Object.keys(o)`. */
  function Keys(props: seq<(string, Node)>): (ks: seq<string>)
    ensures |ks| == |props|
    ensures forall i :: 0 <= i < |props| ==> ks[i] == props[i].0
  {
    if props == [] then [] else [props[0].0] + Keys(props[1..])
  }

  /** The position of the first member named `k`, if there is one. */
  function FindKey(props: seq<(string, Node)>, k: string): (r: Option<nat>)
    ensures r.Some? ==> r.value < |props| && props[r.value].0 == k
    ensures r.Some? ==> forall j :: 0 <= j < r.value ==> props[j].0 != k
    ensures r.None? ==> forall j :: 0 <= j < |props| ==> props[j].0 != k
  {
    if props == [] then None
    else if props[0].0 == k then Some(0)
    else
      match FindKey(props[1..], k)
      case None => None
      case Some(j) => Some(j + 1)
  }

  /** `o[k]` for an object: the member named `k`, or None (`undefined`). */
  function Lookup(props: seq<(string, Node)>, k: string): (r: Option<Node>)
    ensures r.Some? <==> exists i :: 0 <= i < |props| && props[i].0 == k
    ensures r.Some? ==> r.value < Obj(props)
  {
    match FindKey(props, k)
    case None => None
    case Some(i) => Some(props[i].1)
  }

  /** Object keys are pairwise distinct, at every level (true of every parsed JSON value). */
  predicate WellFormed(n: Node)
    decreases n
  {
    match n
    case Scalar(_) => true
    case Arr(items) => forall i :: 0 <= i < |items| ==> WellFormed(items[i])
    case Obj(props) =>
      && (forall i, j :: 0 <= i < j < |props| ==> props[i].0 != props[j].0)
      && (forall i :: 0 <= i < |props| ==> WellFormed(props[i].1))
  }

  /** One step of a location: an object key, or a 1-based array index ("Item 1", "Item 2", ...). */
  datatype Token = Key(k: string) | Index(i: nat)

  /** A location below the payload root. */
  type Path = seq<Token>

  /** The children of a container with the token that addresses each of them, in iteration order. */
  function Children(n: Node): (ch: seq<(Token, Node)>)
    ensures n.Scalar? ==> ch == []
    ensures n.Arr? ==> |ch| == |n.items|
    ensures n.Arr? ==> forall i :: 0 <= i < |ch| ==> ch[i] == (Index(i + 1), n.items[i])
    ensures n.Obj? ==> |ch| == |n.props|
    ensures n.Obj? ==> forall i :: 0 <= i < |ch| ==> ch[i] == (Key(n.props[i].0), n.props[i].1)
    ensures forall i :: 0 <= i < |ch| ==> ch[i].1 < n
  {
    match n
    case Scalar(_) => []
    case Arr(items) => seq(|items|, i requires 0 <= i < |items| => (Index(i + 1), items[i]))
    case Obj(props) => seq(|props|, i requires 0 <= i < |props| => (Key(props[i].0), props[i].1))
  }

  /** The child a single token addresses, if any. */
  function Child(n: Node, t: Token): (r: Option<Node>)
    ensures r.Some? ==> r.value < n
  {
    match n
    case Scalar(_) => None
    case Arr(items) =>
      if t.Index? && 1 <= t.i <= |items| then Some(items[t.i - 1]) else None
    case Obj(props) =>
      if t.Key? then Lookup(props, t.k) else None
  }

  /** The node found at a location, if the location exists. */
  function At(n: Node, q: Path): Option<Node>
    decreases q
  {
    if q == [] then Some(n)
    else
      match Child(n, q[0])
      case None => None
      case Some(c) => At(c, q[1..])
  }

  /**
   * An optional schema node: `title` when it is a string, `properties` for object
   * shapes, `items` for array shapes. Any part may be absent.
   */
  datatype Schema = Schema(
    title: Option<string>,
    properties: Option<map<string, Schema>>,
    items: Option<Schema>)
}
