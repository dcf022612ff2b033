/**
 * The search effect of frontend/app.js: the expansion set is rebuilt from scratch by `walk`,
 * which opens every location that leads to a match of the search text.
 */
module SearchWalk {
  import opened Wrappers
  import opened JsonModel
  import opened PathKeys
  import opened Search
  import opened Expansion

  // ---------------------------------------------------------------------------------------
  // What `walk` computes, as functions

  /** `matchesHere` of the object loop: the member's key or value matches directly. */
  predicate MatchesHere(s: string, ser: Serializer, key: string, v: Node) {
    MatchesSearch(s, ser, key, v) || HasMatchValue(s, ser, v)
  }

  /** `walk(n)`'s result: does the subtree of `n` contain a match? */
  predicate Has(n: Node, s: string, ser: Serializer)
    decreases n, 1
  {
    if n.Scalar? then HasMatchValue(s, ser, n) else HasUpTo(n, |Children(n)|, s, ser)
  }

  /** The value of `any` after visiting the first `j` children of a container. */
  predicate HasUpTo(n: Node, j: nat, s: string, ser: Serializer)
    requires j <= |Children(n)|
    decreases n, 0, j
  {
    j > 0 && (HasUpTo(n, j - 1, s, ser) || ChildHits(n, j - 1, s, ser))
  }

  /** Does visiting child `i` set `any`? */
  predicate ChildHits(n: Node, i: nat, s: string, ser: Serializer)
    requires i < |Children(n)|
    decreases n, 0, 0
  {
    var (t, c) := Children(n)[i];
    if n.Arr? then Has(c, s, ser)
    else (c.IsContainer() && Has(c, s, ser)) || MatchesHere(s, ser, t.k, c)
  }

  /** Every path of `S`, with `t` in front. */
  function PrefixSet(t: Token, S: set<Path>): set<Path> {
    set q | q in S :: [t] + q
  }

  /** The relative paths `walk(n)` opens. */
  function Opened(n: Node, s: string, ser: Serializer): set<Path>
    decreases n, 1
  {
    if n.Scalar? then {} else OpenedUpTo(n, |Children(n)|, s, ser)
  }

  /** The relative paths opened while visiting the first `j` children. */
  function OpenedUpTo(n: Node, j: nat, s: string, ser: Serializer): set<Path>
    requires j <= |Children(n)|
    decreases n, 0, j
  {
    if j == 0 then {} else OpenedUpTo(n, j - 1, s, ser) + ChildOpened(n, j - 1, s, ser)
  }

  /**
   * The relative paths opened while visiting child `i`: what the recursive walk opens (array
   * items always, object members only when they are containers), then, on a hit, the container
   * itself and (for a hit found inside the child, and for any array item) the child.
   */
  function ChildOpened(n: Node, i: nat, s: string, ser: Serializer): set<Path>
    requires i < |Children(n)|
    decreases n, 0, 0
  {
    var (t, c) := Children(n)[i];
    var walked := n.Arr? || c.IsContainer();
    (if walked then PrefixSet(t, Opened(c, s, ser)) else {}) +
    (if walked && Has(c, s, ser) then {[], [t]}
     else if n.Obj? && MatchesHere(s, ser, t.k, c) then {[]}
     else {})
  }

  /** The addresses of relative paths `S` below `base`. */
  function AddrSet(base: Path, S: set<Path>): set<string> {
    set q | q in S :: PathKey(base + q)
  }

  /** The expansion set the search effect installs: "root" plus everything `walk` opened. */
  function SearchExpansion(payload: Node, s: string, ser: Serializer): set<string> {
    {"root"} + AddrSet([], Opened(payload, s, ser))
  }

  lemma AddrSetUnion(base: Path, A: set<Path>, B: set<Path>)
    ensures AddrSet(base, A + B) == AddrSet(base, A) + AddrSet(base, B)
  {
  }

  /** Accumulating `b` onto `e == e0 + a` gives `e0 + (a + b)`. */
  lemma UnionStep<T>(e0: set<T>, e: set<T>, e': set<T>, a: set<T>, b: set<T>, ab: set<T>)
    requires e == e0 + a && e' == e + b && ab == a + b
    ensures e' == e0 + ab
  {
  }

  /** One more child visited: its addresses join those of the earlier ones. */
  lemma OpenedUpToStep(base: Path, n: Node, i: nat, s: string, ser: Serializer)
    requires i < |Children(n)|
    ensures AddrSet(base, OpenedUpTo(n, i + 1, s, ser))
         == AddrSet(base, OpenedUpTo(n, i, s, ser)) + AddrSet(base, ChildOpened(n, i, s, ser))
  {
    AddrSetUnion(base, OpenedUpTo(n, i, s, ser), ChildOpened(n, i, s, ser));
  }

  lemma AddrSetPrefix(base: Path, t: Token, S: set<Path>)
    ensures AddrSet(base, PrefixSet(t, S)) == AddrSet(base + [t], S)
  {
    forall a | a in AddrSet(base + [t], S) ensures a in AddrSet(base, PrefixSet(t, S)) {
      var q :| q in S && a == PathKey(base + [t] + q);
      assert base + ([t] + q) == base + [t] + q;
      assert [t] + q in PrefixSet(t, S);
    }
    forall a | a in AddrSet(base, PrefixSet(t, S)) ensures a in AddrSet(base + [t], S) {
      var p :| p in PrefixSet(t, S) && a == PathKey(base + p);
      var q :| q in S && p == [t] + q;
      assert base + ([t] + q) == base + [t] + q;
    }
  }

  lemma AddrSetPair(base: Path, t: Token)
    ensures AddrSet(base, {[], [t]}) == {PathKey(base), PathKey(base + [t])}
    ensures AddrSet(base, {[]}) == {PathKey(base)}
  {
    assert base + [] == base;
  }

  /** Visiting child `i`: the addresses it adds, in the terms the loop body uses. */
  lemma ChildOpenedAddresses(base: Path, n: Node, i: nat, s: string, ser: Serializer)
    requires i < |Children(n)|
    ensures
      var (t, c) := Children(n)[i];
      var walked := n.Arr? || c.IsContainer();
      AddrSet(base, ChildOpened(n, i, s, ser)) ==
        (if walked then AddrSet(base + [t], Opened(c, s, ser)) else {}) +
        (if walked && Has(c, s, ser) then {PathKey(base), PathKey(base + [t])}
         else if n.Obj? && MatchesHere(s, ser, t.k, c) then {PathKey(base)}
         else {})
  {
    var (t, c) := Children(n)[i];
    var walked := n.Arr? || c.IsContainer();
    var below: set<Path> := if walked then PrefixSet(t, Opened(c, s, ser)) else {};
    var here: set<Path> :=
      if walked && Has(c, s, ser) then {[], [t]}
      else if n.Obj? && MatchesHere(s, ser, t.k, c) then {[]}
      else {};
    assert ChildOpened(n, i, s, ser) == below + here;
    AddrSetUnion(base, below, here);
    AddrSetPrefix(base, t, Opened(c, s, ser));
    AddrSetPair(base, t);
  }

  // ---------------------------------------------------------------------------------------
  // `walk`, imperatively

  /** The closure of the search effect: the search text, the serialiser and `expandedKeys`. */
  class Walker {
    const search: string
    const ser: Serializer
    var expandedKeys: set<string>

    /** `const expandedKeys = new Set(['root'])`. */
    constructor (search: string, ser: Serializer)
      ensures this.search == search && this.ser == ser
      ensures expandedKeys == {"root"}
    {
      this.search := search;
      this.ser := ser;
      expandedKeys := {"root"};
    }

    /** `walk(node, pathArr)`: adds to `expandedKeys` and reports whether the subtree matched. */
    method Walk(node: Node, pathArr: Path) returns (any: bool)
      modifies this
      ensures any == Has(node, search, ser)
      ensures expandedKeys == old(expandedKeys) + AddrSet(pathArr, Opened(node, search, ser))
      decreases node, 2
    {
      if node.Scalar? {
        any := HasMatchValue(search, ser, node);
      } else if node.Arr? {
        any := WalkItems(node, pathArr);
      } else {
        any := WalkMembers(node, pathArr);
      }
    }

    /** The array branch of `walk`: every item is walked; an item with a hit opens both ends. */
    method WalkItems(node: Node, pathArr: Path) returns (any: bool)
      requires node.Arr?
      modifies this
      ensures any == Has(node, search, ser)
      ensures expandedKeys == old(expandedKeys) + AddrSet(pathArr, Opened(node, search, ser))
      decreases node, 1
    {
      any := false;
      var i := 0;
      while i < |node.items|
        invariant 0 <= i <= |node.items|
        invariant any == HasUpTo(node, i, search, ser)
        invariant expandedKeys == old(expandedKeys) + AddrSet(pathArr, OpenedUpTo(node, i, search, ser))
      {
        ghost var sofar := expandedKeys;
        var hit := VisitItem(node, pathArr, i);
        OpenedUpToStep(pathArr, node, i, search, ser);
        UnionStep(old(expandedKeys), sofar, expandedKeys, AddrSet(pathArr, OpenedUpTo(node, i, search, ser)),
                  AddrSet(pathArr, ChildOpened(node, i, search, ser)), AddrSet(pathArr, OpenedUpTo(node, i + 1, search, ser)));
        any := any || hit;
        i := i + 1;
      }
    }

    /** One call of the array branch's `forEach` callback. */
    method VisitItem(node: Node, pathArr: Path, i: nat) returns (hit: bool)
      requires node.Arr? && i < |node.items|
      modifies this
      ensures hit == ChildHits(node, i, search, ser)
      ensures expandedKeys == old(expandedKeys) + AddrSet(pathArr, ChildOpened(node, i, search, ser))
      decreases node, 0
    {
      assert Children(node)[i] == (Index(i + 1), node.items[i]);
      ChildOpenedAddresses(pathArr, node, i, search, ser);
      var childPath := pathArr + [Index(i + 1)];
      hit := Walk(node.items[i], childPath);
      if hit {
        expandedKeys := expandedKeys + {PathKey(pathArr)};
        expandedKeys := expandedKeys + {PathKey(childPath)};
      }
    }

    /**
     * The object branch of `walk`: container members are walked; a member whose subtree hit opens
     * the object and the member, and otherwise a direct match opens the object.
     */
    method WalkMembers(node: Node, pathArr: Path) returns (any: bool)
      requires node.Obj?
      modifies this
      ensures any == Has(node, search, ser)
      ensures expandedKeys == old(expandedKeys) + AddrSet(pathArr, Opened(node, search, ser))
      decreases node, 1
    {
      any := false;
      var i := 0;
      while i < |node.props|
        invariant 0 <= i <= |node.props|
        invariant any == HasUpTo(node, i, search, ser)
        invariant expandedKeys == old(expandedKeys) + AddrSet(pathArr, OpenedUpTo(node, i, search, ser))
      {
        ghost var sofar := expandedKeys;
        var hit := VisitMember(node, pathArr, i);
        OpenedUpToStep(pathArr, node, i, search, ser);
        UnionStep(old(expandedKeys), sofar, expandedKeys, AddrSet(pathArr, OpenedUpTo(node, i, search, ser)),
                  AddrSet(pathArr, ChildOpened(node, i, search, ser)), AddrSet(pathArr, OpenedUpTo(node, i + 1, search, ser)));
        any := any || hit;
        i := i + 1;
      }
    }

    /** One turn of the object branch's `for` loop, `continue` included. */
    method VisitMember(node: Node, pathArr: Path, i: nat) returns (hit: bool)
      requires node.Obj? && i < |node.props|
      modifies this
      ensures hit == ChildHits(node, i, search, ser)
      ensures expandedKeys == old(expandedKeys) + AddrSet(pathArr, ChildOpened(node, i, search, ser))
      decreases node, 0
    {
      var (k, v) := node.props[i];
      assert Children(node)[i] == (Key(k), v);
      ChildOpenedAddresses(pathArr, node, i, search, ser);
      var matchesHere := MatchesSearch(search, ser, k, v) || HasMatchValue(search, ser, v);
      var childPath := pathArr + [Key(k)];
      if v.IsContainer() {
        var childHas := Walk(v, childPath);
        if childHas {
          expandedKeys := expandedKeys + {PathKey(pathArr)};
          expandedKeys := expandedKeys + {PathKey(childPath)};
          return true;
        }
      }
      hit := false;
      if matchesHere {
        hit := true;
        expandedKeys := expandedKeys + {PathKey(pathArr)};
      }
    }
  }

  /** The search effect's rebuild: a fresh walker over the whole payload. */
  method RecomputeForSearch(payload: Node, search: string, ser: Serializer) returns (expanded: set<string>)
    ensures expanded == SearchExpansion(payload, search, ser)
  {
    var w := new Walker(search, ser);
    var _ := w.Walk(payload, []);
    expanded := w.expandedKeys;
  }

  // ---------------------------------------------------------------------------------------
  // What the walk means

  /**
   * Location `q` is opened by the search: it exists, its subtree contains a match, and it is
   * either a container or an item of an array.
   */
  ghost predicate OpenAt(n: Node, q: Path, s: string, ser: Serializer) {
    && At(n, q).Some?
    && Has(At(n, q).value, s, ser)
    && (|| At(n, q).value.IsContainer()
        || (q != [] && At(n, q[..|q| - 1]).Some? && At(n, q[..|q| - 1]).value.Arr?))
  }

  /**
   * A match is found at location `q`: a scalar whose text matches, an object member whose key or
   * value matches directly, reached through containers that the walk descends into.
   */
  ghost predicate MatchAt(n: Node, q: Path, s: string, ser: Serializer)
    decreases q
  {
    if q == [] then n.Scalar? && HasMatchValue(s, ser, n)
    else
      match Child(n, q[0])
      case None => false
      case Some(c) =>
        || ((n.Arr? || c.IsContainer()) && MatchAt(c, q[1..], s, ser))
        || (n.Obj? && q[1..] == [] && MatchesHere(s, ser, q[0].k, c))
  }

  lemma {:induction false} OpenedUpToMember(n: Node, j: nat, i: nat, q: Path, s: string, ser: Serializer)
    requires i < j <= |Children(n)|
    requires q in ChildOpened(n, i, s, ser)
    ensures q in OpenedUpTo(n, j, s, ser)
    decreases j
  {
    if i < j - 1 {
      OpenedUpToMember(n, j - 1, i, q, s, ser);
    }
  }

  lemma {:induction false} OpenedUpToWitness(n: Node, j: nat, q: Path, s: string, ser: Serializer) returns (i: nat)
    requires j <= |Children(n)|
    requires q in OpenedUpTo(n, j, s, ser)
    ensures i < j && q in ChildOpened(n, i, s, ser)
    decreases j
  {
    if q in ChildOpened(n, j - 1, s, ser) {
      i := j - 1;
    } else {
      i := OpenedUpToWitness(n, j - 1, q, s, ser);
    }
  }

  lemma {:induction false} HasUpToMember(n: Node, j: nat, i: nat, s: string, ser: Serializer)
    requires i < j <= |Children(n)|
    requires ChildHits(n, i, s, ser)
    ensures HasUpTo(n, j, s, ser)
    decreases j
  {
    if i < j - 1 {
      HasUpToMember(n, j - 1, i, s, ser);
    }
  }

  lemma {:induction false} HasUpToWitness(n: Node, j: nat, s: string, ser: Serializer) returns (i: nat)
    requires j <= |Children(n)|
    requires HasUpTo(n, j, s, ser)
    ensures i < j && ChildHits(n, i, s, ser)
    decreases j
  {
    if ChildHits(n, j - 1, s, ser) {
      i := j - 1;
    } else {
      i := HasUpToWitness(n, j - 1, s, ser);
    }
  }

  /** The container itself is marked by a child exactly when that child is a hit. */
  lemma EmptyInChildOpened(n: Node, i: nat, s: string, ser: Serializer)
    requires i < |Children(n)|
    ensures [] in ChildOpened(n, i, s, ser) <==> ChildHits(n, i, s, ser)
  {
  }

  /** A container is opened by its own walk exactly when the walk reports a hit. */
  lemma EmptyInOpened(n: Node, s: string, ser: Serializer)
    ensures [] in Opened(n, s, ser) <==> n.IsContainer() && Has(n, s, ser)
  {
    if !n.Scalar? {
      var m := |Children(n)|;
      if [] in Opened(n, s, ser) {
        var i := OpenedUpToWitness(n, m, [], s, ser);
        EmptyInChildOpened(n, i, s, ser);
        HasUpToMember(n, m, i, s, ser);
      }
      if Has(n, s, ser) {
        var i := HasUpToWitness(n, m, s, ser);
        EmptyInChildOpened(n, i, s, ser);
        OpenedUpToMember(n, m, i, [], s, ser);
      }
    }
  }

  /** Which deeper paths visiting child `i` opens. */
  lemma ConsInChildOpened(n: Node, i: nat, t: Token, r: Path, s: string, ser: Serializer)
    requires i < |Children(n)|
    ensures
      var (t', c) := Children(n)[i];
      [t] + r in ChildOpened(n, i, s, ser) <==>
        && t' == t
        && (n.Arr? || c.IsContainer())
        && (r in Opened(c, s, ser) || (r == [] && Has(c, s, ser)))
  {
    var (t', c) := Children(n)[i];
    if [t] + r in PrefixSet(t', Opened(c, s, ser)) {
      var r' :| r' in Opened(c, s, ser) && [t] + r == [t'] + r';
      assert ([t] + r)[0] == t' && ([t] + r)[1..] == r == r';
    }
    if t' == t && r in Opened(c, s, ser) {
      assert [t] + r in PrefixSet(t', Opened(c, s, ser));
    }
    if [t] + r == [t'] {
      assert ([t] + r)[0] == t' && r == ([t] + r)[1..] == [];
    }
  }

  /** The opened paths are exactly the locations `OpenAt` describes. */
  lemma {:induction false} OpenedIff(n: Node, q: Path, s: string, ser: Serializer)
    requires WellFormed(n)
    ensures q in Opened(n, s, ser) <==> OpenAt(n, q, s, ser)
    decreases |q|, 1
  {
    if q == [] {
      EmptyInOpened(n, s, ser);
    } else if n.IsContainer() {
      var t, r := q[0], q[1..];
      assert q == [t] + r;
      if q in Opened(n, s, ser) {
        var i := OpenedUpToWitness(n, |Children(n)|, q, s, ser);
        ConsInChildOpened(n, i, t, r, s, ser);
        ChildOfToken(n, i);
        OpenedSoundStep(n, t, r, s, ser);
      }
      if OpenAt(n, q, s, ser) {
        var c := Child(n, t).value;
        var j := ChildIndex(n, t);
        ChildOfToken(n, j);
        OpenedCompleteStep(n, t, r, s, ser);
        ConsInChildOpened(n, j, t, r, s, ser);
        OpenedUpToMember(n, |Children(n)|, j, q, s, ser);
      }
    }
  }

  /** The step of `OpenedIff` from a child's opened path to the parent's. */
  lemma {:induction false} OpenedSoundStep(n: Node, t: Token, r: Path, s: string, ser: Serializer)
    requires WellFormed(n)
    requires Child(n, t).Some? && WellFormed(Child(n, t).value)
    requires
      var c := Child(n, t).value;
      (n.Arr? || c.IsContainer()) && (r in Opened(c, s, ser) || (r == [] && Has(c, s, ser)))
    ensures OpenAt(n, [t] + r, s, ser)
    decreases |r| + 1, 0
  {
    var c := Child(n, t).value;
    var q := [t] + r;
    AtCons(n, t, r);
    if r == [] {
      EmptyInOpened(c, s, ser);
      assert q[..|q| - 1] == [];
    } else {
      OpenedIff(c, r, s, ser);
      assert q[..|q| - 1] == [t] + r[..|r| - 1];
      AtCons(n, t, r[..|r| - 1]);
    }
  }

  /** The step of `OpenedIff` from the parent's open location to the child's opened path. */
  lemma {:induction false} OpenedCompleteStep(n: Node, t: Token, r: Path, s: string, ser: Serializer)
    requires WellFormed(n)
    requires Child(n, t).Some? && WellFormed(Child(n, t).value)
    requires OpenAt(n, [t] + r, s, ser)
    ensures
      var c := Child(n, t).value;
      (n.Arr? || c.IsContainer()) && (r in Opened(c, s, ser) || (r == [] && Has(c, s, ser)))
    decreases |r| + 1, 0
  {
    var c := Child(n, t).value;
    var q := [t] + r;
    AtCons(n, t, r);
    if r == [] {
      assert q[..|q| - 1] == [];
    } else {
      AtNonEmptyContainer(c, r);
      assert q[..|q| - 1] == [t] + r[..|r| - 1];
      AtCons(n, t, r[..|r| - 1]);
      OpenedIff(c, r, s, ser);
    }
  }

  /** Only a container has locations below it. */
  lemma AtNonEmptyContainer(n: Node, q: Path)
    requires q != [] && At(n, q).Some?
    ensures n.IsContainer()
  {
  }

  /** A hit reported by `walk` has a location where the match is. */
  lemma {:induction false} HasWitness(n: Node, s: string, ser: Serializer) returns (q: Path)
    requires WellFormed(n)
    requires Has(n, s, ser)
    ensures MatchAt(n, q, s, ser)
    decreases n
  {
    if n.Scalar? {
      return [];
    }
    var i := HasUpToWitness(n, |Children(n)|, s, ser);
    var (t, c) := Children(n)[i];
    ChildOfToken(n, i);
    if (n.Arr? || c.IsContainer()) && Has(c, s, ser) {
      var r := HasWitness(c, s, ser);
      q := [t] + r;
      assert q[0] == t && q[1..] == r;
    } else {
      q := [t];
      assert q[0] == t && q[1..] == [];
    }
  }

  /** A location with a match makes `walk` report a hit. */
  lemma {:induction false} MatchHas(n: Node, q: Path, s: string, ser: Serializer)
    requires WellFormed(n)
    requires MatchAt(n, q, s, ser)
    ensures Has(n, s, ser)
    decreases q
  {
    if q != [] {
      var t, r := q[0], q[1..];
      var c := Child(n, t).value;
      var j := ChildIndex(n, t);
      ChildOfToken(n, j);
      if (n.Arr? || c.IsContainer()) && MatchAt(c, r, s, ser) {
        MatchHas(c, r, s, ser);
      }
      HasUpToMember(n, |Children(n)|, j, s, ser);
    }
  }

  /** `walk` reports a hit exactly when some location of the subtree holds a match. */
  lemma HasIff(n: Node, s: string, ser: Serializer)
    requires WellFormed(n)
    ensures Has(n, s, ser) <==> exists q :: MatchAt(n, q, s, ser)
  {
    if Has(n, s, ser) {
      var q := HasWitness(n, s, ser);
      assert exists q' :: MatchAt(n, q', s, ser);
    }
    forall q | MatchAt(n, q, s, ser) ensures Has(n, s, ser) {
      MatchHas(n, q, s, ser);
    }
  }

  /** The addresses the search installs are "root" and the addresses of the opened locations. */
  lemma SearchExpansionIff(payload: Node, s: string, ser: Serializer, a: string)
    requires WellFormed(payload)
    ensures a in SearchExpansion(payload, s, ser) ==>
              a == "root" || exists q :: OpenAt(payload, q, s, ser) && PathKey(q) == a
    ensures (a == "root" || exists q :: OpenAt(payload, q, s, ser) && PathKey(q) == a) ==>
              a in SearchExpansion(payload, s, ser)
  {
    var S := Opened(payload, s, ser);
    AddrSetAtRoot(S, a);
    if exists q :: q in S && PathKey(q) == a {
      var q :| q in S && PathKey(q) == a;
      OpenedIff(payload, q, s, ser);
    }
    if exists q :: OpenAt(payload, q, s, ser) && PathKey(q) == a {
      var q :| OpenAt(payload, q, s, ser) && PathKey(q) == a;
      OpenedIff(payload, q, s, ser);
    }
  }

  lemma AddrSetAtRoot(S: set<Path>, a: string)
    ensures a in AddrSet([], S) <==> exists q :: q in S && PathKey(q) == a
  {
    if a in AddrSet([], S) {
      var q :| q in S && a == PathKey([] + q);
      assert [] + q == q;
    }
    if exists q :: q in S && PathKey(q) == a {
      var q :| q in S && PathKey(q) == a;
      assert [] + q == q;
      assert PathKey([] + q) == a;
    }
  }

  // ---------------------------------------------------------------------------------------
  // A worked case: searching a list of people for "Bob"

  /** An entry `{"id": id, "name": name}`. */
  function Person(id: int, name: string): Node {
    Obj([("id", Scalar(Num(id))), ("name", Scalar(Str(name)))])
  }

  /** `{"items": [{"id": 1, "name": "Alice"}, {"id": 2, "name": "Bob"}]}`. */
  function People(): Node {
    Obj([("items", Arr([Person(1, "Alice"), Person(2, "Bob")]))])
  }

  /**
   * Searching for "Bob" opens the root, the list and Bob's entry, and leaves Alice's entry
   * closed, whatever the serialiser produces for containers.
   */
  lemma SearchForBob(ser: Serializer)
    ensures SearchExpansion(People(), "Bob", ser) == {"root", "root.items", "root.items.2"}
  {
    var ps: set<Path> := {[], [Key("items")], [Key("items"), Index(2)]};
    PeopleOpened(ser);
    ItemsAddresses();
    RootAddresses([], [Key("items")], [Key("items"), Index(2)]);
  }

  lemma ItemsAddresses()
    ensures PathKey([]) == "root"
    ensures PathKey([Key("items")]) == "root.items"
    ensures PathKey([Key("items"), Index(2)]) == "root.items.2"
  {
    KeyThenIndex("items", 2);
    assert PathKeys.NatToString(2) == [PathKeys.Digit(2)] && PathKeys.Digit(2) == '2';
    assert "root." + "items" == "root.items";
    assert "root." + "items" + "." + "2" == "root.items.2";
  }

  lemma RootAddresses(a: Path, b: Path, c: Path)
    ensures AddrSet([], {a, b, c}) == {PathKey(a), PathKey(b), PathKey(c)}
  {
    assert [] + a == a && [] + b == b && [] + c == c;
  }

  /** The addresses of a key and of an index below it. */
  lemma KeyThenIndex(k: string, i: nat)
    ensures PathKey([]) == "root"
    ensures PathKey([Key(k)]) == "root." + k
    ensures PathKey([Key(k), Index(i)]) == "root." + k + "." + PathKeys.NatToString(i)
  {
    var n := PathKeys.NatToString(i);
    assert [Key(k)][1..] == [] && [Index(i)][1..] == [];
    assert Joined([Key(k)]) == "." + k + "";
    assert Joined([Index(i)]) == "." + n + "";
    assert [Key(k), Index(i)][1..] == [Index(i)];
    assert Joined([Key(k), Index(i)]) == "." + k + ("." + n + "");
    assert "root" + ("." + k + ("." + n + "")) == "root." + k + "." + n;
  }

  lemma PeopleOpened(ser: Serializer)
    ensures Opened(People(), "Bob", ser) == {[], [Key("items")], [Key("items"), Index(2)]}
  {
    ItemsOpened(ser);
    MemberOverPair("items", Arr([Person(1, "Alice"), Person(2, "Bob")]), Index(2), "Bob", ser);
  }

  /** An object with a single container member that opens itself and one child below it. */
  lemma MemberOverPair(k: string, x: Node, t: Token, s: string, ser: Serializer)
    requires x.IsContainer() && Has(x, s, ser) && Opened(x, s, ser) == {[], [t]}
    ensures Opened(Obj([(k, x)]), s, ser) == {[], [Key(k)], [Key(k), t]}
  {
    SingleMemberOpened(k, x, s, ser);
    PrefixSetPair(Key(k), [], [t]);
    assert [Key(k)] + [] == [Key(k)];
    assert [Key(k)] + [t] == [Key(k), t];
  }

  lemma PrefixSetPair(t: Token, a: Path, b: Path)
    ensures PrefixSet(t, {a, b}) == {[t] + a, [t] + b}
  {
  }

  lemma ItemsOpened(ser: Serializer)
    ensures Has(Arr([Person(1, "Alice"), Person(2, "Bob")]), "Bob", ser)
    ensures Opened(Arr([Person(1, "Alice"), Person(2, "Bob")]), "Bob", ser) == {[], [Index(2)]}
  {
    NameTexts();
    PersonOpened(1, "Alice", ser);
    PersonOpened(2, "Bob", ser);
    PairOpened(Person(1, "Alice"), Person(2, "Bob"), "Bob", ser);
  }

  /** An object with a single container member whose subtree holds a match. */
  lemma SingleMemberOpened(k: string, x: Node, s: string, ser: Serializer)
    requires x.IsContainer() && Has(x, s, ser)
    ensures Opened(Obj([(k, x)]), s, ser) == PrefixSet(Key(k), Opened(x, s, ser)) + {[], [Key(k)]}
  {
    var n := Obj([(k, x)]);
    assert Children(n)[0] == (Key(k), x);
    assert ChildOpened(n, 0, s, ser) == PrefixSet(Key(k), Opened(x, s, ser)) + {[], [Key(k)]};
    assert OpenedUpTo(n, 1, s, ser) == {} + ChildOpened(n, 0, s, ser);
    assert Opened(n, s, ser) == OpenedUpTo(n, 1, s, ser);
  }

  /** A two-item array whose second item alone holds a match, at its top level. */
  lemma PairOpened(a: Node, b: Node, s: string, ser: Serializer)
    requires !Has(a, s, ser) && Opened(a, s, ser) == {}
    requires Has(b, s, ser) && Opened(b, s, ser) == {[]}
    ensures Has(Arr([a, b]), s, ser)
    ensures Opened(Arr([a, b]), s, ser) == {[], [Index(2)]}
  {
    var n := Arr([a, b]);
    assert Children(n)[0] == (Index(1), a) && Children(n)[1] == (Index(2), b);
    assert PrefixSet(Index(1), {}) == {};
    assert ChildOpened(n, 0, s, ser) == {};
    assert OpenedUpTo(n, 1, s, ser) == {};
    assert PrefixSet(Index(2), {[]}) == {[Index(2)]} by {
      assert [Index(2)] + [] == [Index(2)];
    }
    assert ChildOpened(n, 1, s, ser) == {[Index(2)]} + {[], [Index(2)]};
    assert Opened(n, s, ser) == OpenedUpTo(n, 2, s, ser);
    assert HasUpTo(n, 2, s, ser);
  }

  /** A text without the letter b cannot match "Bob". */
  lemma NoLetterB(text: string)
    requires forall i :: 0 <= i < |text| ==> LowerChar(text[i]) != 'b'
    ensures !Hit(text, "Bob")
  {
    if Hit(text, "Bob") {
      HitNeedsFirstChar(text, "Bob");
    }
  }

  /** An object with two scalar members matches, and is opened, when either member does. */
  lemma TwoScalarsOpened(k1: string, p1: Prim, k2: string, p2: Prim, s: string, ser: Serializer)
    ensures Has(Obj([(k1, Scalar(p1)), (k2, Scalar(p2))]), s, ser)
            == (MatchesHere(s, ser, k1, Scalar(p1)) || MatchesHere(s, ser, k2, Scalar(p2)))
    ensures Opened(Obj([(k1, Scalar(p1)), (k2, Scalar(p2))]), s, ser)
            == if MatchesHere(s, ser, k1, Scalar(p1)) || MatchesHere(s, ser, k2, Scalar(p2)) then {[]} else {}
  {
    var n := Obj([(k1, Scalar(p1)), (k2, Scalar(p2))]);
    assert Children(n)[0] == (Key(k1), Scalar(p1)) && Children(n)[1] == (Key(k2), Scalar(p2));
    assert ChildHits(n, 0, s, ser) == MatchesHere(s, ser, k1, Scalar(p1));
    assert ChildHits(n, 1, s, ser) == MatchesHere(s, ser, k2, Scalar(p2));
    assert HasUpTo(n, 1, s, ser) == ChildHits(n, 0, s, ser);
    assert HasUpTo(n, 2, s, ser) == (HasUpTo(n, 1, s, ser) || ChildHits(n, 1, s, ser));
    assert ChildOpened(n, 0, s, ser) == if MatchesHere(s, ser, k1, Scalar(p1)) then {[]} else {};
    assert ChildOpened(n, 1, s, ser) == if MatchesHere(s, ser, k2, Scalar(p2)) then {[]} else {};
    assert OpenedUpTo(n, 1, s, ser) == {} + ChildOpened(n, 0, s, ser);
    assert OpenedUpTo(n, 2, s, ser) == OpenedUpTo(n, 1, s, ser) + ChildOpened(n, 1, s, ser);
  }

  lemma NameTexts()
    ensures !Hit("id", "Bob") && !Hit("name", "Bob") && !Hit("Alice", "Bob") && Hit("Bob", "Bob")
    ensures !Hit("1", "Bob") && !Hit("2", "Bob")
  {
    NoLetterB("id");
    NoLetterB("name");
    NoLetterB("Alice");
    NoLetterB("1");
    NoLetterB("2");
    HitSelf("Bob");
  }

  /** An entry matches, and is opened, exactly when its name does. */
  lemma PersonOpened(id: nat, name: string, ser: Serializer)
    requires id == 1 || id == 2
    ensures Has(Person(id, name), "Bob", ser) == Hit(name, "Bob")
    ensures Opened(Person(id, name), "Bob", ser) == if Hit(name, "Bob") then {[]} else {}
  {
    IdMisses(id, ser);
    NameDecides(name, ser);
    TwoScalarsOpened("id", Num(id), "name", Str(name), "Bob", ser);
  }

  /** The `id` member of an entry never matches "Bob". */
  lemma IdMisses(id: nat, ser: Serializer)
    requires id == 1 || id == 2
    ensures !MatchesHere("Bob", ser, "id", Scalar(Num(id)))
  {
    NameTexts();
    assert PrimText(Num(id)) == [PathKeys.Digit(id)];
    assert PrimText(Num(id)) == "1" || PrimText(Num(id)) == "2";
  }

  /** The `name` member of an entry matches "Bob" exactly when the name does. */
  lemma NameDecides(name: string, ser: Serializer)
    ensures MatchesHere("Bob", ser, "name", Scalar(Str(name))) == Hit(name, "Bob")
  {
    NameTexts();
    assert PrimText(Str(name)) == name;
  }
}
