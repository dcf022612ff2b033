/**
 * The expansion set of frontend/app.js: the set of addresses whose children are rendered.
 * Three ways change it: the initial expansion when a payload arrives (`collectExpandablePaths`),
 * the rebuild from a live search (`walk`), and a single toggle (`togglePath`).
 */
module Expansion {
  import opened Wrappers
  import opened JsonModel
  import opened PathKeys
  import opened Search

  // ---------------------------------------------------------------------------------------
  // Paths and addresses

  /** Every path of `ps`, with `t` in front. */
  function PrefixAll(t: Token, ps: seq<Path>): (r: seq<Path>)
    ensures |r| == |ps|
  {
    if ps == [] then [] else [[t] + ps[0]] + PrefixAll(t, ps[1..])
  }

  /** The addresses of relative paths `ps` below `base`, in order. */
  function Addresses(base: Path, ps: seq<Path>): (r: seq<string>)
    ensures |r| == |ps|
  {
    if ps == [] then [] else [PathKey(base + ps[0])] + Addresses(base, ps[1..])
  }

  lemma {:induction false} AddressesConcat(base: Path, a: seq<Path>, b: seq<Path>)
    ensures Addresses(base, a + b) == Addresses(base, a) + Addresses(base, b)
  {
    if a != [] {
      assert (a + b)[1..] == a[1..] + b;
      AddressesConcat(base, a[1..], b);
    } else {
      assert a + b == b;
    }
  }

  lemma {:induction false} AddressesPrefixed(base: Path, t: Token, ps: seq<Path>)
    ensures Addresses(base, PrefixAll(t, ps)) == Addresses(base + [t], ps)
  {
    if ps != [] {
      AddressesPrefixed(base, t, ps[1..]);
      assert base + ([t] + ps[0]) == (base + [t]) + ps[0];
    }
  }

  // ---------------------------------------------------------------------------------------
  // Initial expansion

  /**
   * The relative paths `collectExpandablePaths` pushes for `n`, in push order: `n` itself when it
   * is a container, then, child by child, the paths found in that child.
   */
  function ContainerPaths(n: Node): seq<Path>
    decreases n, 1
  {
    if n.Scalar? then [] else [[]] + ChildContainerPaths(n, |Children(n)|)
  }

  /** The paths contributed by the first `j` children of `n`. */
  function ChildContainerPaths(n: Node, j: nat): seq<Path>
    requires j <= |Children(n)|
    decreases n, 0, j
  {
    if j == 0 then []
    else
      var (t, c) := Children(n)[j - 1];
      ChildContainerPaths(n, j - 1) + PrefixAll(t, ContainerPaths(c))
  }

  /** One more child visited: its own paths, below its token, come next. */
  lemma ChildContainerPathsStep(base: Path, n: Node, i: nat)
    requires i < |Children(n)|
    ensures Addresses(base, ChildContainerPaths(n, i + 1)) ==
      Addresses(base, ChildContainerPaths(n, i)) +
      Addresses(base + [Children(n)[i].0], ContainerPaths(Children(n)[i].1))
  {
    var (t, c) := Children(n)[i];
    AddressesConcat(base, ChildContainerPaths(n, i), PrefixAll(t, ContainerPaths(c)));
    AddressesPrefixed(base, t, ContainerPaths(c));
  }

  lemma ContainerPathsUnfold(base: Path, n: Node)
    requires n.IsContainer()
    ensures Addresses(base, ContainerPaths(n)) ==
      [PathKey(base)] + Addresses(base, ChildContainerPaths(n, |Children(n)|))
  {
    AddressesConcat(base, [[]], ChildContainerPaths(n, |Children(n)|));
    assert base + [] == base;
  }

  /**
   * `collectExpandablePaths(node, pathArr)`: the container's own address first, then what each
   * child contributes, collected in the order `forEach` / `Object.keys` visit the children.
   */
  method CollectExpandablePaths(node: Node, pathArr: Path) returns (paths: seq<string>)
    ensures paths == Addresses(pathArr, ContainerPaths(node))
    decreases node
  {
    paths := [];
    if node.IsContainer() {
      var head := PathKey(pathArr);
      var ch := Children(node);
      var fromChildren: seq<string> := [];
      var i := 0;
      while i < |ch|
        invariant 0 <= i <= |ch|
        invariant fromChildren == Addresses(pathArr, ChildContainerPaths(node, i))
      {
        var sub := CollectExpandablePaths(ch[i].1, pathArr + [ch[i].0]);
        ChildContainerPathsStep(pathArr, node, i);
        fromChildren := fromChildren + sub;
        i := i + 1;
      }
      ContainerPathsUnfold(pathArr, node);
      paths := [head] + fromChildren;
    }
  }

  /**
   * The expansion set after a new payload: "root", and, when the payload is a non-empty array,
   * every address `collectExpandablePaths` finds in its first element.
   */
  function InitialExpansion(payload: Option<Node>): set<string> {
    if payload.Some? && payload.value.Arr? && |payload.value.items| > 0 then
      {"root"} + (set a | a in Addresses([Index(1)], ContainerPaths(payload.value.items[0])))
    else {"root"}
  }

  /** The initialisation effect: start from {"root"} and add the first item's paths one by one. */
  method BuildInitialExpansion(payload: Option<Node>) returns (init: set<string>)
    ensures init == InitialExpansion(payload)
  {
    init := {"root"};
    if payload.Some? && payload.value.Arr? && |payload.value.items| > 0 {
      var firstItemPaths := CollectExpandablePaths(payload.value.items[0], [Index(1)]);
      var i := 0;
      while i < |firstItemPaths|
        invariant 0 <= i <= |firstItemPaths|
        invariant init == {"root"} + set a | a in firstItemPaths[..i]
      {
        assert firstItemPaths[..i + 1] == firstItemPaths[..i] + [firstItemPaths[i]];
        init := init + {firstItemPaths[i]};
        i := i + 1;
      }
      assert firstItemPaths[..i] == firstItemPaths;
    }
  }

  // ---------------------------------------------------------------------------------------
  // Properties of the initial expansion

  lemma {:induction false} PrefixAllMember(t: Token, ps: seq<Path>, r: Path)
    requires r in ps
    ensures [t] + r in PrefixAll(t, ps)
  {
    if ps[0] != r {
      PrefixAllMember(t, ps[1..], r);
    }
  }

  lemma {:induction false} PrefixAllMemberInv(t: Token, ps: seq<Path>, q: Path) returns (r: Path)
    requires q in PrefixAll(t, ps)
    ensures r in ps && q == [t] + r
  {
    if q == [t] + ps[0] {
      r := ps[0];
    } else {
      r := PrefixAllMemberInv(t, ps[1..], q);
    }
  }

  lemma {:induction false} AddressesMember(base: Path, ps: seq<Path>, q: Path)
    requires q in ps
    ensures PathKey(base + q) in Addresses(base, ps)
  {
    if ps[0] != q {
      AddressesMember(base, ps[1..], q);
    }
  }

  lemma {:induction false} AddressesMemberInv(base: Path, ps: seq<Path>, a: string) returns (q: Path)
    requires a in Addresses(base, ps)
    ensures q in ps && a == PathKey(base + q)
  {
    if a == PathKey(base + ps[0]) {
      q := ps[0];
    } else {
      q := AddressesMemberInv(base, ps[1..], a);
    }
  }

  /** The position among the children of the child a token addresses. */
  function ChildIndex(n: Node, t: Token): (j: nat)
    requires Child(n, t).Some?
    ensures j < |Children(n)| && Children(n)[j] == (t, Child(n, t).value)
  {
    if n.Arr? then t.i - 1 else FindKey(n.props, t.k).value
  }

  /** In a well-formed node, each child's own token addresses that very child. */
  lemma ChildOfToken(n: Node, j: nat)
    requires WellFormed(n) && j < |Children(n)|
    ensures Child(n, Children(n)[j].0) == Some(Children(n)[j].1)
    ensures WellFormed(Children(n)[j].1)
  {
    if n.Obj? {
      var k := n.props[j].0;
      var f := FindKey(n.props, k);
      assert f.Some? && f.value <= j;
    }
  }

  lemma {:induction false} InChildContainerPaths(n: Node, j: nat, jj: nat, r: Path)
    requires jj < j <= |Children(n)|
    requires r in ContainerPaths(Children(n)[jj].1)
    ensures [Children(n)[jj].0] + r in ChildContainerPaths(n, j)
    decreases j
  {
    var (t, c) := Children(n)[j - 1];
    if jj == j - 1 {
      PrefixAllMember(t, ContainerPaths(c), r);
    } else {
      InChildContainerPaths(n, j - 1, jj, r);
    }
  }

  lemma {:induction false} FromChildContainerPaths(n: Node, j: nat, q: Path) returns (jj: nat, r: Path)
    requires j <= |Children(n)|
    requires q in ChildContainerPaths(n, j)
    ensures jj < j && r in ContainerPaths(Children(n)[jj].1) && q == [Children(n)[jj].0] + r
    decreases j
  {
    var (t, c) := Children(n)[j - 1];
    if q in ChildContainerPaths(n, j - 1) {
      jj, r := FromChildContainerPaths(n, j - 1, q);
    } else {
      jj := j - 1;
      r := PrefixAllMemberInv(t, ContainerPaths(c), q);
    }
  }

  lemma AtCons(n: Node, t: Token, r: Path)
    requires Child(n, t).Some?
    ensures At(n, [t] + r) == At(Child(n, t).value, r)
  {
    assert ([t] + r)[0] == t && ([t] + r)[1..] == r;
  }

  /** Every container anywhere below `n` (and `n` itself) is collected. */
  lemma {:induction false} ContainerPathsComplete(n: Node, q: Path)
    requires At(n, q).Some? && At(n, q).value.IsContainer()
    ensures q in ContainerPaths(n)
    decreases q
  {
    if q != [] {
      var c := Child(n, q[0]).value;
      assert q == [q[0]] + q[1..];
      AtCons(n, q[0], q[1..]);
      ContainerPathsComplete(c, q[1..]);
      InChildContainerPaths(n, |Children(n)|, ChildIndex(n, q[0]), q[1..]);
    }
  }

  /** Only containers are collected, never scalars. */
  lemma {:induction false} ContainerPathsSound(n: Node, q: Path)
    requires WellFormed(n)
    requires q in ContainerPaths(n)
    ensures At(n, q).Some? && At(n, q).value.IsContainer()
    decreases n
  {
    if q != [] {
      var jj, r := FromChildContainerPaths(n, |Children(n)|, q);
      ChildOfToken(n, jj);
      AtCons(n, Children(n)[jj].0, r);
      ContainerPathsSound(Children(n)[jj].1, r);
    }
  }

  /** The initial expansion always opens the root. */
  lemma InitialHasRoot(payload: Option<Node>)
    ensures "root" in InitialExpansion(payload)
  {
  }

  /**
   * For a non-empty array payload, the initial expansion opens every container nested anywhere in
   * element 1 (element 1 itself included when it is a container).
   */
  lemma InitialCoversFirstItem(items: seq<Node>, q: Path)
    requires |items| > 0
    requires At(items[0], q).Some? && At(items[0], q).value.IsContainer()
    ensures PathKey([Index(1)] + q) in InitialExpansion(Some(Arr(items)))
  {
    ContainerPathsComplete(items[0], q);
    AddressesMember([Index(1)], ContainerPaths(items[0]), q);
  }

  /**
   * Apart from the root, the initial expansion holds only addresses of containers in element 1:
   * in particular nothing for a scalar element 1, and nothing when the payload is an object.
   */
  lemma InitialSound(payload: Option<Node>, a: string)
    requires payload.Some? ==> WellFormed(payload.value)
    requires a in InitialExpansion(payload) && a != "root"
    ensures payload.Some? && payload.value.Arr? && |payload.value.items| > 0
    ensures exists q ::
              && a == PathKey([Index(1)] + q)
              && At(payload.value.items[0], q).Some?
              && At(payload.value.items[0], q).value.IsContainer()
  {
    var items := payload.value.items;
    var q := AddressesMemberInv([Index(1)], ContainerPaths(items[0]), a);
    ContainerPathsSound(items[0], q);
  }

  /** Sibling items start collapsed: nothing at or below element k >= 2 of the root array is open. */
  lemma InitialExcludesSiblings(payload: Option<Node>, k: nat, q: Path)
    requires k >= 2
    ensures PathKey([Index(k)] + q) !in InitialExpansion(payload)
  {
    var a := PathKey([Index(k)] + q);
    assert |a| > 4 by {
      assert ([Index(k)] + q)[0] == Index(k);
      assert Joined([Index(k)] + q) == "." + TokenText(Index(k)) + Joined(([Index(k)] + q)[1..]);
    }
    if a in InitialExpansion(payload) {
      var items := payload.value.items;
      var r := AddressesMemberInv([Index(1)], ContainerPaths(items[0]), a);
      SiblingAddressesDiffer(k, q, r);
    }
  }

  /** `togglePath(path)`'s updater: flip the address of `path`, keep every other address. */
  function TogglePath(expanded: set<string>, path: Path): (r: set<string>)
    ensures PathKey(path) in r <==> PathKey(path) !in expanded
    ensures forall a :: a != PathKey(path) ==> (a in r <==> a in expanded)
  {
    var key := PathKey(path);
    if key in expanded then expanded - {key} else expanded + {key}
  }

  /** Toggling the same location twice restores the expansion set. */
  lemma ToggleTwice(expanded: set<string>, path: Path)
    ensures TogglePath(TogglePath(expanded, path), path) == expanded
  {
  }

  /** Toggles of locations with different addresses commute. */
  lemma TogglesCommute(expanded: set<string>, p: Path, q: Path)
    ensures TogglePath(TogglePath(expanded, p), q) == TogglePath(TogglePath(expanded, q), p)
  {
  }
}
