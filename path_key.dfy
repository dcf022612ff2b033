/**
 * `pathKey` of frontend/app.js: the canonical address of a location is the literal
 * token "root" followed by the path tokens, joined with '.'.
 */
module PathKeys {
  import opened JsonModel

  /** Decimal text of a natural number, as `String(n)` writes it. */
  function NatToString(n: nat): (s: string)
    decreases n
  {
    if n < 10 then [Digit(n)] else NatToString(n / 10) + [Digit(n % 10)]
  }

  function Digit(d: nat): (c: char)
    requires d < 10
  {
    "0123456789"[d]
  }

  /** The text a token contributes to an address (`join` converts indices with `String`). */
  function TokenText(t: Token): string {
    match t
    case Key(k) => k
    case Index(i) => NatToString(i)
  }

  /** `"." + text` for every token, in order. */
  function Joined(path: Path): string
    decreases |path|
  {
    if path == [] then "" else "." + TokenText(path[0]) + Joined(path[1..])
  }

  /** `['root'].concat(path).join('.')`. */
  function PathKey(path: Path): string {
    "root" + Joined(path)
  }

  /** The token texts of a path. */
  function Texts(path: Path): (r: seq<string>)
    ensures |r| == |path|
    ensures forall i :: 0 <= i < |path| ==> r[i] == TokenText(path[i])
  {
    if path == [] then [] else [TokenText(path[0])] + Texts(path[1..])
  }

  /** `s.split('.')`: the pieces between the dots. */
  function Split(s: string): (r: seq<string>)
    ensures |r| >= 1
  {
    if s == [] then [""]
    else if s[0] == '.' then [""] + Split(s[1..])
    else
      var rest := Split(s[1..]);
      [[s[0]] + rest[0]] + rest[1..]
  }

  /** A token text that cannot be confused with a separator. */
  predicate DotFree(s: string) {
    forall i :: 0 <= i < |s| ==> s[i] != '.'
  }

  lemma {:induction false} NatToStringDigits(n: nat)
    ensures |NatToString(n)| >= 1
    ensures forall i :: 0 <= i < |NatToString(n)| ==> '0' <= NatToString(n)[i] <= '9'
    ensures n >= 10 ==> |NatToString(n)| >= 2
    decreases n
  {
    if n >= 10 {
      NatToStringDigits(n / 10);
    }
  }

  /** Index texts never contain the separator. */
  lemma IndexTextDotFree(i: nat)
    ensures DotFree(TokenText(Index(i)))
  {
    NatToStringDigits(i);
  }

  lemma {:induction false} SplitDotFree(s: string)
    requires DotFree(s)
    ensures Split(s) == [s]
    decreases |s|
  {
    if s != [] {
      SplitDotFree(s[1..]);
      assert [s[0]] + s[1..] == s;
    }
  }

  /** Splitting distributes over a separator: `(a + '.' + b).split('.') == a.split('.') ++ b.split('.')`. */
  lemma {:induction false} SplitConcat(a: string, b: string)
    ensures Split(a + "." + b) == Split(a) + Split(b)
    decreases |a|
  {
    if a == [] {
      assert a + "." + b == "." + b;
      assert ("." + b)[1..] == b;
    } else {
      assert (a + "." + b)[0] == a[0];
      assert (a + "." + b)[1..] == a[1..] + "." + b;
      SplitConcat(a[1..], b);
    }
  }

  /** PathKey(p + [t]) extends PathKey(p) by one separator and one token text. */
  lemma {:induction false} PathKeyAppend(p: Path, t: Token)
    ensures PathKey(p + [t]) == PathKey(p) + "." + TokenText(t)
  {
    JoinedAppend(p, t);
  }

  lemma {:induction false} JoinedAppend(p: Path, t: Token)
    ensures Joined(p + [t]) == Joined(p) + "." + TokenText(t)
    decreases |p|
  {
    if p == [] {
      assert [t][1..] == [];
    } else {
      assert (p + [t])[0] == p[0];
      assert (p + [t])[1..] == p[1..] + [t];
      JoinedAppend(p[1..], t);
    }
  }

  lemma {:induction false} SplitJoined(head: string, p: Path)
    requires DotFree(head)
    requires forall i :: 0 <= i < |p| ==> DotFree(TokenText(p[i]))
    ensures Split(head + Joined(p)) == [head] + Texts(p)
    decreases |p|
  {
    if p == [] {
      assert head + Joined(p) == head;
      SplitDotFree(head);
    } else {
      assert head + Joined(p) == head + "." + (TokenText(p[0]) + Joined(p[1..]));
      SplitConcat(head, TokenText(p[0]) + Joined(p[1..]));
      SplitDotFree(head);
      SplitJoined(TokenText(p[0]), p[1..]);
    }
  }

  /**
   * Round trip: splitting an address at its separators gives back "root" and the token
   * texts, provided no object key on the path contains a '.'.
   */
  lemma {:induction false} PathKeySplit(p: Path)
    requires forall i :: 0 <= i < |p| ==> DotFree(TokenText(p[i]))
    ensures Split(PathKey(p)) == ["root"] + Texts(p)
  {
    RootDotFree();
    SplitJoined("root", p);
  }

  /** Hence the address identifies the token texts of the path. */
  lemma PathKeyInjective(p: Path, q: Path)
    requires forall i :: 0 <= i < |p| ==> DotFree(TokenText(p[i]))
    requires forall i :: 0 <= i < |q| ==> DotFree(TokenText(q[i]))
    requires PathKey(p) == PathKey(q)
    ensures Texts(p) == Texts(q)
  {
    PathKeySplit(p);
    PathKeySplit(q);
    assert ["root"] + Texts(p) == ["root"] + Texts(q);
    assert Texts(p) == (["root"] + Texts(p))[1..];
  }

  /** A key that contains the separator makes two different locations share one address. */
  lemma DottedKeyCollision()
    ensures PathKey([Key("a.b")]) == PathKey([Key("a"), Key("b")])
  {
    assert Joined([Key("b")]) == ".b";
    assert Joined([Key("a"), Key("b")]) == ".a.b";
  }

  lemma {:induction false} NatToStringIsOne(n: nat)
    requires NatToString(n) == "1"
    ensures n == 1
  {
    NatToStringDigits(n);
  }

  /** The literal first piece of every address holds no dot. */
  lemma RootDotFree()
    ensures DotFree("root")
  {
    var r := "root";
    assert r[0] == 'r' && r[1] == 'o' && r[2] == 'o' && r[3] == 't';
  }

  /** The first piece of `head + Joined(q)` is `head` itself. */
  lemma {:induction false} SplitFirstPiece(head: string, q: Path)
    requires DotFree(head)
    ensures Split(head + Joined(q))[0] == head
  {
    SplitDotFree(head);
    if q == [] {
      assert head + Joined(q) == head;
    } else {
      var x := TokenText(q[0]) + Joined(q[1..]);
      assert Joined(q) == "." + x;
      assert head + Joined(q) == head + "." + x;
      SplitConcat(head, x);
    }
  }

  lemma {:induction false} AddressSecondPiece(t: Token, q: Path)
    requires DotFree(TokenText(t))
    ensures |Split(PathKey([t] + q))| >= 2
    ensures Split(PathKey([t] + q))[1] == TokenText(t)
  {
    var rest := TokenText(t) + Joined(q);
    assert ([t] + q)[1..] == q;
    assert PathKey([t] + q) == "root" + "." + rest;
    SplitConcat("root", rest);
    RootDotFree();
    SplitDotFree("root");
    SplitFirstPiece(TokenText(t), q);
  }

  /**
   * Addresses under different top-level array elements never coincide: the second piece of
   * the address is the element's index, whatever keys follow. In particular an address below
   * element k (k != 1) of the root array differs from every address below element 1.
   */
  lemma SiblingAddressesDiffer(k: nat, q: Path, r: Path)
    requires k != 1
    ensures PathKey([Index(k)] + q) != PathKey([Index(1)] + r)
  {
    IndexTextDotFree(k);
    IndexTextDotFree(1);
    AddressSecondPiece(Index(k), q);
    AddressSecondPiece(Index(1), r);
    assert NatToString(1) == "1";
    if PathKey([Index(k)] + q) == PathKey([Index(1)] + r) {
      NatToStringIsOne(k);
    }
  }
}
