/**
 * `isFlatUniformArray` of frontend/app.js: may a payload be shown as a table?
 * Keys are compared after `Array.prototype.sort`, which orders strings by their characters.
 */
module Classifier {
  import opened JsonModel

  /** Lexicographic order on strings, character by character (the default `sort` comparison). */
  predicate StrLe(a: string, b: string)
    decreases |a|
  {
    a == [] || (b != [] && (a[0] < b[0] || (a[0] == b[0] && StrLe(a[1..], b[1..]))))
  }

  lemma {:induction false} StrLeTotal(a: string, b: string)
    ensures StrLe(a, b) || StrLe(b, a)
    decreases |a|
  {
    if a != [] && b != [] && a[0] == b[0] {
      StrLeTotal(a[1..], b[1..]);
    }
  }

  lemma {:induction false} StrLeAntisymmetric(a: string, b: string)
    requires StrLe(a, b) && StrLe(b, a)
    ensures a == b
    decreases |a|
  {
    if a != [] {
      StrLeAntisymmetric(a[1..], b[1..]);
      assert a == [a[0]] + a[1..] && b == [b[0]] + b[1..];
    }
  }

  lemma {:induction false} StrLeTransitive(a: string, b: string, c: string)
    requires StrLe(a, b) && StrLe(b, c)
    ensures StrLe(a, c)
    decreases |a|
  {
    if a != [] && a[0] == b[0] && b[0] == c[0] {
      StrLeTransitive(a[1..], b[1..], c[1..]);
    }
  }

  /** Every earlier element is at most every later one. */
  predicate Sorted(s: seq<string>) {
    forall i, j :: 0 <= i < j < |s| ==> StrLe(s[i], s[j])
  }

  /** Insert `x` before the first element it does not exceed. */
  function Insert(x: string, s: seq<string>): (r: seq<string>)
    ensures multiset(r) == multiset(s) + multiset{x}
    ensures |r| == |s| + 1
  {
    if s == [] then [x]
    else if StrLe(x, s[0]) then [x] + s
    else (assert s == [s[0]] + s[1..]; [s[0]] + Insert(x, s[1..]))
  }

  /** `keys.sort()`, as an insertion sort. */
  function SortKeys(s: seq<string>): (r: seq<string>)
    ensures multiset(r) == multiset(s)
    ensures |r| == |s|
  {
    if s == [] then [] else (assert s == [s[0]] + s[1..]; Insert(s[0], SortKeys(s[1..])))
  }

  /** A lower bound of a sorted sequence may be put in front of it. */
  lemma ConsSorted(h: string, t: seq<string>)
    requires Sorted(t)
    requires forall j :: 0 <= j < |t| ==> StrLe(h, t[j])
    ensures Sorted([h] + t)
  {
    forall i, j | 0 <= i < j < |[h] + t| ensures StrLe(([h] + t)[i], ([h] + t)[j]) {
      if i > 0 {
        assert ([h] + t)[i] == t[i - 1] && ([h] + t)[j] == t[j - 1];
      } else {
        assert ([h] + t)[j] == t[j - 1];
      }
    }
  }

  /** The tail of a sorted sequence is sorted. */
  lemma TailSorted(s: seq<string>)
    requires Sorted(s) && s != []
    ensures Sorted(s[1..])
  {
    forall i, j | 0 <= i < j < |s[1..]| ensures StrLe(s[1..][i], s[1..][j]) {
      assert s[1..][i] == s[i + 1] && s[1..][j] == s[j + 1];
    }
  }

  /** A lower bound of `x` and of every element of `s` is a lower bound of `Insert(x, s)`. */
  lemma {:induction false} InsertBound(h: string, x: string, s: seq<string>)
    requires StrLe(h, x)
    requires forall j :: 0 <= j < |s| ==> StrLe(h, s[j])
    ensures forall j :: 0 <= j < |Insert(x, s)| ==> StrLe(h, Insert(x, s)[j])
    decreases |s|
  {
    var r := Insert(x, s);
    if s != [] && !StrLe(x, s[0]) {
      var t := Insert(x, s[1..]);
      forall j | 0 <= j < |s[1..]| ensures StrLe(h, s[1..][j]) {
        assert s[1..][j] == s[j + 1];
      }
      InsertBound(h, x, s[1..]);
      assert r == [s[0]] + t;
      forall j | 0 <= j < |r| ensures StrLe(h, r[j]) {
        if j > 0 {
          assert r[j] == t[j - 1];
        }
      }
    } else if s != [] {
      assert r == [x] + s;
      forall j | 0 <= j < |r| ensures StrLe(h, r[j]) {
        if j > 0 {
          assert r[j] == s[j - 1];
        }
      }
    }
  }

  lemma {:induction false} InsertSorted(x: string, s: seq<string>)
    requires Sorted(s)
    ensures Sorted(Insert(x, s))
    decreases |s|
  {
    if s != [] && !StrLe(x, s[0]) {
      StrLeTotal(x, s[0]);
      InsertSorted(x, s[1..]);
      TailSorted(s);
      assert forall j :: 0 <= j < |s[1..]| ==> StrLe(s[0], s[1..][j]) by {
        forall j | 0 <= j < |s[1..]| ensures StrLe(s[0], s[1..][j]) {
          assert s[1..][j] == s[j + 1];
        }
      }
      InsertBound(s[0], x, s[1..]);
      ConsSorted(s[0], Insert(x, s[1..]));
    } else if s != [] {
      forall j | 0 <= j < |s| ensures StrLe(x, s[j]) {
        if j > 0 {
          StrLeTransitive(x, s[0], s[j]);
        }
      }
      ConsSorted(x, s);
    }
  }

  lemma {:induction false} SortKeysSorted(s: seq<string>)
    ensures Sorted(SortKeys(s))
    decreases |s|
  {
    if s != [] {
      SortKeysSorted(s[1..]);
      InsertSorted(s[0], SortKeys(s[1..]));
    }
  }

  /** The first element of a sorted, non-empty sequence is below every element of it. */
  lemma SortedHeadIsLeast(s: seq<string>, x: string)
    requires Sorted(s) && x in multiset(s)
    ensures StrLe(s[0], x)
  {
    var k :| 0 <= k < |s| && s[k] == x;
    if k == 0 {
      StrLeTotal(x, x);
    }
  }

  lemma TailMultiset(s: seq<string>)
    requires s != []
    ensures multiset(s[1..]) == multiset(s) - multiset{s[0]}
  {
    assert s == [s[0]] + s[1..];
  }

  /** A sorted sequence is determined by its multiset of elements. */
  lemma {:induction false} SortedUnique(a: seq<string>, b: seq<string>)
    requires Sorted(a) && Sorted(b) && multiset(a) == multiset(b)
    ensures a == b
    decreases |a|
  {
    assert |a| == |multiset(a)| == |multiset(b)| == |b|;
    if a != [] {
      assert a[0] in multiset(b) by { assert a[0] in a; }
      assert b[0] in multiset(a) by { assert b[0] in b; }
      SortedHeadIsLeast(b, a[0]);
      SortedHeadIsLeast(a, b[0]);
      StrLeAntisymmetric(a[0], b[0]);
      TailMultiset(a);
      TailMultiset(b);
      TailSorted(a);
      TailSorted(b);
      SortedUnique(a[1..], b[1..]);
      assert a == [a[0]] + a[1..] && b == [b[0]] + b[1..];
    }
  }

  /** Two key lists sort to the same list exactly when they hold the same keys. */
  lemma SortKeysEqualIff(a: seq<string>, b: seq<string>)
    ensures SortKeys(a) == SortKeys(b) <==> multiset(a) == multiset(b)
  {
    if multiset(a) == multiset(b) {
      SortKeysSorted(a);
      SortKeysSorted(b);
      SortedUnique(SortKeys(a), SortKeys(b));
    }
  }

  /** A non-null, non-array object. */
  predicate IsPlainObject(n: Node) {
    n.Obj?
  }

  /** `isFlatUniformArray(arr)`. */
  predicate IsFlatUniformArray(n: Node) {
    if !n.Arr? || |n.items| == 0 then false
    else if !IsPlainObject(n.items[0]) then false
    else
      var keys := SortKeys(Keys(n.items[0].props));
      forall i :: 0 <= i < |n.items| ==>
        IsPlainObject(n.items[i]) && SortKeys(Keys(n.items[i].props)) == keys
  }

  /**
   * The classifier accepts exactly the non-empty arrays of plain objects whose members all
   * carry the same keys as the first one (as a multiset, i.e. ignoring order).
   */
  lemma IsFlatUniformArrayIff(n: Node)
    ensures IsFlatUniformArray(n) <==>
      && n.Arr? && |n.items| > 0
      && (forall i :: 0 <= i < |n.items| ==> n.items[i].Obj?)
      && (forall i :: 0 <= i < |n.items| ==>
            multiset(Keys(n.items[i].props)) == multiset(Keys(n.items[0].props)))
  {
    if n.Arr? && |n.items| > 0 && n.items[0].Obj? {
      forall i | 0 <= i < |n.items| && n.items[i].Obj?
        ensures SortKeys(Keys(n.items[i].props)) == SortKeys(Keys(n.items[0].props)) <==>
                multiset(Keys(n.items[i].props)) == multiset(Keys(n.items[0].props))
      {
        SortKeysEqualIff(Keys(n.items[i].props), Keys(n.items[0].props));
      }
    }
  }
}
