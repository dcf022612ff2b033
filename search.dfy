/**
 * The text tests of the live search in frontend/app.js: `matchesSearch` and `hasMatchValue`.
 * `JSON.stringify` is not modelled: it is the parameter `ser`. Lower-casing is ASCII only.
 */
module Search {
  import opened JsonModel
  import PathKeys

  /** The serialisation used for containers (and, in `matchesSearch`, for null). */
  type Serializer = Node -> string

  function LowerChar(c: char): char {
    if 'A' <= c <= 'Z' then (c as int + 32) as char else c
  }

  /** `s.toLowerCase()`, restricted to ASCII letters. */
  function Lower(s: string): (r: string)
    ensures |r| == |s|
    ensures forall i :: 0 <= i < |s| ==> r[i] == LowerChar(s[i])
  {
    if s == [] then [] else [LowerChar(s[0])] + Lower(s[1..])
  }

  /** `sub` occurs in `s` at position i. */
  predicate OccursAt(s: string, sub: string, i: nat) {
    i + |sub| <= |s| && s[i..i + |sub|] == sub
  }

  /** `s.startsWith(sub)`, character by character. */
  predicate StartsWith(s: string, sub: string)
    decreases |sub|
  {
    sub == [] || (s != [] && s[0] == sub[0] && StartsWith(s[1..], sub[1..]))
  }

  /** A text starts with `sub` exactly when its first `|sub|` characters are `sub`. */
  lemma {:induction false} StartsWithIff(s: string, sub: string)
    ensures StartsWith(s, sub) <==> |sub| <= |s| && s[..|sub|] == sub
    decreases |sub|
  {
    if sub != [] && s != [] {
      StartsWithIff(s[1..], sub[1..]);
      assert sub == [sub[0]] + sub[1..];
      if |sub| <= |s| {
        assert s[..|sub|] == [s[0]] + s[1..][..|sub| - 1];
      }
    }
  }

  /** `s.includes(sub)`. */
  predicate Contains(s: string, sub: string)
    decreases |s|
  {
    StartsWith(s, sub) || (s != [] && Contains(s[1..], sub))
  }

  /** `includes` holds exactly when the text occurs at some position. */
  lemma {:induction false} ContainsIff(s: string, sub: string)
    ensures Contains(s, sub) <==> exists i :: 0 <= i <= |s| && OccursAt(s, sub, i)
    decreases |s|
  {
    if s != [] {
      ContainsIff(s[1..], sub);
      StartsWithIff(s, sub);
      if |sub| <= |s| && s[..|sub|] == sub {
        assert OccursAt(s, sub, 0);
      }
      if exists i :: 0 <= i <= |s[1..]| && OccursAt(s[1..], sub, i) {
        var i :| 0 <= i <= |s[1..]| && OccursAt(s[1..], sub, i);
        assert s[i + 1..i + 1 + |sub|] == s[1..][i..i + |sub|];
        assert OccursAt(s, sub, i + 1);
      }
      if exists i :: 0 <= i <= |s| && OccursAt(s, sub, i) {
        var i :| 0 <= i <= |s| && OccursAt(s, sub, i);
        if i > 0 {
          assert s[1..][i - 1..i - 1 + |sub|] == s[i..i + |sub|];
          assert OccursAt(s[1..], sub, i - 1);
        } else {
          assert s[..|sub|] == s[0..|sub|];
        }
      }
    } else if Contains(s, sub) || exists i :: 0 <= i <= |s| && OccursAt(s, sub, i) {
      StartsWithIff(s, sub);
      assert sub == [];
      assert OccursAt(s, sub, 0);
    }
  }

  /** A text matches only if it holds the search text's first letter, case aside. */
  lemma HitNeedsFirstChar(text: string, search: string)
    requires search != "" && Hit(text, search)
    ensures exists i :: 0 <= i < |text| && LowerChar(text[i]) == LowerChar(search[0])
  {
    ContainsIff(Lower(text), Lower(search));
    var i :| 0 <= i <= |Lower(text)| && OccursAt(Lower(text), Lower(search), i);
    assert Lower(text)[i] == Lower(text)[i..i + |search|][0];
  }

  /** Every text matches itself. */
  lemma HitSelf(text: string)
    ensures Hit(text, text)
  {
    StartsWithIff(Lower(text), Lower(text));
    assert Lower(text)[..|Lower(text)|] == Lower(text);
  }

  /** `String(v)` for a scalar. */
  function PrimText(p: Prim): string {
    match p
    case Null => "null"
    case Bool(b) => if b then "true" else "false"
    case Num(n) => if n < 0 then "-" + PathKeys.NatToString(-n) else PathKeys.NatToString(n)
    case Str(s) => s
  }

  /** Case-insensitive `text.includes(search)`. */
  predicate Hit(text: string, search: string) {
    Contains(Lower(text), Lower(search))
  }

  /**
   * `hasMatchValue(val)`: a non-null object or array is tested through its serialisation,
   * anything else through `String(val)`.
   */
  predicate HasMatchValue(search: string, ser: Serializer, v: Node) {
    if v.IsContainer() then Hit(ser(v), search)
    else Hit(PrimText(v.p), search)
  }

  /**
   * `matchesSearch(key, value)`: true when there is no search text, when the key matches, or
   * when the value matches; here `typeof null === 'object'`, so null goes through `ser`.
   */
  predicate MatchesSearch(search: string, ser: Serializer, key: string, v: Node) {
    if search == "" then true
    else if Hit(key, search) then true
    else if v.IsTypeofObject() then Hit(ser(v), search)
    else Hit(PrimText(v.p), search)
  }
}
