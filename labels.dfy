/**
 * Label resolution of frontend/app.js: `getPropertyTitle`, `getSchemaTitle`, `getItemsSchema`,
 * `getObjectProperties` and `getLabelForKey`. An override map wins, then a schema title that is
 * not blank, then the raw key.
 */
module Labels {
  import opened Wrappers
  import opened JsonModel

  /** Characters `String.prototype.trim` removes (ECMAScript WhiteSpace and LineTerminator). */
  predicate IsTrimmed(c: char) {
    || c == ' ' || c == '\t' || c == '\n' || c == '\r' || c == '\U{000B}' || c == '\U{000C}'
    || c == '\U{00A0}' || c == '\U{FEFF}' || c == '\U{1680}' || ('\U{2000}' <= c <= '\U{200A}')
    || c == '\U{2028}' || c == '\U{2029}' || c == '\U{202F}' || c == '\U{205F}' || c == '\U{3000}'
  }

  function TrimStart(s: string): string
    decreases |s|
  {
    if s != [] && IsTrimmed(s[0]) then TrimStart(s[1..]) else s
  }

  function TrimEnd(s: string): string
    decreases |s|
  {
    if s != [] && IsTrimmed(s[|s| - 1]) then TrimEnd(s[..|s| - 1]) else s
  }

  /** `s.trim()`. */
  function Trim(s: string): string {
    TrimEnd(TrimStart(s))
  }

  /** A title is usable when some character of it is not white space. */
  predicate NonBlank(s: string) {
    exists i :: 0 <= i < |s| && !IsTrimmed(s[i])
  }

  lemma {:induction false} TrimStartKeepsNonBlank(s: string)
    ensures TrimStart(s) == [] <==> !NonBlank(s)
    ensures TrimStart(s) != [] ==> !IsTrimmed(TrimStart(s)[0])
    decreases |s|
  {
    if s != [] && IsTrimmed(s[0]) {
      TrimStartKeepsNonBlank(s[1..]);
      if NonBlank(s) {
        var i :| 0 <= i < |s| && !IsTrimmed(s[i]);
        assert s[1..][i - 1] == s[i];
      }
      if NonBlank(s[1..]) {
        var i :| 0 <= i < |s[1..]| && !IsTrimmed(s[1..][i]);
        assert s[i + 1] == s[1..][i];
      }
    } else if s != [] {
      assert !IsTrimmed(s[0]);
    }
  }

  lemma {:induction false} TrimEndOfNonTrimmedHead(s: string)
    requires s != [] && !IsTrimmed(s[0])
    ensures TrimEnd(s) != []
    decreases |s|
  {
    if IsTrimmed(s[|s| - 1]) {
      assert |s| > 1;
      TrimEndOfNonTrimmedHead(s[..|s| - 1]);
    }
  }

  /** `title.trim()` is truthy exactly when the title is not blank. */
  lemma TrimNonEmptyIff(s: string)
    ensures Trim(s) != "" <==> NonBlank(s)
  {
    TrimStartKeepsNonBlank(s);
    if TrimStart(s) != [] {
      TrimEndOfNonTrimmedHead(TrimStart(s));
    }
  }

  /** `sch.properties[key]`, looked up defensively. */
  function PropertySchema(objSchema: Option<Schema>, key: string): Option<Schema> {
    if objSchema.Some? && objSchema.value.properties.Some? && key in objSchema.value.properties.value
    then Some(objSchema.value.properties.value[key])
    else None
  }

  /** `getPropertyTitle(objSchema, key)`: the member's schema title, when it is a non-blank string. */
  function GetPropertyTitle(objSchema: Option<Schema>, key: string): (r: Option<string>)
    ensures r.Some? <==>
      && PropertySchema(objSchema, key).Some?
      && PropertySchema(objSchema, key).value.title.Some?
      && NonBlank(PropertySchema(objSchema, key).value.title.value)
    ensures r.Some? ==> r.value == PropertySchema(objSchema, key).value.title.value
  {
    match PropertySchema(objSchema, key)
    case None => None
    case Some(ps) =>
      match ps.title
      case None => None
      case Some(t) =>
        TrimNonEmptyIff(t);
        if Trim(t) != "" then Some(t) else None
  }

  /** `getSchemaTitle(sch)`: the node's own title, when it is a non-blank string. */
  function GetSchemaTitle(sch: Option<Schema>): (r: Option<string>)
    ensures r.Some? <==> sch.Some? && sch.value.title.Some? && NonBlank(sch.value.title.value)
    ensures r.Some? ==> r.value == sch.value.title.value
  {
    if sch.Some? && sch.value.title.Some? then
      TrimNonEmptyIff(sch.value.title.value);
      if Trim(sch.value.title.value) != "" then sch.value.title else None
    else None
  }

  /** `getItemsSchema(sch)`. */
  function GetItemsSchema(sch: Option<Schema>): Option<Schema> {
    if sch.Some? then sch.value.items else None
  }

  /** `getObjectProperties(sch)`. */
  function GetObjectProperties(sch: Option<Schema>): Option<map<string, Schema>> {
    if sch.Some? then sch.value.properties else None
  }

  /** A truthy entry of the override map (`keyMapping[key]`). */
  predicate HasOverride(keyMapping: map<string, string>, key: string) {
    key in keyMapping && keyMapping[key] != ""
  }

  /**
   * `getLabelForKey(key, objSchema)`: the override wins; otherwise the parent schema's
   * non-blank `properties[key].title`; otherwise the raw key.
   */
  function GetLabelForKey(keyMapping: map<string, string>, key: string, objSchema: Option<Schema>): (r: string)
    ensures HasOverride(keyMapping, key) ==> r == keyMapping[key]
    ensures !HasOverride(keyMapping, key) && objSchema.Some?
      && objSchema.value.properties.Some? && key in objSchema.value.properties.value
      && objSchema.value.properties.value[key].title.Some?
      && NonBlank(objSchema.value.properties.value[key].title.value)
      ==> r == objSchema.value.properties.value[key].title.value
    ensures !HasOverride(keyMapping, key) && GetPropertyTitle(objSchema, key).None? ==> r == key
  {
    if HasOverride(keyMapping, key) then keyMapping[key]
    else GetPropertyTitle(objSchema, key).GetOr(key)
  }
}
