/** String normalisation the handlers rely on: JavaScript's `trim()`, and
    case-insensitive comparison through a given case mapping. */
module Text {
  import opened Api

  /** The characters `String.prototype.trim` strips: ECMAScript WhiteSpace
      (tab, VT, FF, space, NBSP, BOM, the Zs separators) and LineTerminator. */
  predicate IsSpace(c: char) {
    || c == '\t' || c == '\n' || c == '\U{B}' || c == '\U{C}' || c == '\r' || c == ' '
    || c == '\U{A0}' || c == '\U{1680}' || ('\U{2000}' <= c <= '\U{200A}')
    || c == '\U{2028}' || c == '\U{2029}' || c == '\U{202F}' || c == '\U{205F}'
    || c == '\U{3000}' || c == '\U{FEFF}'
  }

  function TrimStart(s: string): (r: string)
    ensures |r| <= |s| && r == s[|s| - |r|..]
    ensures r == [] || !IsSpace(r[0])
    ensures forall i :: 0 <= i < |s| - |r| ==> IsSpace(s[i])
  {
    if s == [] || !IsSpace(s[0]) then s else TrimStart(s[1..])
  }

  function TrimEnd(s: string): (r: string)
    ensures |r| <= |s| && r == s[..|r|]
    ensures r == [] || !IsSpace(r[|r| - 1])
    ensures forall i :: |r| <= i < |s| ==> IsSpace(s[i])
  {
    if s == [] || !IsSpace(s[|s| - 1]) then s else TrimEnd(s[..|s| - 1])
  }

  /** `s.trim()`: `s` without the white space at either end. */
  function Trim(s: string): (r: string)
    ensures |r| <= |s|
    ensures r == [] || (!IsSpace(r[0]) && !IsSpace(r[|r| - 1]))
  {
    TrimEnd(TrimStart(s))
  }

  /** Trimming twice is trimming once, so a value the validator already
      trimmed is stored unchanged by the handler's second `.trim()`. */
  lemma TrimIdempotent(s: string)
    ensures Trim(Trim(s)) == Trim(s)
  {
    var t := Trim(s);
    if t != [] {
      assert TrimStart(t) == t;
      assert TrimEnd(t) == t;
    }
  }

  /** A case mapping of whole strings, such as JavaScript's full Unicode
      `toLowerCase()` or `toUpperCase()`; it may change a string's length
      ("ß" upper-cases to "SS"), so the model takes it as a parameter. */
  type CaseMap = string -> string

  /** Case-insensitive equality, `a.toLowerCase() === b.toLowerCase()`,
      for the case mapping `lower`. */
  predicate SameFolded(lower: CaseMap, a: string, b: string) {
    lower(a) == lower(b)
  }

  /** JavaScript truthiness of a string: only the empty string is falsy. */
  predicate Truthy(s: string) { s != [] }

  /** A missing field as the validators see it: the empty string. */
  function OrEmpty(s: Option<string>): string {
    if s.Some? then s.value else ""
  }

  /** `x?.trim() || null`: an optional field trimmed, or null when absent
      or blank. */
  function NullIfBlank(x: Option<string>): (r: Option<string>)
    ensures r.None? <==> x.None? || Trim(x.value) == []
  {
    if x.Some? && Trim(x.value) != [] then Some(Trim(x.value)) else None
  }

  /** The validators' trim sanitizer, applied in place to a present field. */
  function Sanitized(x: Option<string>): Option<string> {
    if x.Some? then Some(Trim(x.value)) else None
  }

  /** Nulling a blank value twice, or after sanitizing, changes nothing. */
  lemma NullIfBlankIdempotent(x: Option<string>)
    ensures NullIfBlank(NullIfBlank(x)) == NullIfBlank(x)
    ensures NullIfBlank(Sanitized(x)) == NullIfBlank(x)
  {
    if x.Some? {
      TrimIdempotent(x.value);
    }
  }
}
