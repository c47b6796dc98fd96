// The pieces of the valibot validation library and of JavaScript regular
// expressions that the schemas under backend/src/schemas/ are built from.
module Valibot {

  /** A value of a parsed JSON request body. JSON has no `undefined` and no
      Date objects. */
  datatype Json =
    | JNull
    | JBool(b: bool)
    | JNum(n: real)
    | JStr(s: string)
    | JArray(elements: seq<Json>)
    | JObject(members: map<string, Json>)

  type RequestBody = map<string, Json>

  /** A key of `object({...})` whose schema is not wrapped in `optional`. */
  predicate RequiredField(body: RequestBody, key: string, valid: Json -> bool)
  {
    key in body && valid(body[key])
  }

  /** A key wrapped in `optional(...)`: absent, or present and valid. */
  predicate OptionalField(body: RequestBody, key: string, valid: Json -> bool)
  {
    key !in body || valid(body[key])
  }

  /** `pipe(string(), ...actions)` */
  predicate StringWhere(j: Json, rule: string -> bool)
  {
    j.JStr? && rule(j.s)
  }

  /** `pipe(number(), ...actions)` */
  predicate NumberWhere(j: Json, rule: real -> bool)
  {
    j.JNum? && rule(j.n)
  }

  /** `boolean()` */
  predicate IsBoolean(j: Json)
  {
    j.JBool?
  }

  /** `date()` accepts only Date objects, and no JSON value is one. */
  predicate IsDate(j: Json)
  {
    false
  }

  predicate AnyString(s: string)
  {
    true
  }

  /** `minLength(n)`, `maxLength(n)`, `nonEmpty()` */
  predicate MinLength(s: string, n: nat)
  {
    |s| >= n
  }

  predicate MaxLength(s: string, n: nat)
  {
    |s| <= n
  }

  predicate NonEmpty(s: string)
  {
    |s| > 0
  }

  predicate IsLower(c: char)
  {
    'a' <= c <= 'z'
  }

  predicate IsUpper(c: char)
  {
    'A' <= c <= 'Z'
  }

  /** `[a-zA-Z]` */
  predicate IsAsciiLetter(c: char)
  {
    IsLower(c) || IsUpper(c)
  }

  /** `[0-9]`, and `\d` without the `u` flag */
  predicate IsDigit(c: char)
  {
    '0' <= c <= '9'
  }

  /** `\s`: the WhiteSpace and LineTerminator code points of ECMAScript. */
  predicate IsWhitespace(c: char)
  {
    || c == '\t' || c == '\n' || c == '\U{B}' || c == '\U{C}' || c == '\r' || c == ' '
    || c == '\U{A0}' || c == '\U{1680}' || ('\U{2000}' <= c <= '\U{200A}')
    || c == '\U{2028}' || c == '\U{2029}' || c == '\U{202F}' || c == '\U{205F}'
    || c == '\U{3000}' || c == '\U{FEFF}'
  }

  /** The characters `.` does not match. */
  predicate IsLineTerminator(c: char)
  {
    c == '\n' || c == '\r' || c == '\U{2028}' || c == '\U{2029}'
  }

  predicate AllChars(s: string, p: char -> bool)
  {
    forall i :: 0 <= i < |s| ==> p(s[i])
  }

  /** `^[class]+$` */
  predicate OneOrMore(s: string, p: char -> bool)
  {
    |s| >= 1 && AllChars(s, p)
  }

  /** `nonEmpty()` adds nothing to a `minLength(n)` with n >= 1. */
  lemma NonEmptyImpliedByMinLength(s: string, n: nat)
    requires n >= 1 && MinLength(s, n)
    ensures NonEmpty(s)
  {
  }
}
