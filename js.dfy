/** The few JavaScript value semantics the request handlers depend on. */
module Js {

  /** A value read from a request body or a session: the property may be
      missing (`undefined`), explicitly `null`, or hold a value. */
  datatype JsValue<+T> = Undefined | Null | Defined(value: T)

  /** JavaScript truthiness of a possibly missing string: `undefined`,
      `null` and `""` are falsy, every other string is truthy. */
  predicate Truthy(v: JsValue<string>) {
    v.Defined? && v.value != ""
  }

  /** Number of UTF-16 code units needed for one character. */
  function CodeUnits(c: char): nat {
    if c as int < 0x1_0000 then 1 else 2
  }

  /** `s.length` in JavaScript: strings are sequences of UTF-16 code units,
      so a character outside the Basic Multilingual Plane counts twice. */
  function Utf16Length(s: string): (n: nat)
    ensures |s| <= n <= 2 * |s|
    ensures (forall i :: 0 <= i < |s| ==> s[i] as int < 0x1_0000) ==> n == |s|
    ensures n == 0 <==> s == []
  {
    if s == [] then 0 else CodeUnits(s[0]) + Utf16Length(s[1..])
  }
}
