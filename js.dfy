/** JavaScript values and operators used by the timeline components, stated exactly. */
module Js {

  /** A UTF-16 code unit: what `String.prototype.charCodeAt` returns. */
  type CodeUnit = c: int | 0 <= c < 0x1_0000

  /** A JavaScript string, seen as its sequence of UTF-16 code units.
      `===` on strings is equality of these sequences. */
  type JsString = seq<CodeUnit>

  datatype Option<+T> = None | Some(value: T)

  /** A string is truthy exactly when it is not empty. */
  predicate Truthy(s: JsString) {
    s != []
  }

  /** `Math.abs` on an integer-valued number. */
  function Abs(x: int): (r: nat)
    ensures r == x || r == -x
  {
    if x < 0 then -x else x
  }

  function Pow2(n: nat): (r: nat)
    ensures r >= 1
  {
    if n == 0 then 1 else 2 * Pow2(n - 1)
  }

  /** The abstract operation ToInt32: the unique 32-bit two's-complement
      value congruent to `x` modulo 2^32. */
  function ToInt32(x: int): (r: int)
    ensures -0x8000_0000 <= r < 0x8000_0000
    ensures (r - x) % 0x1_0000_0000 == 0
  {
    var m := x % 0x1_0000_0000;
    if m >= 0x8000_0000 then m - 0x1_0000_0000 else m
  }

  /** `x << n`: both operands are converted (the count is masked to its low
      five bits), the shift is done on 32 bits and the result is signed. */
  function ShiftLeft(x: int, n: nat): (r: int)
    ensures -0x8000_0000 <= r < 0x8000_0000
    ensures (r - ToInt32(x) * Pow2(n % 32)) % 0x1_0000_0000 == 0
  {
    ToInt32(ToInt32(x) * Pow2(n % 32))
  }

  /** `x << 5` is 32 times `x`, modulo 2^32. */
  lemma ShiftLeftFive(x: int)
    ensures (ShiftLeft(x, 5) - 32 * ToInt32(x)) % 0x1_0000_0000 == 0
  {
    assert Pow2(5) == 32;
    assert 5 % 32 == 5;
    var y := ToInt32(x) * Pow2(5 % 32);
    assert y == 32 * ToInt32(x);
    assert ShiftLeft(x, 5) == ToInt32(y);
  }

  /** Two integers agree after ToInt32 exactly when they are congruent modulo 2^32. */
  lemma ToInt32Congruent(a: int, b: int)
    ensures ToInt32(a) == ToInt32(b) <==> (a - b) % 0x1_0000_0000 == 0
  {
    var M := 0x1_0000_0000;
    var qa, qb := a / M, b / M;
    assert a == qa * M + a % M;
    assert b == qb * M + b % M;
    if (a - b) % M == 0 {
      var k := (a - b) / M;
      assert a - b == k * M;
      assert a % M - b % M == (k - qa + qb) * M;
      assert a % M == b % M;
    }
    if ToInt32(a) == ToInt32(b) {
      assert a % M == b % M;
      assert a - b == (qa - qb) * M;
    }
  }

  /** ToInt32 leaves 32-bit values alone. */
  lemma ToInt32Fixed(x: int)
    requires -0x8000_0000 <= x < 0x8000_0000
    ensures ToInt32(x) == x
  {
    if x < 0 {
      assert x + 0x1_0000_0000 == x % 0x1_0000_0000;
    } else {
      assert x == x % 0x1_0000_0000;
    }
  }

  /** ASCII text as a JavaScript string. */
  function Str(s: string): (r: JsString)
    requires forall i :: 0 <= i < |s| ==> s[i] as int < 0x80
    ensures |r| == |s|
    ensures forall i :: 0 <= i < |s| ==> r[i] == s[i] as int
  {
    seq(|s|, i requires 0 <= i < |s| => s[i] as int)
  }

  /** The property names every plain object literal `{}` inherits from
      `Object.prototype`. Reading one of them from such an object yields a
      function (or, for `__proto__`, the prototype), which is truthy. */
  const ObjectPrototypeNames: set<JsString> := {
    Str("constructor"), Str("hasOwnProperty"), Str("isPrototypeOf"),
    Str("propertyIsEnumerable"), Str("toLocaleString"), Str("toString"),
    Str("valueOf"), Str("__proto__"), Str("__defineGetter__"),
    Str("__defineSetter__"), Str("__lookupGetter__"), Str("__lookupSetter__")
  }
}
