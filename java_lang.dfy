/** The parts of java.lang that Query relies on: nullable references,
    32-bit `int` arithmetic with two's-complement wrap-around, and
    String's `equals` and documented `hashCode`. */
module JavaLang {

  /** A nullable reference: None stands for Java's null. */
  datatype Option<T> = None | Some(value: T)

  /** A nullable java.lang.String. */
  type JString = Option<string>

  const TWO_32: int := 0x1_0000_0000
  const INT_MIN: int := -0x8000_0000
  const INT_MAX: int := 0x7fff_ffff

  /** Java's `int`. */
  type int32 = x: int | -0x8000_0000 <= x < 0x8000_0000

  /** The `int` that Java's arithmetic yields for the mathematical value x:
      the unique value of the `int` range congruent to x modulo 2^32. */
  function Wrap(x: int): (r: int32)
    ensures (r - x) % TWO_32 == 0
    ensures INT_MIN <= x <= INT_MAX ==> r == x
  {
    var m := x % TWO_32;
    if m <= INT_MAX then m else m - TWO_32
  }

  /** Two mathematical values that agree modulo 2^32 wrap to the same `int`. */
  lemma WrapCongruent(x: int, y: int)
    requires (x - y) % TWO_32 == 0
    ensures Wrap(x) == Wrap(y)
  {
  }

  /** Adding a multiple of 2^32 does not change the residue. */
  lemma ModShift(y: int, k: int)
    ensures (y + k * TWO_32) % TWO_32 == y % TWO_32
  {
  }

  /** Adding a multiple of 2^32 before wrapping changes nothing. */
  lemma WrapShift(x: int, k: int)
    ensures Wrap(x + k * TWO_32) == Wrap(x)
  {
    ModShift(x, k);
    WrapCongruent(x + k * TWO_32, x);
  }

  /** In the three-step hash shape `31^3 + 31^2 * a + 31 * b + t`, the terms
      a and b may be replaced by values congruent to them modulo 2^32
      without changing the wrapped result. */
  lemma WrapCombine(a: int, a': int, b: int, b': int, t: int)
    requires (a - a') % TWO_32 == 0 && (b - b') % TWO_32 == 0
    ensures Wrap(31 * 31 * 31 + 31 * 31 * a + 31 * b + t) == Wrap(31 * 31 * 31 + 31 * 31 * a' + 31 * b' + t)
  {
    var i, j := (a - a') / TWO_32, (b - b') / TWO_32;
    assert a == a' + i * TWO_32;
    assert b == b' + j * TWO_32;
    assert 31 * 31 * a == 31 * 31 * a' + (31 * 31 * i) * TWO_32;
    assert 31 * b == 31 * b' + (31 * j) * TWO_32;
    var x := 31 * 31 * 31 + 31 * 31 * a' + 31 * b' + t;
    assert 31 * 31 * 31 + 31 * 31 * a + 31 * b + t == x + (31 * 31 * i + 31 * j) * TWO_32;
    WrapShift(x, 31 * 31 * i + 31 * j);
  }

  /** Java's `a + b` on two `int`s. */
  function Add(a: int32, b: int32): (r: int32)
    ensures (r - (a + b)) % TWO_32 == 0
  {
    Wrap(a + b)
  }

  /** Java's `a * b` on two `int`s. */
  function Mul(a: int32, b: int32): (r: int32)
    ensures (r - a * b) % TWO_32 == 0
  {
    Wrap(a * b)
  }

  /** One step `p * acc + h` of a Java polynomial hash, where both the
      multiplication and the addition wrap, is the exact value
      `p * acc + h` wrapped once. */
  lemma {:induction false} HashStep(p: int32, acc: int, h: int32)
    ensures Add(Mul(p, Wrap(acc)), h) == Wrap(p * acc + h)
  {
    var w := Wrap(acc);
    var k := (w - acc) / TWO_32;
    assert w == acc + k * TWO_32;
    assert p * w == p * acc + (p * k) * TWO_32;
    var m := Mul(p, w);
    var j := (m - p * w) / TWO_32;
    assert m == p * w + j * TWO_32;
    assert m + h == (p * acc + h) + (p * k + j) * TWO_32;
    WrapShift(p * acc + h, p * k + j);
  }

  /** Java's `String.equals(Object)` with the argument possibly null:
      a null argument is never equal to a string. */
  function StringEquals(s: string, other: JString): (r: bool)
    ensures r <==> other == Some(s)
  {
    other != None && other.value == s
  }

  /** `a == null ? b == null : a.equals(b)`, the null-safe comparison. */
  function NullSafeEquals(a: JString, b: JString): (r: bool)
    ensures r <==> a == b
  {
    match a
    case None => b == None
    case Some(s) => StringEquals(s, b)
  }

  /** 31^n, the weight of a character n places from the end of a string. */
  function Pow31(n: nat): (r: int)
    ensures r >= 1
  {
    if n == 0 then 1 else 31 * Pow31(n - 1)
  }

  /** The documented value of String.hashCode before wrapping:
      s[0]*31^(n-1) + s[1]*31^(n-2) + ... + s[n-1]. */
  function HashPolynomial(s: string): int
  {
    if s == [] then 0 else (s[0] as int) * Pow31(|s| - 1) + HashPolynomial(s[1..])
  }

  /** Appending a character multiplies the documented polynomial by 31 and
      adds the character. */
  lemma {:induction false} HashPolynomialSnoc(s: string, c: char)
    ensures HashPolynomial(s + [c]) == 31 * HashPolynomial(s) + c as int
    decreases |s|
  {
    if s == [] {
      assert [c][1..] == [];
    } else {
      var t := s[1..];
      assert (s + [c])[1..] == t + [c];
      HashPolynomialSnoc(t, c);
      var a := s[0] as int;
      assert Pow31(|s|) == 31 * Pow31(|s| - 1);
      calc {
        HashPolynomial(s + [c]);
        a * Pow31(|s|) + HashPolynomial(t + [c]);
        a * (31 * Pow31(|s| - 1)) + 31 * HashPolynomial(t) + c as int;
        { assert a * (31 * Pow31(|s| - 1)) == 31 * (a * Pow31(|s| - 1)); }
        31 * (a * Pow31(|s| - 1) + HashPolynomial(t)) + c as int;
      }
    }
  }

  /** String.hashCode as the JDK computes it: `h = 31 * h + c` for every
      character c in order, in `int` arithmetic, starting from 0. The result
      is the documented polynomial taken modulo 2^32 in two's complement. */
  function StringHash(s: string): (h: int32)
    ensures h == Wrap(HashPolynomial(s))
    decreases |s|
  {
    if s == [] then 0
    else
      var init, c := s[..|s| - 1], s[|s| - 1];
      assert s == init + [c];
      var acc := StringHash(init);
      HashStep(31, HashPolynomial(init), c as int);
      HashPolynomialSnoc(init, c);
      Add(Mul(31, acc), c as int)
  }

  /** The exact, unwrapped value behind `s == null ? 0 : s.hashCode()`. */
  function ExactHash(s: JString): int
  {
    match s
    case None => 0
    case Some(t) => HashPolynomial(t)
  }

  /** The nullable hash used by Query.hashCode: `s == null ? 0 : s.hashCode()`. */
  function NullSafeHash(s: JString): (h: int32)
    ensures s == None ==> h == 0
    ensures h == Wrap(ExactHash(s))
  {
    match s
    case None => 0
    case Some(t) => StringHash(t)
  }
}
