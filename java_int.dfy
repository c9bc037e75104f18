/**
 * The pieces of the Java runtime that the artifact name depends on:
 * 32-bit `int` arithmetic, `String.hashCode` (computed over UTF-16 code
 * units), `Math.abs(int)` and `Integer.toString(int)`.
 *
 * A Java `int` is modelled by its 32-bit pattern, a `Word` in [0, 2^32);
 * `+` and `*` wrap around through `% Modulus`, and `Signed` reads a pattern
 * as two's complement.
 */
module JavaInt {

  const Modulus: int := 0x1_0000_0000
  const MinInt: int := -0x8000_0000
  const MaxInt: int := 0x7FFF_FFFF

  /** The bit pattern of a Java `int`. */
  type Word = x: int | 0 <= x < 0x1_0000_0000

  /** A Java `int` value, as a mathematical integer. */
  type Int32 = x: int | -0x8000_0000 <= x <= 0x7FFF_FFFF

  /** 32-bit wrap-around addition. */
  function Add(a: Word, b: Word): (r: Word)
    ensures r == a + b || r == a + b - Modulus
  {
    (a + b) % Modulus
  }

  /** 32-bit wrap-around multiplication by a small constant and addition, as in `31 * h + c`. */
  function MulAdd(a: Word, k: nat, b: Word): Word
  {
    (a * k + b) % Modulus
  }

  /** Java's `^` on two ints. */
  function Xor(a: Word, b: Word): Word
  {
    ((a as bv32) ^ (b as bv32)) as int
  }

  /** The two's-complement reading of a 32-bit pattern. */
  function Signed(x: Word): (r: Int32)
    ensures 0 <= r <==> x < 0x8000_0000
    ensures r == x || r == x - Modulus
  {
    if x < 0x8000_0000 then x else x - Modulus
  }

  /** `Math.abs(int)`: negation wraps, so the most negative int is its own absolute value. */
  function JavaAbs(x: Word): Word
  {
    if x < 0x8000_0000 then x else (Modulus - x) % Modulus
  }

  /** `Math.abs` returns |x| for every int except -2^31, for which it returns -2^31. */
  lemma JavaAbsValue(x: Word)
    ensures Signed(x) != MinInt ==> Signed(JavaAbs(x)) == (if Signed(x) < 0 then -Signed(x) else Signed(x))
    ensures Signed(x) == MinInt ==> Signed(JavaAbs(x)) == MinInt
    ensures Signed(JavaAbs(x)) < 0 <==> x == 0x8000_0000
  {
  }

  // ---------------------------------------------------------------------
  // UTF-16 and String.hashCode
  // ---------------------------------------------------------------------

  /** The UTF-16 code units Java stores for one Unicode scalar value. */
  function Utf16Units(c: char): (us: seq<int>)
    ensures 1 <= |us| <= 2
    ensures |us| == 1 <==> (c as int) < 0x1_0000
    ensures forall i :: 0 <= i < |us| ==> 0 <= us[i] < 0x1_0000
    ensures (c as int) < 0x1_0000 ==> us == [c as int]
  {
    var v := c as int;
    if v < 0x1_0000 then [v]
    else [0xD800 + (v - 0x1_0000) / 0x400, 0xDC00 + (v - 0x1_0000) % 0x400]
  }

  /**
   * Outside the Basic Multilingual Plane a character is a high surrogate
   * followed by a low surrogate, which together encode it.
   */
  lemma Utf16Surrogates(c: char)
    requires (c as int) >= 0x1_0000
    ensures var us := Utf16Units(c);
      0xD800 <= us[0] < 0xDC00 && 0xDC00 <= us[1] < 0xE000 &&
      0x1_0000 + (us[0] - 0xD800) * 0x400 + (us[1] - 0xDC00) == c as int
  {
  }

  /** The UTF-16 code units of a string, i.e. Java's `char[]` for it. */
  function Utf16(s: string): (us: seq<int>)
    ensures |s| <= |us| <= 2 * |s|
    ensures forall i :: 0 <= i < |us| ==> 0 <= us[i] < 0x1_0000
  {
    if s == [] then [] else Utf16(s[..|s| - 1]) + Utf16Units(s[|s| - 1])
  }

  /** Java's `h = 31 * h + unit` over a sequence of code units, in 32-bit arithmetic. */
  function UnitsHash(us: seq<int>): Word
    requires forall i :: 0 <= i < |us| ==> 0 <= us[i] < 0x1_0000
  {
    if us == [] then 0 else MulAdd(UnitsHash(us[..|us| - 1]), 31, us[|us| - 1])
  }

  /** `String.hashCode()`. */
  function StringHash(s: string): Word
  {
    UnitsHash(Utf16(s))
  }

  /** The code units of a concatenation are the concatenation of the code units. */
  lemma {:induction false} Utf16Append(a: string, b: string)
    ensures Utf16(a + b) == Utf16(a) + Utf16(b)
    decreases |b|
  {
    if b == [] {
      assert a + b == a;
    } else {
      var b' := b[..|b| - 1];
      assert (a + b)[..|a + b| - 1] == a + b';
      Utf16Append(a, b');
    }
  }

  /** Appending a Basic Multilingual Plane character takes one more `31 * h + c` step. */
  lemma StringHashSnoc(s: string, c: char)
    requires (c as int) < 0x1_0000
    ensures StringHash(s + [c]) == MulAdd(StringHash(s), 31, c as int)
  {
    assert (s + [c])[..|s|] == s;
  }

  /** For text made only of characters in the Basic Multilingual Plane, the code units are the characters. */
  lemma {:induction false} Utf16OfBmp(s: string)
    requires forall i :: 0 <= i < |s| ==> (s[i] as int) < 0x1_0000
    ensures |Utf16(s)| == |s|
    ensures forall i :: 0 <= i < |s| ==> Utf16(s)[i] == s[i] as int
  {
    if s != [] {
      Utf16OfBmp(s[..|s| - 1]);
    }
  }

  /** 31 to the power e. */
  function Pow31(e: nat): (r: nat)
    ensures r >= 1
  {
    if e == 0 then 1 else 31 * Pow31(e - 1)
  }

  /**
   * The polynomial `String.hashCode` is documented to compute, in unbounded
   * arithmetic: u[0] * 31^(n-1) + u[1] * 31^(n-2) + ... + u[n-1].
   */
  function Poly(us: seq<int>): int
  {
    if us == [] then 0 else us[0] * Pow31(|us| - 1) + Poly(us[1..])
  }

  /** Appending a unit multiplies the polynomial by 31 and adds the unit. */
  lemma {:induction false} PolySnoc(us: seq<int>, u: int)
    ensures Poly(us + [u]) == 31 * Poly(us) + u
    decreases |us|
  {
    if us == [] {
      assert [] + [u] == [u];
    } else {
      assert (us + [u])[1..] == us[1..] + [u];
      PolySnoc(us[1..], u);
      assert us[0] * Pow31(|us|) == 31 * (us[0] * Pow31(|us| - 1));
    }
  }

  /** Reducing before a `31 * h + c` step gives the same 32-bit result as reducing after it. */
  lemma ReduceMulAdd(a: int, k: nat, b: int)
    ensures ((a % Modulus) * k + b) % Modulus == (a * k + b) % Modulus
  {
    var t := (a / Modulus) * k;
    var y := (a % Modulus) * k + b;
    assert a * k + b == y + t * Modulus by {
      assert a == (a / Modulus) * Modulus + a % Modulus;
    }
  }

  /** The `31 * h + c` loop computes the documented polynomial, reduced to 32 bits. */
  lemma {:induction false} UnitsHashPoly(us: seq<int>)
    requires forall i :: 0 <= i < |us| ==> 0 <= us[i] < 0x1_0000
    ensures UnitsHash(us) == Poly(us) % Modulus
    decreases |us|
  {
    if us != [] {
      var init := us[..|us| - 1];
      var u := us[|us| - 1];
      UnitsHashPoly(init);
      assert us == init + [u];
      PolySnoc(init, u);
      ReduceMulAdd(Poly(init), 31, u);
    }
  }

  /** `String.hashCode` is s[0]*31^(n-1) + ... + s[n-1] over the UTF-16 code units, modulo 2^32. */
  lemma StringHashPoly(s: string)
    ensures StringHash(s) == Poly(Utf16(s)) % Modulus
  {
    UnitsHashPoly(Utf16(s));
  }

  // ---------------------------------------------------------------------
  // Integer.toString
  // ---------------------------------------------------------------------

  function DigitChar(d: int): (c: char)
    requires 0 <= d < 10
    ensures '0' <= c <= '9'
  {
    ('0' as int + d) as char
  }

  /** The decimal digits of a natural number, most significant first, no leading zeros. */
  function Digits(n: nat): (s: string)
    ensures |s| >= 1
    ensures forall i :: 0 <= i < |s| ==> '0' <= s[i] <= '9'
    ensures |s| > 1 ==> s[0] != '0'
  {
    if n < 10 then [DigitChar(n)] else Digits(n / 10) + [DigitChar(n % 10)]
  }

  /** `Integer.toString(int)` (also what `x + ""` produces). */
  function DecimalString(n: int): (s: string)
    ensures |s| >= 1
    ensures s[0] == '-' <==> n < 0
  {
    if n < 0 then "-" + Digits(-n) else Digits(n)
  }

  /** The magnitude of the most negative int, written out. */
  lemma DigitsOfMinInt()
    ensures Digits(0x8000_0000) == "2147483648"
  {
    assert Digits(2) == "2";
    assert Digits(21) == "21";
    assert Digits(214) == "214";
    assert Digits(2147) == "2147";
    assert Digits(21474) == "21474";
    assert Digits(214748) == "214748";
    assert Digits(2147483) == "2147483";
    assert Digits(21474836) == "21474836";
    assert Digits(214748364) == "214748364";
  }

  /** `Math.abs(Integer.MIN_VALUE)` prints as a negative number. */
  lemma AbsMinIntString()
    ensures DecimalString(Signed(JavaAbs(0x8000_0000))) == "-2147483648"
  {
    assert JavaAbs(0x8000_0000) == 0x8000_0000;
    assert Signed(0x8000_0000) == -0x8000_0000;
    MinIntString();
  }

  /** `Integer.toString(Integer.MIN_VALUE)`. */
  lemma MinIntString()
    ensures DecimalString(-0x8000_0000) == "-2147483648"
  {
    DigitsOfMinInt();
    assert DecimalString(-0x8000_0000) == "-" + Digits(0x8000_0000);
  }

  /** Reads back a run of decimal digits. */
  function ParseDigits(s: string): nat
    requires forall i :: 0 <= i < |s| ==> '0' <= s[i] <= '9'
  {
    if s == [] then 0 else ParseDigits(s[..|s| - 1]) * 10 + (s[|s| - 1] as int - '0' as int)
  }

  /** Reads back an optionally signed decimal numeral. */
  function ParseDecimal(s: string): int
    requires |s| >= 1
    requires forall i :: (if s[0] == '-' then 1 else 0) <= i < |s| ==> '0' <= s[i] <= '9'
  {
    if s[0] == '-' then 0 - ParseDigits(s[1..]) else ParseDigits(s)
  }

  lemma {:induction false} DigitsRoundTrip(n: nat)
    ensures ParseDigits(Digits(n)) == n
  {
    if n >= 10 {
      var d := Digits(n);
      assert d[..|d| - 1] == Digits(n / 10);
      DigitsRoundTrip(n / 10);
    }
  }

  /** `Integer.toString` is injective: parsing its output gives the number back. */
  lemma DecimalRoundTrip(n: int)
    ensures var s := DecimalString(n);
      (forall i :: (if s[0] == '-' then 1 else 0) <= i < |s| ==> '0' <= s[i] <= '9') &&
      ParseDecimal(s) == n
  {
    var s := DecimalString(n);
    if n < 0 {
      assert s[1..] == Digits(-n);
      DigitsRoundTrip(-n);
    } else {
      DigitsRoundTrip(n);
    }
  }

  /** The hashes of the two strings in the negative-suffix example. */
  lemma KeyHash()
    ensures StringHash("key") == 106079
  {
    assert "k" == [] + ['k'];
    StringHashSnoc([], 'k');
    assert "ke" == "k" + ['e'];
    StringHashSnoc("k", 'e');
    assert "key" == "ke" + ['y'];
    StringHashSnoc("ke", 'y');
  }

  lemma ValueHash()
    ensures StringHash("accdsahv") == 0x80019E5F
  {
    assert "a" == [] + ['a'];
    StringHashSnoc([], 'a');
    assert StringHash("a") == 97;
    assert "ac" == "a" + ['c'];
    StringHashSnoc("a", 'c');
    assert StringHash("ac") == 3106;
    assert "acc" == "ac" + ['c'];
    StringHashSnoc("ac", 'c');
    assert StringHash("acc") == 96385;
    assert "accd" == "acc" + ['d'];
    StringHashSnoc("acc", 'd');
    assert StringHash("accd") == 2988035;
    assert "accds" == "accd" + ['s'];
    StringHashSnoc("accd", 's');
    assert StringHash("accds") == 92629200;
    assert "accdsa" == "accds" + ['a'];
    StringHashSnoc("accds", 'a');
    assert StringHash("accdsa") == 2871505297;
    assert "accdsah" == "accdsa" + ['h'];
    StringHashSnoc("accdsa", 'h');
    assert StringHash("accdsah") == 3117318391;
    assert "accdsahv" == "accdsah" + ['v'];
    StringHashSnoc("accdsah", 'v');
  }
}
