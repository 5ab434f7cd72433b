/** The few pieces of java.lang the marshalling engine relies on: the widths of the
    integral primitives and their narrowing, upper-casing, equalsIgnoreCase,
    the decimal rendering of integers and String.hashCode. */
module JavaLang {

  const LONG_MIN: int := -0x8000_0000_0000_0000
  const LONG_MAX: int := 0x7FFF_FFFF_FFFF_FFFF
  const INT_MIN: int := -0x8000_0000
  const INT_MAX: int := 0x7FFF_FFFF

  type Int32 = i: int | INT_MIN <= i <= INT_MAX
  type Int64 = i: int | LONG_MIN <= i <= LONG_MAX

  /** The integral primitive types, each with its width in bits. */
  datatype Width = Byte | Short | Int | Long {
    /** 2^(bits - 1): the first value too large for the type. */
    function Half(): int {
      match this
      case Byte => 0x80
      case Short => 0x8000
      case Int => 0x8000_0000
      case Long => 0x8000_0000_0000_0000
    }
  }

  /** Two's-complement narrowing to the width `w`: what byteValue(), shortValue(),
      intValue() and longValue() do to an integral Number (and what the casts
      (byte), (short), (int) and (long) do). */
  function Wrap(i: int, w: Width): (r: int)
    ensures -w.Half() <= r < w.Half()
    ensures -w.Half() <= i < w.Half() ==> r == i
    ensures (r - i) % (2 * w.Half()) == 0
  {
    var m := i % (2 * w.Half());
    if m >= w.Half() then m - 2 * w.Half() else m
  }

  /** Narrowing twice to the same width is narrowing once. */
  lemma WrapIdempotent(i: int, w: Width)
    ensures Wrap(Wrap(i, w), w) == Wrap(i, w)
  {
  }

  /** A value narrowed to any width is unchanged by longValue(). */
  lemma NarrowedIsLong(i: int, w: Width)
    ensures Wrap(Wrap(i, w), Long) == Wrap(i, w)
  {
    assert w.Half() <= Long.Half();
  }

  /** Upper-casing of one character. Only the ASCII letters are mapped. */
  function UpperCase(c: char): (u: char)
  {
    if 'a' <= c <= 'z' then (c as int - 'a' as int + 'A' as int) as char else c
  }

  /** String.toUpperCase(Locale.ROOT), restricted to the ASCII letters. */
  function ToUpperCase(s: string): (u: string)
    ensures |u| == |s|
    ensures forall i | 0 <= i < |s| :: u[i] == UpperCase(s[i])
  {
    if s == [] then [] else [UpperCase(s[0])] + ToUpperCase(s[1..])
  }

  /** Upper-casing an upper-cased string changes nothing. */
  lemma ToUpperCaseIdempotent(s: string)
    ensures ToUpperCase(ToUpperCase(s)) == ToUpperCase(s)
  {
    var u := ToUpperCase(s);
    assert forall i | 0 <= i < |u| :: ToUpperCase(u)[i] == u[i];
  }

  /** String.equalsIgnoreCase, with case folding restricted to the ASCII letters. */
  predicate EqualsIgnoreCase(a: string, b: string)
  {
    ToUpperCase(a) == ToUpperCase(b)
  }

  function Digit(d: nat): char
    requires d < 10
  {
    ('0' as int + d) as char
  }

  /** The decimal rendering of a natural number, without leading zeros. */
  function NaturalToString(n: nat): (s: string)
    ensures |s| >= 1
    ensures forall k | 0 <= k < |s| :: '0' <= s[k] <= '9'
    decreases n
  {
    if n < 10 then [Digit(n)] else NaturalToString(n / 10) + [Digit(n % 10)]
  }

  /** Long.toString: the decimal rendering of an integer, with a leading '-'
      when it is negative. */
  function IntToString(i: int): (s: string)
    ensures |s| >= 1
    ensures (i < 0) <==> s[0] == '-'
  {
    if i < 0 then "-" + NaturalToString(-i) else NaturalToString(i)
  }

  /** The number a string of decimal digits denotes. */
  function DecimalValue(s: string): int
  {
    if s == [] then 0 else 10 * DecimalValue(s[..|s| - 1]) + (s[|s| - 1] as int - '0' as int)
  }

  /** Long.parseLong on a well-formed decimal string: an optional '-' and digits. */
  function ParseDecimal(s: string): int
  {
    if s != [] && s[0] == '-' then -DecimalValue(s[1..]) else DecimalValue(s)
  }

  /** The rendering of a natural number denotes it and has no leading zero. */
  lemma {:induction false} NaturalToStringDenotes(n: nat)
    ensures DecimalValue(NaturalToString(n)) == n
    ensures NaturalToString(n)[0] == '0' ==> n == 0
    decreases n
  {
    var s := NaturalToString(n);
    if n >= 10 {
      NaturalToStringDenotes(n / 10);
      assert s[..|s| - 1] == NaturalToString(n / 10);
      assert s[0] == NaturalToString(n / 10)[0];
    }
  }

  /** Long.toString and Long.parseLong are inverse: the rendering of every
      integer reads back as that integer. */
  lemma IntToStringParses(i: int)
    ensures ParseDecimal(IntToString(i)) == i
  {
    var s := IntToString(i);
    if i < 0 {
      var t := NaturalToString(-i);
      assert s[1..] == t;
      NaturalToStringDenotes(-i);
    } else {
      NaturalToStringDenotes(i);
    }
  }

  /** The UTF-16 code units of one character, as a Java String stores it: a
      character of the Basic Multilingual Plane is one unit, any other is a
      surrogate pair. */
  function Utf16Units(c: char): (u: seq<int>)
    ensures |u| == if c as int < 0x1_0000 then 1 else 2
    ensures forall k | 0 <= k < |u| :: 0 <= u[k] < 0x1_0000
  {
    if c as int < 0x1_0000 then [c as int]
    else
      var v := c as int - 0x1_0000;
      [0xD800 + v / 0x400, 0xDC00 + v % 0x400]
  }

  /** The code point a surrogate pair, or a single unit, stands for. */
  function DecodeUnits(u: seq<int>): int
  {
    if |u| == 2 then 0x1_0000 + (u[0] - 0xD800) * 0x400 + (u[1] - 0xDC00)
    else if |u| == 1 then u[0]
    else 0
  }

  /** Encoding a character into UTF-16 loses nothing, and a pair is a high
      surrogate followed by a low one. */
  lemma Utf16UnitsDecode(c: char)
    ensures DecodeUnits(Utf16Units(c)) == c as int
    ensures |Utf16Units(c)| == 2 ==>
              0xD800 <= Utf16Units(c)[0] < 0xDC00 && 0xDC00 <= Utf16Units(c)[1] < 0xE000
  {
  }

  /** A string as the UTF-16 code units Java stores. */
  function Utf16(s: string): (u: seq<int>)
    ensures |u| >= |s|
    ensures forall k | 0 <= k < |u| :: 0 <= u[k] < 0x1_0000
  {
    if s == [] then [] else Utf16(s[..|s| - 1]) + Utf16Units(s[|s| - 1])
  }

  /** String.length(): the number of UTF-16 code units. */
  function Length(s: string): nat
  {
    |Utf16(s)|
  }

  /** A Java string has length 1 exactly when it is one character of the Basic
      Multilingual Plane. */
  lemma {:induction false} LengthOne(s: string)
    ensures Length(s) == 1 <==> |s| == 1 && s[0] as int < 0x1_0000
  {
    if |s| >= 2 {
      assert |Utf16(s[..|s| - 1])| >= 1;
    } else if |s| == 1 {
      assert s[..0] == [];
      assert Utf16(s) == Utf16Units(s[0]);
    }
  }

  /** One step of String.hashCode: 31 * h + unit, in 32-bit arithmetic. */
  function HashStep(h: int, unit: int): int
  {
    Wrap(31 * h + unit, Int)
  }

  /** The hash of a sequence of code units, folding HashStep from 0. */
  function HashUnits(u: seq<int>): (h: int)
    ensures INT_MIN <= h <= INT_MAX
  {
    if u == [] then 0 else HashStep(HashUnits(u[..|u| - 1]), u[|u| - 1])
  }

  /** String.hashCode, computed over the UTF-16 code units. */
  function StringHashCode(s: string): (h: int)
    ensures INT_MIN <= h <= INT_MAX
  {
    HashUnits(Utf16(s))
  }

  lemma Utf16Append(s: string, c: char)
    ensures Utf16(s + [c]) == Utf16(s) + Utf16Units(c)
  {
    assert (s + [c])[..|s|] == s;
  }

  lemma HashUnitsAppend(u: seq<int>, x: int)
    ensures HashUnits(u + [x]) == HashStep(HashUnits(u), x)
  {
    assert (u + [x])[..|u|] == u;
  }

  /** Appending one character extends the hash by its code units: one step for
      a character of the Basic Multilingual Plane, two steps (the high, then
      the low surrogate) for any other. */
  lemma StringHashCodeAppend(s: string, c: char)
    ensures var h := StringHashCode(s);
            var u := Utf16Units(c);
            StringHashCode(s + [c]) ==
              if |u| == 1 then HashStep(h, u[0])
              else HashStep(HashStep(h, u[0]), u[1])
  {
    Utf16Append(s, c);
    var p, u := Utf16(s), Utf16Units(c);
    if |u| == 1 {
      assert p + u == p + [u[0]];
      HashUnitsAppend(p, u[0]);
    } else {
      assert p + u == (p + [u[0]]) + [u[1]];
      HashUnitsAppend(p, u[0]);
      HashUnitsAppend(p + [u[0]], u[1]);
    }
  }
}
