/** The characters of a formatted integer, as _ntoa_long and _ntoa_format put them together. */
module Numerals {
  import opened Words

  const SCRATCH: nat := 32       // size of the scratch buffer

  datatype Flags = Flags(zeropad: bool, left: bool, plus: bool, space: bool, hash: bool, upper: bool,
                         char8: bool, short: bool, long: bool, longLong: bool, precision: bool)

  const NO_FLAGS := Flags(false, false, false, false, false, false, false, false, false, false, false)

  function DigitChar(d: nat, upper: bool): (r: char)
    requires d < 16
  {
    if d < 10 then '0' + d as char else (if upper then 'A' else 'a') + (d - 10) as char
  }

  /** The bases there are conversions for; the arithmetic is written out for each. */
  predicate Base(base: nat) {
    base == 2 || base == 8 || base == 10 || base == 16
  }

  function Times(base: nat, v: nat): (r: nat)
    requires Base(base)
  {
    if base == 2 then 2 * v else if base == 8 then 8 * v else if base == 10 then 10 * v else 16 * v
  }

  function Rest(value: nat, base: nat): (r: nat)
    requires Base(base)
  {
    if base == 2 then value / 2 else if base == 8 then value / 8 else if base == 10 then value / 10 else value / 16
  }

  function Last(value: nat, base: nat): (d: nat)
    requires Base(base)
    ensures d < base && value == Times(base, Rest(value, base)) + d
  {
    if base == 2 then value % 2 else if base == 8 then value % 8 else if base == 10 then value % 10 else value % 16
  }

  /** The digits of a number, least significant first. */
  function Digits(value: nat, base: nat, upper: bool): (r: string)
    requires Base(base)
    decreases value
  {
    [DigitChar(Last(value, base), upper)] + if value < base then "" else Digits(Rest(value, base), base, upper)
  }

  function CharValue(c: char): (r: nat) {
    if '0' <= c <= '9' then (c - '0') as nat
    else if 'a' <= c <= 'f' then (c - 'a') as nat + 10
    else if 'A' <= c <= 'F' then (c - 'A') as nat + 10
    else 16
  }

  /** The number that a row of digits denotes, least significant first. */
  function ValueOf(s: string, base: nat): (r: nat)
    requires Base(base)
  {
    if s == "" then 0 else CharValue(s[0]) + Times(base, ValueOf(s[1..], base))
  }

  lemma DigitCharValue(d: nat, upper: bool)
    requires d < 16
    ensures CharValue(DigitChar(d, upper)) == d
  {
  }

  lemma ValueCons(c: char, s: string, base: nat)
    requires Base(base)
    ensures ValueOf([c] + s, base) == CharValue(c) + Times(base, ValueOf(s, base))
  {
    assert ([c] + s)[1..] == s;
  }

  /** The digits denote the number, and each is below the base. */
  lemma {:induction false} DigitsDenote(value: nat, base: nat, upper: bool)
    requires Base(base)
    ensures var s := Digits(value, base, upper);
      s != "" && ValueOf(s, base) == value && forall c <- s :: CharValue(c) < base
    decreases value
  {
    var rest := if value < base then "" else Digits(Rest(value, base), base, upper);
    DigitCharValue(Last(value, base), upper);
    ValueCons(DigitChar(Last(value, base), upper), rest, base);
    if value >= base {
      DigitsDenote(Rest(value, base), base, upper);
    }
  }

  /** A number below 2^n has at most n digits in any base. */
  lemma {:induction false} DigitsFit(value: nat, base: nat, upper: bool, n: nat)
    requires Base(base) && 0 < n && value < Pow2(n)
    ensures |Digits(value, base, upper)| <= n
    decreases value
  {
    if value >= base {
      assert n > 1 by {
        assert Pow2(1) == 2 * Pow2(0);
      }
      DigitsFit(Rest(value, base), base, upper, n - 1);
    }
  }

  /** So a 32-bit number fits the scratch buffer. */
  lemma WordDigits(value: nat, base: nat, upper: bool)
    requires value < WORD && Base(base)
    ensures 0 < |Digits(value, base, upper)| <= SCRATCH
  {
    assert Pow2(8) == 256;
    assert Pow2(16) == 65536;
    assert Pow2(24) == 0x100_0000;
    DigitsFit(value, base, upper, 32);
  }

  // ---- padding, sign and prefix ----

  function Repeat(c: char, n: int): (s: string)
    ensures |s| == (if n < 0 then 0 else n) && forall i :: 0 <= i < |s| ==> s[i] == c
  {
    seq(if n < 0 then 0 else n, _ => c)
  }

  /** Zeros up to length n, as far as the scratch buffer goes. */
  function ZerosTo(s: string, n: nat): (r: string) {
    s + Repeat('0', Least(n, SCRATCH) - |s|)
  }

  /** The width left when a sign takes one place. */
  function Narrowed(width: nat, negative: bool, f: Flags): (r: nat) {
    if !f.left && 0 < width && f.zeropad && (negative || f.plus || f.space) then width - 1 else width
  }

  function Zeroed(digits: string, prec: nat, width: nat, f: Flags): (r: string) {
    if f.left then digits else
      var s := ZerosTo(digits, prec);
      if f.zeropad then ZerosTo(s, width) else s
  }

  function Capped(s: string, c: char): (r: string) {
    if |s| < SCRATCH then s + [c] else s
  }

  /** The prefix for '#'; a number as long as its width or precision first loses digits. */
  function Prefixed(s: string, base: nat, prec: nat, width: nat, f: Flags): (r: string) {
    if !f.hash then s else
      var cut := !f.precision && s != "" && (|s| == prec || |s| == width);
      var t := if !cut then s else if |s| > 1 && base == 16 then s[..|s| - 2] else s[..|s| - 1];
      var u := if base == 16 then Capped(t, if f.upper then 'X' else 'x') else if base == 2 then Capped(t, 'b') else t;
      Capped(u, '0')
  }

  function Signed(s: string, negative: bool, f: Flags): (r: string) {
    if negative then Capped(s, '-') else if f.plus then Capped(s, '+') else if f.space then Capped(s, ' ') else s
  }

  /** The scratch buffer in the end, to be read backwards. */
  function Scratch(value: nat, negative: bool, base: nat, prec: nat, width: nat, f: Flags): (r: string)
    requires Base(base)
  {
    var digits := Bare(value, base, f);
    var g := f.(hash := f.hash && value != 0);
    var w := Narrowed(width, negative, f);
    Signed(Prefixed(Zeroed(digits, prec, w, f), base, prec, w, g), negative, f)
  }

  function Reversed(s: string): (r: string)
    ensures |r| == |s|
  {
    if s == "" then "" else [s[|s| - 1]] + Reversed(s[..|s| - 1])
  }

  /** Spaces before or behind up to the width. */
  function Aligned(s: string, width: nat, f: Flags): (r: string) {
    (if !f.left && !f.zeropad then Repeat(' ', width - |s|) else "") + Reversed(s)
      + (if f.left then Repeat(' ', width - |s|) else "")
  }

  /** What an integer conversion writes. */
  function NumberText(value: nat, negative: bool, base: nat, prec: nat, width: nat, f: Flags): (r: string)
    requires Base(base)
  {
    Aligned(Scratch(value, negative, base, prec, width, f), Narrowed(width, negative, f), f)
  }

  /** Only the prefix looks at '#'. */
  lemma HashIgnored(s: string, prec: nat, width: nat, negative: bool, f: Flags, g: Flags)
    requires g == f.(hash := g.hash)
    ensures Narrowed(width, negative, g) == Narrowed(width, negative, f)
    ensures Zeroed(s, prec, width, g) == Zeroed(s, prec, width, f)
    ensures Signed(s, negative, g) == Signed(s, negative, f)
    ensures Aligned(s, width, g) == Aligned(s, width, f)
  {
  }

  /** The number 0 goes without '#'. */
  lemma {:induction false} NumberTextIs(value: nat, negative: bool, base: nat, prec: nat, width: nat, f: Flags)
    requires Base(base)
    ensures var g, w := f.(hash := f.hash && value != 0), Narrowed(width, negative, f);
      && Narrowed(width, negative, g) == w && Bare(value, base, g) == Bare(value, base, f)
      && NumberText(value, negative, base, prec, width, f) ==
        Aligned(Signed(Prefixed(Zeroed(Bare(value, base, f), prec, w, g), base, prec, w, g), negative, g), w, g)
  {
    var g, w := f.(hash := f.hash && value != 0), Narrowed(width, negative, f);
    var bare := Bare(value, base, f);
    HashIgnored(bare, prec, w, negative, f, g);
    HashIgnored(bare, prec, width, negative, f, g);
    var prefixed := Prefixed(Zeroed(bare, prec, w, g), base, prec, w, g);
    HashIgnored(prefixed, prec, w, negative, f, g);
    HashIgnored(Signed(prefixed, negative, g), prec, w, negative, f, g);
    assert Scratch(value, negative, base, prec, width, f) == Signed(prefixed, negative, g);
  }

  // ---- what the text means ----

  lemma {:induction false} ZerosDenote(s: string, n: nat, base: nat)
    requires Base(base)
    ensures ValueOf(s + Repeat('0', n), base) == ValueOf(s, base)
  {
    if s == "" {
      if n > 0 {
        assert Repeat('0', n)[1..] == Repeat('0', n - 1);
        ZerosDenote("", n - 1, base);
        assert "" + Repeat('0', n) == Repeat('0', n) && "" + Repeat('0', n - 1) == Repeat('0', n - 1);
        assert ValueOf("", base) == 0;
      } else {
        assert "" + Repeat('0', n) == "";
      }
    } else {
      assert (s + Repeat('0', n))[1..] == s[1..] + Repeat('0', n);
      ZerosDenote(s[1..], n, base);
    }
  }

  lemma {:induction false} ZerosToDenote(s: string, n: nat, base: nat)
    requires Base(base)
    ensures ValueOf(ZerosTo(s, n), base) == ValueOf(s, base) && |ZerosTo(s, n)| >= |s|
    ensures |s| <= SCRATCH ==> |ZerosTo(s, n)| <= SCRATCH
  {
    var k: int := Least(n, SCRATCH) - |s|;
    if k > 0 {
      ZerosDenote(s, k, base);
    } else {
      assert s + Repeat('0', k) == s;
    }
  }

  lemma ZeroedDenotes(s: string, prec: nat, width: nat, f: Flags, base: nat)
    requires Base(base) && |s| <= SCRATCH
    ensures ValueOf(Zeroed(s, prec, width, f), base) == ValueOf(s, base) && |Zeroed(s, prec, width, f)| <= SCRATCH
  {
    ZerosToDenote(s, prec, base);
    ZerosToDenote(ZerosTo(s, prec), width, base);
  }

  /** The digits before padding; precision 0 writes none for 0. */
  function Bare(value: nat, base: nat, f: Flags): (r: string)
    requires Base(base)
  {
    if !f.precision || value != 0 then Digits(value, base, f.upper) else ""
  }

  lemma BareDenotes(value: nat, base: nat, f: Flags)
    requires value < WORD && Base(base)
    ensures ValueOf(Bare(value, base, f), base) == value && |Bare(value, base, f)| <= SCRATCH
  {
    WordDigits(value, base, f.upper);
    DigitsDenote(value, base, f.upper);
    assert ValueOf("", base) == 0;
  }

  /** Without '#' the scratch buffer holds digits that denote the number in its base, and then
      the sign, if there is room for it. */
  lemma ScratchDenotes(value: nat, negative: bool, base: nat, prec: nat, width: nat, f: Flags) returns (digits: string)
    requires value < WORD && Base(base) && !f.hash
    ensures ValueOf(digits, base) == value && |digits| <= SCRATCH
    ensures Scratch(value, negative, base, prec, width, f) == Signed(digits, negative, f)
  {
    BareDenotes(value, base, f);
    var w := Narrowed(width, negative, f);
    ZeroedDenotes(Bare(value, base, f), prec, w, f, base);
    digits := Zeroed(Bare(value, base, f), prec, w, f);
  }

  // ---- reading a number ----

  function WithoutSpaces(t: string): (s: string) {
    if t != "" && t[0] == ' ' then WithoutSpaces(t[1..]) else t
  }

  /** The digits at the start of the text, most significant first, added to those read before. */
  function Read(t: string, base: nat, n: nat): (m: nat)
    requires Base(base)
  {
    if t != "" && CharValue(t[0]) < base then Read(t[1..], base, Times(base, n) + CharValue(t[0])) else n
  }

  /** The integer that a text of spaces, a sign and digits stands for. */
  function Denoted(t: string, base: nat): (v: int)
    requires Base(base)
  {
    var s := WithoutSpaces(t);
    if s != "" && s[0] == '-' then -(Read(s[1..], base, 0) as int)
    else if s != "" && s[0] == '+' then Read(s[1..], base, 0)
    else Read(s, base, 0)
  }

  predicate DigitsOf(s: string, base: nat) {
    forall c <- s :: CharValue(c) < base
  }

  lemma {:induction false} ReversedCons(c: char, s: string)
    ensures Reversed([c] + s) == Reversed(s) + [c]
  {
    if s == "" {
      assert [c] + s == [c] && [c][..0] == "";
    } else {
      var l := |s| - 1;
      ReversedCons(c, s[..l]);
      assert ([c] + s)[..|[c] + s| - 1] == [c] + s[..l];
    }
  }

  lemma ReversedLast(s: string, c: char)
    ensures Reversed(s + [c]) == [c] + Reversed(s)
  {
    assert (s + [c])[..|s|] == s;
  }

  lemma {:induction false} ReversedDigits(s: string, base: nat)
    requires DigitsOf(s, base)
    ensures DigitsOf(Reversed(s), base)
  {
    if s != "" {
      ReversedDigits(s[..|s| - 1], base);
    }
  }

  lemma {:induction false} ReadGoesOn(s: string, t: string, base: nat, n: nat)
    requires Base(base) && DigitsOf(s, base)
    ensures Read(s + t, base, n) == Read(t, base, Read(s, base, n))
  {
    if s == "" {
      assert s + t == t;
    } else {
      assert (s + t)[1..] == s[1..] + t && CharValue(s[0]) < base;
      ReadGoesOn(s[1..], t, base, Times(base, n) + CharValue(s[0]));
    }
  }

  /** Read backwards, a row of digits gives the number it denotes. */
  lemma {:induction false} ReadReversed(s: string, base: nat)
    requires Base(base) && DigitsOf(s, base)
    ensures Read(Reversed(s), base, 0) == ValueOf(s, base)
  {
    if s != "" {
      var rest, c := s[1..], s[0];
      assert s == [c] + rest && CharValue(c) < base && [c][1..] == "";
      ReadReversed(rest, base);
      ReversedCons(c, rest);
      ReversedDigits(rest, base);
      ReadGoesOn(Reversed(rest), [c], base, 0);
      var n := Read(Reversed(rest), base, 0);
      assert Read([c], base, n) == Read("", base, Times(base, n) + CharValue(c));
    }
  }

  lemma {:induction false} SpacesSkipped(n: int, t: string)
    ensures WithoutSpaces(Repeat(' ', n) + t) == WithoutSpaces(t)
  {
    var s := Repeat(' ', n);
    if n <= 0 {
      assert s + t == t;
    } else {
      assert (s + t)[1..] == Repeat(' ', n - 1) + t && (s + t)[0] == ' ';
      SpacesSkipped(n - 1, t);
    }
  }

  lemma {:induction false} OnlySpaces(n: int)
    ensures WithoutSpaces(Repeat(' ', n)) == ""
  {
    SpacesSkipped(n, "");
    assert Repeat(' ', n) + "" == Repeat(' ', n);
  }

  /** Spaces behind the digits do not matter. */
  lemma {:induction false} ReadBeforeSpaces(s: string, n: int, base: nat)
    requires Base(base) && DigitsOf(s, base)
    ensures Read(s + Repeat(' ', n), base, 0) == Read(s, base, 0)
  {
    ReadGoesOn(s, Repeat(' ', n), base, 0);
  }

  /** Digits without a sign, spaces around them. */
  lemma {:induction false} BareDenoted(s: string, front: int, behind: int, base: nat)
    requires Base(base) && DigitsOf(s, base)
    ensures Denoted(Repeat(' ', front) + s + Repeat(' ', behind), base) == Read(s, base, 0)
  {
    var t := s + Repeat(' ', behind);
    assert Repeat(' ', front) + s + Repeat(' ', behind) == Repeat(' ', front) + t;
    SpacesSkipped(front, t);
    if s == "" {
      assert t == Repeat(' ', behind);
      OnlySpaces(behind);
    } else {
      assert CharValue(s[0]) < base && t[0] == s[0];
      assert WithoutSpaces(t) == t;
      ReadBeforeSpaces(s, behind, base);
    }
  }

  /** A sign, digits, and spaces around them. */
  lemma {:induction false} SignedDenoted(c: char, s: string, front: int, behind: int, base: nat)
    requires Base(base) && DigitsOf(s, base) && (c == '-' || c == '+' || c == ' ')
    ensures Denoted(Repeat(' ', front) + ([c] + s) + Repeat(' ', behind), base) ==
      if c == '-' then -(Read(s, base, 0) as int) else Read(s, base, 0)
  {
    var rest := s + Repeat(' ', behind);
    var t := [c] + rest;
    assert Repeat(' ', front) + ([c] + s) + Repeat(' ', behind) == Repeat(' ', front) + t;
    SpacesSkipped(front, t);
    assert t[1..] == rest;
    if c == ' ' {
      BareDenoted(s, 0, behind, base);
      assert Repeat(' ', 0) + s + Repeat(' ', behind) == rest;
      assert WithoutSpaces(t) == WithoutSpaces(rest);
    } else {
      assert WithoutSpaces(t) == t;
      ReadBeforeSpaces(s, behind, base);
    }
  }

  // ---- the sign ----

  /** Precisions and widths at which zeros take the last place of the scratch buffer. */
  predicate FillsScratch(prec: nat, width: nat, negative: bool, f: Flags) {
    !f.left && (prec >= SCRATCH || (f.zeropad && Narrowed(width, negative, f) >= SCRATCH))
  }

  lemma ZerosToDigits(s: string, n: nat, base: nat)
    requires Base(base) && DigitsOf(s, base)
    ensures DigitsOf(ZerosTo(s, n), base)
    ensures |ZerosTo(s, n)| == if Least(n, SCRATCH) < |s| then |s| else Least(n, SCRATCH)
  {
    assert CharValue('0') == 0;
  }

  lemma ZeroedFills(s: string, prec: nat, width: nat, negative: bool, f: Flags, base: nat)
    requires Base(base) && DigitsOf(s, base) && |s| <= SCRATCH
    ensures var z := Zeroed(s, prec, Narrowed(width, negative, f), f);
      DigitsOf(z, base) && (|z| >= SCRATCH <==> |s| == SCRATCH || FillsScratch(prec, width, negative, f))
  {
    ZerosToDigits(s, prec, base);
    ZerosToDigits(ZerosTo(s, prec), Narrowed(width, negative, f), base);
  }

  lemma {:induction false} DecimalsFit(value: nat)
    requires value < WORD
    ensures |Digits(value, 10, false)| <= 10 && |Digits(value, 10, true)| <= 10
  {
    assert Power10(5) == 100000 && Power10(10) == Power10(5) * 100000;
    DecimalsBound(value, 10, false);
    DecimalsBound(value, 10, true);
  }

  function Power10(n: nat): (p: nat) {
    if n == 0 then 1 else 10 * Power10(n - 1)
  }

  lemma {:induction false} DecimalsBound(value: nat, n: nat, upper: bool)
    requires 0 < n && value < Power10(n)
    ensures |Digits(value, 10, upper)| <= n
    decreases n
  {
    if value >= 10 {
      assert n > 1 by {
        assert Power10(1) == 10 * Power10(0);
      }
      DecimalsBound(Rest(value, 10), n - 1, upper);
    }
  }

  /** Without '#' the text of a number without a minus reads as that number in its base. */
  lemma {:induction false} UnsignedReadsBack(value: nat, base: nat, prec: nat, width: nat, f: Flags)
    requires value < WORD && Base(base) && !f.hash
    ensures Denoted(NumberText(value, false, base, prec, width, f), base) == value
  {
    var bare, w := Bare(value, base, f), Narrowed(width, false, f);
    BareDenotes(value, base, f);
    BareDigits(value, base, f);
    ZeroedFills(bare, prec, width, false, f, base);
    ZeroedDenotes(bare, prec, w, f, base);
    TextDenoted(Zeroed(bare, prec, w, f), false, w, f, base);
  }

  lemma BareDigits(value: nat, base: nat, f: Flags)
    requires Base(base)
    ensures DigitsOf(Bare(value, base, f), base)
  {
    DigitsDenote(value, base, f.upper);
  }

  /** What a finished row of digits reads as, once signed and padded: the sign counts if it had room. */
  lemma {:induction false} TextDenoted(z: string, negative: bool, width: nat, f: Flags, base: nat)
    requires Base(base) && DigitsOf(z, base)
    ensures Denoted(Aligned(Signed(z, negative, f), width, f), base) ==
      if negative && |z| < SCRATCH then -(ValueOf(z, base) as int) else ValueOf(z, base)
  {
    var s := Signed(z, negative, f);
    var front := if !f.left && !f.zeropad then width - |s| else 0;
    var behind := if f.left then width - |s| else 0;
    assert Repeat(' ', 0) == "";
    assert Aligned(s, width, f) == Repeat(' ', front) + Reversed(s) + Repeat(' ', behind);
    ReadReversed(z, base);
    ReversedDigits(z, base);
    BareDenoted(Reversed(z), front, behind, base);
    if |z| < SCRATCH && (negative || f.plus || f.space) {
      var c := if negative then '-' else if f.plus then '+' else ' ';
      ReversedLast(z, c);
      SignedDenoted(c, Reversed(z), front, behind, base);
    }
  }

  /** The text of a negative decimal number reads as that number exactly if zeros do not fill
      the scratch buffer; otherwise its minus is lost and it reads as the opposite. */
  lemma {:induction false} MinusKept(value: nat, prec: nat, width: nat, f: Flags)
    requires 0 < value < WORD && !f.hash
    ensures '-' in Scratch(value, true, 10, prec, width, f) <==> !FillsScratch(prec, width, true, f)
    ensures Denoted(NumberText(value, true, 10, prec, width, f), 10) ==
      if FillsScratch(prec, width, true, f) then value else -(value as int)
  {
    var w := Narrowed(width, true, f);
    var z := NegativeDigits(value, prec, width, f);
    ScratchIs(value, true, 10, prec, width, f);
    TextDenoted(z, true, w, f, 10);
  }

  lemma {:induction false} ScratchIs(value: nat, negative: bool, base: nat, prec: nat, width: nat, f: Flags)
    requires Base(base) && !f.hash
    ensures Scratch(value, negative, base, prec, width, f) ==
      Signed(Zeroed(Bare(value, base, f), prec, Narrowed(width, negative, f), f), negative, f)
  {
  }

  lemma {:induction false} NegativeDigits(value: nat, prec: nat, width: nat, f: Flags) returns (z: string)
    requires 0 < value < WORD && !f.hash
    ensures DigitsOf(z, 10) && '-' !in z && ValueOf(z, 10) == value
      && (|z| >= SCRATCH <==> FillsScratch(prec, width, true, f))
    ensures z == Zeroed(Bare(value, 10, f), prec, Narrowed(width, true, f), f)
  {
    var w := Narrowed(width, true, f);
    var bare := ShortBare(value, f);
    ZeroedFills(bare, prec, width, true, f, 10);
    ZeroedDenotes(bare, prec, w, f, 10);
    z := Zeroed(bare, prec, w, f);
    NoMinus(z, 10);
  }

  lemma NoMinus(s: string, base: nat)
    requires Base(base) && DigitsOf(s, base)
    ensures '-' !in s
  {
    assert CharValue('-') == 16;
  }

  lemma {:induction false} ShortBare(value: nat, f: Flags) returns (bare: string)
    requires value < WORD
    ensures bare == Bare(value, 10, f) && |bare| <= 10 && DigitsOf(bare, 10) && ValueOf(bare, 10) == value
  {
    bare := Bare(value, 10, f);
    DecimalsFit(value);
    BareDenotes(value, 10, f);
    BareDigits(value, 10, f);
  }

  /** Precision 32 turns -1 into 1. */
  lemma {:induction false} MinusLost()
    ensures '-' !in Scratch(1, true, 10, 32, 0, NO_FLAGS.(precision := true))
    ensures Denoted(NumberText(1, true, 10, 32, 0, NO_FLAGS.(precision := true)), 10) == 1
  {
    MinusKept(1, 32, 0, NO_FLAGS.(precision := true));
  }
}
