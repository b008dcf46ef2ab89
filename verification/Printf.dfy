/** Formatted output: the text of a format, and the bounded buffer it is written to. */
module Printf {
  import opened Words
  import opened Numerals

  /** An argument: the bits of a 32-bit integer, or a string. */
  datatype Arg = Int(bits: nat) | Str(chars: string)

  /** A directive read up to its conversion character, the first of `rest`. */
  datatype Spec = Spec(flags: Flags, width: nat, precision: nat, rest: string, args: seq<Arg>)

  // ---- arguments ----

  /** An argument that is missing or of another kind may be anything; here it is 0 or "". */
  function IntArg(args: seq<Arg>): (n: nat)
    ensures n < WORD
  {
    if args != [] && args[0].Int? then args[0].bits % WORD else 0
  }

  function StrArg(args: seq<Arg>): (r: string) {
    if args != [] && args[0].Str? then args[0].chars else ""
  }

  function Later(args: seq<Arg>): (r: seq<Arg>) {
    if args == [] then [] else args[1..]
  }

  function Wrapped(n: nat, half: nat): (r: int) {
    if n < half then n else n - 2 * half
  }

  function SignedArg(n: nat, f: Flags): (r: int) {
    if f.long then Wrapped(n, WORD / 2)
    else if f.char8 then Wrapped(n % 256, 128)
    else if f.short then Wrapped(n % 65536, 32768)
    else Wrapped(n, WORD / 2)
  }

  function UnsignedArg(n: nat, f: Flags): (m: nat)
    ensures m <= n
  {
    if f.long then n else if f.char8 then n % 256 else if f.short then n % 65536 else n
  }

  // ---- reading a directive ----

  predicate IsFlag(c: char) {
    c == '0' || c == '-' || c == '+' || c == ' ' || c == '#'
  }

  function WithFlag(f: Flags, c: char): (r: Flags) {
    if c == '0' then f.(zeropad := true)
    else if c == '-' then f.(left := true)
    else if c == '+' then f.(plus := true)
    else if c == ' ' then f.(space := true)
    else f.(hash := true)
  }

  function ReadFlags(s: string, f: Flags): (r: (Flags, string))
    ensures |r.1| <= |s|
  {
    if s != "" && IsFlag(s[0]) then ReadFlags(s[1..], WithFlag(f, s[0])) else (f, s)
  }

  predicate Digit(c: char) {
    '0' <= c <= '9'
  }

  /** The number at the start of the text, in 32-bit arithmetic, and what follows it. */
  function Number(s: string, n: nat): (r: (nat, string))
    ensures |r.1| <= |s|
  {
    if s != "" && Digit(s[0]) then Number(s[1..], (n * 10 + (s[0] - '0') as nat) % WORD) else (n, s)
  }

  function ReadWidth(s: string, f: Flags, args: seq<Arg>): (p: Spec)
    ensures |p.rest| <= |s|
  {
    if s != "" && Digit(s[0]) then
      var (n, rest) := Number(s, 0);
      Spec(f, n, 0, rest, args)
    else if s != "" && s[0] == '*' then
      var w := Wrapped(IntArg(args), WORD / 2);
      Spec(if w < 0 then f.(left := true) else f, if w < 0 then -w else w, 0, s[1..], Later(args))
    else
      Spec(f, 0, 0, s, args)
  }

  function ReadPrecision(p: Spec): (q: Spec)
    ensures |q.rest| <= |p.rest|
  {
    if p.rest == "" || p.rest[0] != '.' then p else
      var s, f := p.rest[1..], p.flags.(precision := true);
      if s != "" && Digit(s[0]) then
        var (n, rest) := Number(s, 0);
        Spec(f, p.width, n, rest, p.args)
      else if s != "" && s[0] == '*' then
        var w := Wrapped(IntArg(p.args), WORD / 2);
        Spec(f, p.width, if w > 0 then w else 0, s[1..], Later(p.args))
      else
        Spec(f, p.width, 0, s, p.args)
  }

  function ReadLength(p: Spec): (q: Spec)
    ensures |q.rest| <= |p.rest|
  {
    var s := p.rest;
    if s == "" then p
    else if s[0] == 'l' then
      if |s| > 1 && s[1] == 'l' then p.(flags := p.flags.(long := true, longLong := true), rest := s[2..])
      else p.(flags := p.flags.(long := true), rest := s[1..])
    else if s[0] == 'h' then
      if |s| > 1 && s[1] == 'h' then p.(flags := p.flags.(short := true, char8 := true), rest := s[2..])
      else p.(flags := p.flags.(short := true), rest := s[1..])
    else if s[0] == 't' || s[0] == 'z' then p.(flags := p.flags.(long := true), rest := s[1..])
    else if s[0] == 'j' then p.(flags := p.flags.(longLong := true), rest := s[1..])
    else p
  }

  /** The directive whose text follows a percent sign. */
  function ReadSpec(s: string, args: seq<Arg>): (p: Spec)
    ensures |p.rest| <= |s|
  {
    var (f, rest) := ReadFlags(s, NO_FLAGS);
    ReadLength(ReadPrecision(ReadWidth(rest, f, args)))
  }

  // ---- what a directive writes ----

  predicate IsInteger(c: char) {
    c == 'd' || c == 'i' || c == 'u' || c == 'x' || c == 'X' || c == 'o' || c == 'b'
  }

  predicate IsFloat(c: char) {
    c == 'f' || c == 'F' || c == 'e' || c == 'E' || c == 'g' || c == 'G'
  }

  function BaseOf(c: char): (base: nat)
    ensures Base(base)
  {
    if c == 'x' || c == 'X' then 16 else if c == 'o' then 8 else if c == 'b' then 2 else 10
  }

  function IntegerFlags(c: char, f: Flags): (r: Flags) {
    var signed := c == 'd' || c == 'i';
    f.(hash := f.hash && BaseOf(c) != 10, upper := f.upper || c == 'X',
       plus := f.plus && signed, space := f.space && signed,
       zeropad := f.zeropad && !f.precision)
  }

  /** The number a conversion writes: signed for d and i. */
  function IntegerArg(c: char, n: nat, f: Flags): (v: int)
    requires n < WORD
    ensures 0 < v + WORD && v < WORD
  {
    if c == 'd' || c == 'i' then SignedArg(n, f) else UnsignedArg(n, f)
  }

  function Magnitude(v: int): (r: nat) {
    if v < 0 then -v else v
  }

  /** There is no support for long long: its conversions write nothing and take no argument. */
  function IntegerText(c: char, p: Spec): (r: (string, seq<Arg>)) {
    var f := IntegerFlags(c, p.flags);
    if f.longLong then ("", p.args) else
      var v := IntegerArg(c, IntArg(p.args), f);
      (NumberText(Magnitude(v), v < 0, BaseOf(c), p.precision, p.width, f), Later(p.args))
  }

  function Padded(s: string, p: Spec): (r: string) {
    (if p.flags.left then "" else Repeat(' ', p.width - |s|)) + s
      + (if p.flags.left then Repeat(' ', p.width - |s|) else "")
  }

  function Shown(p: Spec): (r: string) {
    var s := StrArg(p.args);
    if p.flags.precision && p.precision < |s| then s[..p.precision] else s
  }

  /** The text of a directive and the arguments behind it; None for floating point, which is
      not part of this model. */
  function Converted(p: Spec): (r: Option<(string, seq<Arg>)>)
    requires p.rest != ""
  {
    var c := p.rest[0];
    if IsInteger(c) then Some(IntegerText(c, p))
    else if IsFloat(c) then None
    else if c == 'c' then Some((Padded([(IntArg(p.args) % 256) as char], p), Later(p.args)))
    else if c == 's' then Some((Padded(Shown(p), p), Later(p.args)))
    else if c == 'p'
      then Some((NumberText(IntArg(p.args), false, 16, p.precision, 8, p.flags.(zeropad := true, upper := true)),
        Later(p.args)))
    else Some(([c], p.args))
  }

  /** The whole text of a format; None if it stops inside a directive or asks for floating point. */
  function Text(s: string, args: seq<Arg>): (r: Option<string>)
    decreases |s|
  {
    if s == "" then Some("")
    else if s[0] != '%' then
      match Text(s[1..], args)
      case None => None
      case Some(t) => Some([s[0]] + t)
    else
      var p := ReadSpec(s[1..], args);
      if p.rest == "" || Converted(p) == None then None else
        match Text(p.rest[1..], Converted(p).value.1)
        case None => None
        case Some(t) => Some(Converted(p).value.0 + t)
  }

  /** The text of a format that begins with a directive. */
  lemma {:induction false} DirectiveFirst(s: string, args: seq<Arg>)
    requires s != "" && s[0] == '%' && Text(s, args).Some?
    ensures var p := ReadSpec(s[1..], args);
      && p.rest != "" && Converted(p).Some? && Text(p.rest[1..], Converted(p).value.1).Some?
      && Text(s, args).value == Converted(p).value.0 + Text(p.rest[1..], Converted(p).value.1).value
  {
  }

  lemma {:induction false} LiteralFirst(s: string, args: seq<Arg>)
    requires s != "" && s[0] != '%' && Text(s, args).Some?
    ensures Text(s[1..], args).Some? && Text(s, args).value == [s[0]] + Text(s[1..], args).value
  {
  }

  // ---- reading back ----

  lemma {:induction false} NumberGoesOn(a: string, b: string, n: nat)
    requires forall c <- a :: Digit(c)
    ensures Number(a + b, n) == Number(b, Number(a, n).0) && Number(a, n).1 == ""
  {
    if a == "" {
      assert a + b == b;
    } else {
      assert Digit(a[0]) && (a + b)[1..] == a[1..] + b;
      NumberGoesOn(a[1..], b, (n * 10 + (a[0] - '0') as nat) % WORD);
    }
  }

  lemma {:induction false} DecimalDigit(d: nat, n: nat)
    requires d < 10 && n * 10 + d < WORD
    ensures var c := DigitChar(d, false); Digit(c) && Number([c], n) == (n * 10 + d, "")
  {
    var c := DigitChar(d, false);
    assert [c][1..] == "" && (c - '0') as nat == d;
  }

  lemma {:induction false} DigitsReadBack(value: nat)
    requires value < WORD
    ensures var t := Reversed(Digits(value, 10, false)); (forall c <- t :: Digit(c)) && Number(t, 0).0 == value
    decreases value
  {
    var q, d := Rest(value, 10), Last(value, 10);
    var c, rest := DigitChar(d, false), if value < 10 then "" else Digits(q, 10, false);
    DecimalDigit(d, q);
    ReversedCons(c, rest);
    if value >= 10 {
      DigitsReadBack(q);
      NumberGoesOn(Reversed(rest), [c], 0);
    } else {
      assert Reversed(rest) + [c] == [c];
    }
  }

  /** A number written with %u is read back by _atoi. */
  lemma {:induction false} ReadBack(value: nat, behind: string)
    requires value < WORD && (behind == "" || !Digit(behind[0]))
    ensures Text("%u", [Int(value)]).Some? && Number(Text("%u", [Int(value)]).value + behind, 0) == (value, behind)
  {
    var t := Reversed(Digits(value, 10, false));
    PlainUnsigned(value);
    DigitsReadBack(value);
    NumberGoesOn(t, behind, 0);
  }

  lemma {:induction false} PlainSpec(args: seq<Arg>)
    ensures ReadSpec("u", args) == Spec(NO_FLAGS, 0, 0, "u", args)
  {
    assert ReadFlags("u", NO_FLAGS) == (NO_FLAGS, "u");
    assert ReadWidth("u", NO_FLAGS, args) == Spec(NO_FLAGS, 0, 0, "u", args);
  }

  lemma {:induction false} PlainConverted(value: nat)
    requires value < WORD
    ensures Converted(Spec(NO_FLAGS, 0, 0, "u", [Int(value)])) == Some((Reversed(Digits(value, 10, false)), []))
  {
    UnpaddedText(value);
    assert IntegerFlags('u', NO_FLAGS) == NO_FLAGS && [Int(value)][1..] == [] && IntArg([Int(value)]) == value;
  }

  lemma {:induction false} PlainUnsigned(value: nat)
    requires value < WORD
    ensures Text("%u", [Int(value)]) == Some(Reversed(Digits(value, 10, false)))
  {
    PlainSpec([Int(value)]);
    PlainConverted(value);
    var t := Reversed(Digits(value, 10, false));
    assert "%u"[1..] == "u" && "u"[1..] == "" && t + "" == t;
    assert Text("", []) == Some("");
  }

  lemma UnpaddedText(value: nat)
    requires value < WORD
    ensures NumberText(value, false, 10, 0, 0, NO_FLAGS) == Reversed(Digits(value, 10, false))
  {
    var s := Digits(value, 10, false);
    assert s + Repeat('0', 0 - |s|) == s;
    assert ZerosTo(s, 0) == s;
    assert Scratch(value, false, 10, 0, 0, NO_FLAGS) == s;
    assert Repeat(' ', 0 - |s|) == "";
    assert "" + Reversed(s) + "" == Reversed(s);
  }

  lemma {:induction false} NumberReadsBack(v: int, base: nat, prec: nat, width: nat, f: Flags)
    requires 0 < v + WORD && v < WORD && Base(base) && !f.hash && (v < 0 ==> base == 10)
    ensures Denoted(NumberText(Magnitude(v), v < 0, base, prec, width, f), base) == v
      <==> v >= 0 || !FillsScratch(prec, width, true, f)
  {
    var n := Magnitude(v);
    if v < 0 {
      MinusKept(n, prec, width, f);
    } else {
      UnsignedReadsBack(n, base, prec, width, f);
    }
  }

  /** Only d and i write negative numbers, and these are decimal. */
  lemma NegativeIsDecimal(c: char, n: nat, f: Flags)
    requires n < WORD
    ensures IntegerArg(c, n, f) < 0 ==> BaseOf(c) == 10
  {
  }

  /** An integer conversion without '#' writes a text that reads as its argument, exactly if the
      argument is not negative or zeros do not fill the scratch buffer. */
  lemma {:induction false} ConversionReadsBack(c: char, p: Spec)
    requires IsInteger(c) && !p.flags.longLong && (!p.flags.hash || BaseOf(c) == 10)
    ensures var f := IntegerFlags(c, p.flags);
      var v := IntegerArg(c, IntArg(p.args), f);
      Denoted(IntegerText(c, p).0, BaseOf(c)) == v <==> v >= 0 || !FillsScratch(p.precision, p.width, true, f)
  {
    var f, n := IntegerFlags(c, p.flags), IntArg(p.args);
    NegativeIsDecimal(c, n, f);
    NumberReadsBack(IntegerArg(c, n, f), BaseOf(c), p.precision, p.width, f);
  }
}
