/** IPv4 headers and dotted addresses. */
module Ipv4 {
  import opened Words
  import opened Checksum

  const NO_ADDRESS: nat := 0xFFFF_FFFF

  /** The header that net_send_ipv4_packet writes, section 3.1 of RFC 791; `checksum` is
      stored in the machine's byte order. */
  function Header(total: nat, id: nat, protocol: Byte, checksum: nat, src: seq<Byte>, dst: seq<Byte>): (h: seq<Byte>)
    requires total < SHORT && id < SHORT && checksum < SHORT && |src| == 4 && |dst| == 4
    ensures |h| == 20
  {
    [0x45, 0, total / 256, total % 256, id / 256, id % 256, 0, 0, 64, protocol, checksum % 256, checksum / 256] + src
      + dst
  }

  /** The fields of a header, each in its place, most significant byte first. */
  predicate Fields(h: seq<Byte>, total: nat, id: nat, protocol: Byte, src: seq<Byte>, dst: seq<Byte>) {
    && |h| == 20 && h[..2] == [0x45, 0] && h[6..9] == [0, 0, 64] && h[9] == protocol && h[12..16] == src
      && h[16..] == dst
    && total == Word(h[3], h[2]) && id == Word(h[5], h[4])
  }

  /** Filling in the checksum of the header with a zero there gives a header whose checksum is zero. */
  method FilledHeader(total: nat, id: nat, protocol: Byte, src: seq<Byte>, dst: seq<Byte>) returns (h: seq<Byte>)
    requires total < SHORT && id < SHORT && |src| == 4 && |dst| == 4
    ensures Fields(h, total, id, protocol, src, dst) && OnesSum(h) == ONES
  {
    h := Header(total, id, protocol, 0, src, dst);
    ghost var blank := h;
    var c := IpChecksum(h);
    h := h[10 := c % 256][11 := c / 256];
    StoredVerifies(blank, 10);
    OnesSumIsFolded(h);
  }

  // ---- inet_addr ----

  predicate Digit(c: char) {
    '0' <= c <= '9'
  }

  function DigitValue(c: char): (r: nat)
    requires Digit(c)
  {
    (c - '0') as nat
  }

  /** The value of a run of digits, an empty one counting 0. */
  function Value(s: string): (r: nat)
    requires forall c <- s :: Digit(c)
  {
    if s == [] then 0 else 10 * Value(s[..|s| - 1]) + DigitValue(s[|s| - 1])
  }

  /** An int above 255. The value is kept as 32 bits; from 2^31 on they mean a negative number. */
  predicate TooBig(value: nat) {
    255 < value < WORD / 2
  }

  /** (result << 8) | value in 32-bit arithmetic. */
  function Shifted(result: nat, value: nat): (r: nat) {
    Or(result * 256 % WORD, value)
  }

  /** What is read from the rest of the text with `part` complete parts that make up
      `result` and `value` as the part begun; NO_ADDRESS for INADDR_NONE. */
  function Parsed(s: string, result: nat, value: nat, part: nat): (r: nat)
    decreases |s|
  {
    if s == "" then (if TooBig(value) || part != 3 then NO_ADDRESS else Shifted(result, value))
    else if s[0] == '.' then
      if TooBig(value) || part + 1 > 3 then NO_ADDRESS else Parsed(s[1..], Shifted(result, value), 0, part + 1)
    else if Digit(s[0]) then Parsed(s[1..], result, (value * 10 + DigitValue(s[0])) % WORD, part)
    else NO_ADDRESS
  }

  method InetAddr(s: string) returns (r: nat)
    ensures r == Parsed(s, 0, 0, 0)
  {
    var result: nat, value: nat, part: nat := 0, 0, 0;
    var i := 0;
    while i < |s|
      invariant i <= |s| && Parsed(s[i..], result, value, part) == Parsed(s, 0, 0, 0)
    {
      ghost var rest := s[i..];
      assert rest[0] == s[i] && rest[1..] == s[i + 1..];
      if s[i] == '.' {
        if TooBig(value) {
          return NO_ADDRESS;
        }
        result, value, part := Shifted(result, value), 0, part + 1;
        if part > 3 {
          return NO_ADDRESS;
        }
      } else if Digit(s[i]) {
        value := (value * 10 + DigitValue(s[i])) % WORD;
      } else {
        return NO_ADDRESS;
      }
      i := i + 1;
    }
    if TooBig(value) || part != 3 {
      return NO_ADDRESS;
    }
    r := Shifted(result, value);
  }

  // ---- which texts are addresses ----

  predicate AllDigits(s: string) {
    forall c <- s :: Digit(c)
  }

  /** The text cut at its dots, with `head` in front of the first part. */
  function Split(head: string, s: string): (ps: seq<string>)
    ensures ps != []
    decreases |s|
  {
    if s == "" then [head]
    else if s[0] == '.' then [head] + Split("", s[1..])
    else Split(head + [s[0]], s[1..])
  }

  /** The 32 bits that a part leaves in `value`. */
  function PartBits(part: string): (n: nat)
    requires AllDigits(part)
  {
    Value(part) % WORD
  }

  /** A part that is not refused: digits whose number is at most 255, or at least 2^31, modulo 2^32. */
  predicate Passes(part: string) {
    AllDigits(part) && !TooBig(PartBits(part))
  }

  predicate Accepted(ps: seq<string>) {
    |ps| == 4 && Passes(ps[0]) && Passes(ps[1]) && Passes(ps[2]) && Passes(ps[3])
  }

  /** The address with these parts. */
  function Address(ps: seq<string>): (r: nat)
    requires Accepted(ps)
  {
    Shifted(Shifted(Shifted(Shifted(0, PartBits(ps[0])), PartBits(ps[1])), PartBits(ps[2])), PartBits(ps[3]))
  }

  /** Part by part. */
  function PartsRead(ps: seq<string>, result: nat, part: nat): (r: nat)
    requires ps != []
    decreases ps
  {
    if !Passes(ps[0]) then NO_ADDRESS
    else if |ps| == 1 then (if part != 3 then NO_ADDRESS else Shifted(result, PartBits(ps[0])))
    else if part + 1 > 3 then NO_ADDRESS
    else PartsRead(ps[1..], Shifted(result, PartBits(ps[0])), part + 1)
  }

  lemma DigitMore(n: nat, d: nat)
    ensures (n % WORD * 10 + d) % WORD == (10 * n + d) % WORD
  {
    var q := n / WORD;
    assert 10 * n + d == n % WORD * 10 + d + 10 * q * WORD;
  }

  lemma PartMore(head: string, c: char)
    requires AllDigits(head) && Digit(c)
    ensures AllDigits(head + [c]) && PartBits(head + [c]) == (PartBits(head) * 10 + DigitValue(c)) % WORD
  {
    var s := head + [c];
    assert s[..|s| - 1] == head;
    DigitMore(Value(head), DigitValue(c));
  }

  /** The first part begins with `head`. */
  lemma {:induction false} SplitHead(head: string, s: string)
    ensures head <= Split(head, s)[0]
    decreases |s|
  {
    if s != "" && s[0] != '.' {
      SplitHead(head + [s[0]], s[1..]);
    }
  }

  lemma {:induction false} ParsedByParts(head: string, s: string, result: nat, part: nat)
    requires AllDigits(head) && part <= 3
    ensures Parsed(s, result, PartBits(head), part) == PartsRead(Split(head, s), result, part)
    decreases |s|
  {
    if s != "" {
      if s[0] == '.' {
        var ps := Split(head, s);
        assert ps[1..] == Split("", s[1..]) && PartBits("") == 0;
        if Passes(head) && part + 1 <= 3 {
          ParsedByParts("", s[1..], Shifted(result, PartBits(head)), part + 1);
        }
      } else if Digit(s[0]) {
        PartMore(head, s[0]);
        ParsedByParts(head + [s[0]], s[1..], result, part);
      } else {
        SplitHead(head + [s[0]], s[1..]);
        var p := Split(head, s)[0];
        assert p[|head|] == s[0] && p[|head|] in p;
      }
    }
  }

  lemma {:induction false} WrongCount(ps: seq<string>, result: nat, part: nat)
    requires ps != [] && part <= 3 && |ps| + part != 4
    ensures PartsRead(ps, result, part) == NO_ADDRESS
    decreases ps
  {
    if Passes(ps[0]) {
      var r := Shifted(result, PartBits(ps[0]));
      if |ps| == 1 {
        assert part != 3;
      } else if part + 1 <= 3 {
        WrongCount(ps[1..], r, part + 1);
        assert PartsRead(ps, result, part) == PartsRead(ps[1..], r, part + 1);
      }
    }
  }

  lemma {:induction false} PartFirst(p: string, rest: seq<string>, result: nat, part: nat)
    requires rest != [] && part < 3
    ensures PartsRead([p] + rest, result, part) ==
      if Passes(p) then PartsRead(rest, Shifted(result, PartBits(p)), part + 1) else NO_ADDRESS
  {
    assert ([p] + rest)[1..] == rest;
  }

  lemma {:induction false} FourParts(ps: seq<string>)
    requires |ps| == 4
    ensures PartsRead(ps, 0, 0) == if Accepted(ps) then Address(ps) else NO_ADDRESS
  {
    var a, b, c, d := ps[0], ps[1], ps[2], ps[3];
    assert ps == [a] + ([b] + ([c] + [d]));
    PartFirst(a, [b] + ([c] + [d]), 0, 0);
    if Passes(a) {
      var r := Shifted(0, PartBits(a));
      PartFirst(b, [c] + [d], r, 1);
      if Passes(b) {
        PartFirst(c, [d], Shifted(r, PartBits(b)), 2);
      }
    }
  }

  /** A text is read as an address exactly if it has four parts between dots and each is a row of
      digits, maybe empty, whose number modulo 2^32 is at most 255 or at least 2^31. */
  lemma {:induction false} InetLaw(s: string)
    ensures Parsed(s, 0, 0, 0) == if Accepted(Split("", s)) then Address(Split("", s)) else NO_ADDRESS
  {
    var ps := Split("", s);
    assert PartBits("") == 0;
    ParsedByParts("", s, 0, 0);
    if |ps| == 4 {
      FourParts(ps);
    } else {
      WrongCount(ps, 0, 0);
    }
  }

  // ---- parts of a usual length ----

  function Joined(a: nat, b: nat, c: nat, d: nat): (r: nat) {
    ((a * 256 + b) * 256 + c) * 256 + d
  }

  function TenTo(n: nat): (p: nat) {
    if n == 0 then 1 else 10 * TenTo(n - 1)
  }

  lemma {:induction false} ValueBound(s: string)
    requires AllDigits(s)
    ensures Value(s) < TenTo(|s|)
  {
    if s != [] {
      ValueBound(s[..|s| - 1]);
      assert Digit(s[|s| - 1]);
    }
  }

  lemma {:induction false} TenToGrows(a: nat, b: nat)
    requires a <= b
    ensures 0 < TenTo(a) <= TenTo(b)
  {
    if a > 0 {
      TenToGrows(a - 1, b - 1);
    } else if b > 0 {
      TenToGrows(0, b - 1);
    }
  }

  /** Nine digits cannot run over, so such a part passes exactly if its number is at most 255. */
  lemma {:induction false} ShortPart(part: string)
    requires AllDigits(part) && |part| <= 9
    ensures PartBits(part) == Value(part) && (Passes(part) <==> Value(part) <= 255)
  {
    ValueBound(part);
    TenToGrows(|part|, 9);
    assert TenTo(3) == 1000 && TenTo(6) == 1000 * TenTo(3) && TenTo(9) == 1000 * TenTo(6);
  }

  lemma ShiftedSmall(result: nat, value: nat)
    requires result < 0x100_0000 && value <= 255
    ensures Shifted(result, value) == result * 256 + value
  {
    assert Pow2(4) == 16 && Pow2(8) == 16 * Pow2(4);
    OrDisjoint(result, value, 8);
  }

  lemma AllOnes(a: nat, b: nat, c: nat, d: nat)
    requires a <= 255 && b <= 255 && c <= 255 && d <= 255
    ensures Joined(a, b, c, d) == NO_ADDRESS <==> a == 255 && b == 255 && c == 255 && d == 255
  {
  }

  predicate ShortParts(ps: seq<string>) {
    |ps| == 4 && forall p <- ps :: AllDigits(p) && |p| <= 9
  }

  /** Four rows of at most nine digits between dots are read as the address with those bytes, or
      refused if one is above 255; leading zeros and even empty parts are fine. The one address
      that cannot be told from a refusal is 255.255.255.255. */
  lemma {:induction false} DottedAddress(s: string)
    requires ShortParts(Split("", s))
    ensures var ps := Split("", s);
      var a, b, c, d := Value(ps[0]), Value(ps[1]), Value(ps[2]), Value(ps[3]);
      && Parsed(s, 0, 0, 0) == (if a > 255 || b > 255 || c > 255 || d > 255 then NO_ADDRESS else Joined(a, b, c, d))
      && (Parsed(s, 0, 0, 0) == NO_ADDRESS <==>
        a > 255 || b > 255 || c > 255 || d > 255 || (a == 255 && b == 255 && c == 255 && d == 255))
  {
    var ps := Split("", s);
    InetLaw(s);
    ShortPart(ps[0]);
    ShortPart(ps[1]);
    ShortPart(ps[2]);
    ShortPart(ps[3]);
    if Accepted(ps) {
      var a, b, c, d := Value(ps[0]), Value(ps[1]), Value(ps[2]), Value(ps[3]);
      ShiftedSmall(0, a);
      ShiftedSmall(a, b);
      ShiftedSmall(a * 256 + b, c);
      ShiftedSmall((a * 256 + b) * 256 + c, d);
      AllOnes(a, b, c, d);
    }
  }

  /** Cutting at dots takes apart what they join. */
  lemma {:induction false} SplitJoined(head: string, a: string, rest: string)
    requires '.' !in a
    ensures Split(head, a + "." + rest) == [head + a] + Split("", rest)
    decreases |a|
  {
    var s := a + "." + rest;
    if a == "" {
      assert s[0] == '.' && s[1..] == rest && head + a == head;
    } else {
      assert s[0] == a[0] && a[0] in a && s[1..] == a[1..] + "." + rest;
      SplitJoined(head + [a[0]], a[1..], rest);
      assert head + [a[0]] + a[1..] == head + a;
    }
  }

  lemma {:induction false} ValueMore(s: string, c: char)
    requires AllDigits(s) && Digit(c)
    ensures AllDigits(s + [c]) && Value(s + [c]) == 10 * Value(s) + DigitValue(c)
  {
    assert (s + [c])[..|s|] == s;
  }

  lemma {:induction false} ThreeMore(s: string, a: char, b: char, c: char)
    requires AllDigits(s) && Digit(a) && Digit(b) && Digit(c)
    ensures AllDigits(s + [a, b, c])
      && Value(s + [a, b, c]) == 1000 * Value(s) + 100 * DigitValue(a) + 10 * DigitValue(b) + DigitValue(c)
  {
    ValueMore(s, a);
    ValueMore(s + [a], b);
    ValueMore(s + [a] + [b], c);
    assert s + [a] + [b] + [c] == s + [a, b, c];
  }

  lemma {:induction false} LongDigits()
    ensures var s := "4" + "294" + "967" + "296"; AllDigits(s) && Value(s) == WORD
  {
    OneDigit('4');
    ThreeMore("4", '2', '9', '4');
    ThreeMore("4" + "294", '9', '6', '7');
    ThreeMore("4" + "294" + "967", '2', '9', '6');
  }

  lemma {:induction false} OneDigit(c: char)
    requires Digit(c)
    ensures AllDigits([c]) && Value([c]) == DigitValue(c) && Split("", [c]) == [[c]]
  {
    assert Value("") == 0 && "" + [c] == [c];
    ValueMore("", c);
    OnePart(c);
  }

  lemma {:induction false} OnePart(c: char)
    requires c != '.'
    ensures Split("", [c]) == [[c]]
  {
    assert "" + [c] == [c] && [c][1..] == "";
    assert Split([c], "") == [[c]];
  }

  /** 4294967296 runs over to 0, so this text is taken for 0.0.0.1. */
  lemma {:induction false} RunsOver()
    ensures var s := "4" + "294" + "967" + "296" + "." + ("0" + "." + ("0" + "." + "1")); Parsed(s, 0, 0, 0) == 1
  {
    var a, last := "4" + "294" + "967" + "296", "0" + "." + "1";
    var s := a + "." + ("0" + "." + last);
    LongDigits();
    OneDigit('0');
    OneDigit('1');
    SplitJoined("", "0", "1");
    SplitJoined("", "0", last);
    SplitJoined("", a, "0" + "." + last);
    assert "" + "0" == "0" && "" + a == a;
    assert Split("", s) == [a, "0", "0", "1"];
    InetLaw(s);
    ShiftedSmall(0, 0);
    ShiftedSmall(0, 1);
  }
}
