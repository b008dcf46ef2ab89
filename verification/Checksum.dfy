/** The Internet checksum of RFC 1071 as IPv4 and TCP compute it on a little-endian machine. */
module Checksum {
  import opened Words

  const ONES: nat := 0xFFFF

  type Byte = x: nat | x < 256

  function Word(lo: nat, hi: nat): (r: nat) {
    lo + 256 * hi
  }

  /** The sum of the 16-bit words as a little-endian machine reads them, an odd last byte
      counting as a word of its own. */
  function LittleSum(data: seq<Byte>): (r: nat) {
    if data == [] then 0
    else if |data| == 1 then data[0]
    else Word(data[0], data[1]) + LittleSum(data[2..])
  }

  /** The sum of the words as section 1 of RFC 1071 defines it: most significant byte first,
      an odd last byte followed by a zero. */
  function BigSum(data: seq<Byte>): (r: nat) {
    if data == [] then 0
    else if |data| == 1 then Word(0, data[0])
    else Word(data[1], data[0]) + BigSum(data[2..])
  }

  /** One's complement addition of 16-bit numbers: the carry comes back at the low end. */
  function OnesAdd(a: nat, b: nat): (r: nat) {
    if a + b > ONES then a + b - ONES else a + b
  }

  /** The one's complement sum of the words. */
  function OnesSum(data: seq<Byte>): (r: nat) {
    if data == [] then 0
    else if |data| == 1 then data[0]
    else OnesAdd(Word(data[0], data[1]), OnesSum(data[2..]))
  }

  /** A sum with all its carries folded in. */
  function Folded(sum: nat): (f: nat)
    ensures f <= ONES
  {
    if sum == 0 then 0 else (sum - 1) % ONES + 1
  }

  lemma FoldedAdd(a: nat, b: nat)
    requires a <= ONES
    ensures Folded(a + b) == OnesAdd(a, Folded(b)) <= ONES
  {
    if b > 0 {
      var q, r := (b - 1) / ONES, (b - 1) % ONES;
      assert b == q * ONES + r + 1;
      if a + r + 1 > ONES {
        FoldedUnique(a + b, q + 1, a + r + 1 - ONES);
      } else {
        FoldedUnique(a + b, q, a + r + 1);
      }
    } else if a > 0 {
      FoldedUnique(a, 0, a);
    }
  }

  lemma FoldedUnique(sum: nat, q: int, f: nat)
    requires sum == q * ONES + f && 0 < f <= ONES && 0 < sum
    ensures Folded(sum) == f
  {
  }

  lemma FoldedSplit(sum: nat) returns (q: nat)
    ensures Folded(sum) <= ONES && sum == q * ONES + Folded(sum)
    ensures Folded(sum) == 0 <==> sum == 0
  {
    q := if sum == 0 then 0 else (sum - 1) / ONES;
  }

  lemma {:induction false} OnesSumIsFolded(data: seq<Byte>)
    ensures OnesSum(data) == Folded(LittleSum(data)) <= ONES
    decreases |data|
  {
    if |data| > 1 {
      OnesSumIsFolded(data[2..]);
      FoldedAdd(Word(data[0], data[1]), LittleSum(data[2..]));
    } else if |data| == 1 && data[0] > 0 {
      FoldedUnique(data[0], 0, data[0]);
    }
  }

  /** The 32-bit accumulator has room for every 16-bit length. */
  lemma {:induction false} NoOverflow(data: seq<Byte>)
    ensures 2 * LittleSum(data) <= ONES * (|data| + 1)
    ensures |data| < SHORT ==> LittleSum(data) < WORD
    decreases |data|
  {
    if |data| > 1 {
      NoOverflow(data[2..]);
    }
  }

  /** Two folds take in every carry of a 32-bit sum. */
  lemma TwoFolds(sum: nat)
    requires sum < WORD
    ensures var once := sum / SHORT + sum % SHORT; (once + once / SHORT) % SHORT == Folded(sum)
  {
    var hi, lo := sum / SHORT, sum % SHORT;
    var once := hi + lo;
    assert sum == hi * SHORT + lo == hi * ONES + once;
    if once > ONES {
      assert once / SHORT == 1;
      FoldedUnique(sum, hi + 1, once - ONES);
    } else if once > 0 {
      FoldedUnique(sum, hi, once);
    }
  }

  lemma {:induction false} LittleSumPrefix(data: seq<Byte>, i: nat)
    requires i % 2 == 0 && i + 1 < |data|
    ensures LittleSum(data[..i + 2]) == LittleSum(data[..i]) + Word(data[i], data[i + 1])
  {
    LittleSumAppend(data[..i], [data[i], data[i + 1]]);
    assert data[..i + 2] == data[..i] + [data[i], data[i + 1]];
  }

  lemma {:induction false} LittleSumAppend(a: seq<Byte>, b: seq<Byte>)
    requires |a| % 2 == 0
    ensures LittleSum(a + b) == LittleSum(a) + LittleSum(b)
    decreases |a|
  {
    if a == [] {
      assert a + b == b;
    } else {
      LittleSumAppend(a[2..], b);
      assert (a + b)[2..] == a[2..] + b;
    }
  }

  /** The closing steps of both checksums: two folds and the complement. */
  method Finish(sum: nat) returns (c: nat)
    requires sum < WORD
    ensures c == ONES - Folded(sum)
  {
    TwoFolds(sum);
    var once := sum / SHORT + sum % SHORT;
    once := (once + once / SHORT) % WORD;
    c := ONES - once % SHORT;
  }

  /** The words of the data added to a sum that leaves room for them. */
  method AddWords(start: nat, data: seq<Byte>, oddShift: nat) returns (sum: nat)
    requires |data| < SHORT && (oddShift == 1 || oddShift == 256) && start <= 7 * ONES
    ensures sum < WORD
    ensures sum ==
      start + (if |data| % 2 == 0 then LittleSum(data) else LittleSum(data[..|data| - 1]) + oddShift * data[|data| - 1])
  {
    sum := start;
    var i := 0;
    while i + 1 < |data|
      invariant i <= |data| && i % 2 == 0 && sum == start + LittleSum(data[..i]) < WORD
    {
      LittleSumPrefix(data, i);
      NoOverflow(data[..i + 2]);
      sum := Added(sum, Word(data[i], data[i + 1]));
      i := i + 2;
    }
    NoOverflow(data[..i]);
    if i < |data| {
      sum := Added(sum, oddShift * data[i]);
      assert data[..i] == data[..|data| - 1];
    } else {
      assert data[..i] == data;
    }
  }

  /** 32-bit addition, where there is room. */
  method Added(sum: nat, more: nat) returns (r: nat)
    requires sum + more < WORD
    ensures r == sum + more
  {
    r := (sum + more) % WORD;
  }

  /** ip_checksum: the complement of the one's complement sum, for every 16-bit length. */
  method IpChecksum(data: seq<Byte>) returns (c: nat)
    requires |data| < SHORT
    ensures c == ONES - OnesSum(data)
  {
    var sum := AddWords(0, data, 1);
    OddSum(data);
    OnesSumIsFolded(data);
    c := Finish(sum);
  }

  lemma {:induction false} OddSum(data: seq<Byte>)
    ensures |data| % 2 == 1 ==> LittleSum(data) == LittleSum(data[..|data| - 1]) + data[|data| - 1]
  {
    if |data| % 2 == 1 {
      var l := |data| - 1;
      LittleSumAppend(data[..l], [data[l]]);
      assert data == data[..l] + [data[l]];
    }
  }

  // ---- verification at the receiver ----

  lemma {:induction false} LittleSumStore(data: seq<Byte>, i: nat, lo: Byte, hi: Byte)
    requires i % 2 == 0 && i + 1 < |data| && data[i] == 0 && data[i + 1] == 0
    ensures LittleSum(data[i := lo][i + 1 := hi]) == LittleSum(data) + Word(lo, hi)
  {
    var stored := data[i := lo][i + 1 := hi];
    LittleSumAppend(data[..i + 2], data[i + 2..]);
    LittleSumAppend(stored[..i + 2], stored[i + 2..]);
    LittleSumPrefix(data, i);
    LittleSumPrefix(stored, i);
    assert data == data[..i + 2] + data[i + 2..] && stored == stored[..i + 2] + stored[i + 2..];
    assert data[..i] == stored[..i] && data[i + 2..] == stored[i + 2..];
  }

  /** Storing the checksum of a buffer in a word of it that was zero makes the checksum of the
      whole buffer zero, whatever its length. */
  lemma {:induction false} StoredVerifies(data: seq<Byte>, i: nat)
    requires i % 2 == 0 && i + 1 < |data| && data[i] == 0 && data[i + 1] == 0
    ensures OnesSum(data) <= ONES
    ensures var c := ONES - OnesSum(data); ONES - OnesSum(data[i := c % 256][i + 1 := c / 256]) == 0
  {
    OnesSumIsFolded(data);
    var c := ONES - OnesSum(data);
    var stored := data[i := c % 256][i + 1 := c / 256];
    LittleSumStore(data, i, c % 256, c / 256);
    OnesSumIsFolded(stored);
    var q := FoldedSplit(LittleSum(data));
    FoldedUnique(LittleSum(stored), q, ONES);
  }

  // ---- byte order ----

  function Swapped(x: nat): (r: nat)
    requires x <= ONES
  {
    Word(x / 256, x % 256)
  }

  function HighSum(data: seq<Byte>): (r: nat) {
    if |data| < 2 then 0 else data[1] + HighSum(data[2..])
  }

  lemma {:induction false} BigFromLittle(data: seq<Byte>)
    ensures 256 * LittleSum(data) == BigSum(data) + ONES * HighSum(data)
    ensures BigSum(data) == 0 <==> LittleSum(data) == 0
    decreases |data|
  {
    if |data| > 1 {
      BigFromLittle(data[2..]);
    }
  }

  /** Section 2(B) of RFC 1071: the sum read in the other byte order is the sum with its bytes
      swapped, so the checksum stored by a little-endian machine has the very bytes that the
      big-endian definition asks for. */
  lemma {:induction false} ByteOrder(data: seq<Byte>)
    ensures OnesSum(data) <= ONES && Folded(BigSum(data)) == Swapped(OnesSum(data)) <= ONES
    ensures Swapped(ONES - OnesSum(data)) == ONES - Folded(BigSum(data))
  {
    OnesSumIsFolded(data);
    BigFromLittle(data);
    var f := OnesSum(data);
    var q := FoldedSplit(LittleSum(data));
    assert 256 * f == Swapped(f) + ONES * (f / 256);
    if f > 0 {
      var k := f / 256 - HighSum(data) + 256 * q;
      assert BigSum(data) == Swapped(f) + ONES * k;
      FoldedUnique(BigSum(data), k, Swapped(f));
    }
    assert (ONES - f) / 256 == 255 - f / 256 && (ONES - f) % 256 == 255 - f % 256;
  }

  // ---- TCP ----

  /** The pseudo-header of section 3.1 of RFC 9293; addresses in network order. */
  function PseudoHeader(src: seq<Byte>, dst: seq<Byte>, length: nat): (h: seq<Byte>)
    requires |src| == 4 && |dst| == 4 && length < SHORT
    ensures |h| == 12
  {
    src + dst + [0, 6, length / 256, length % 256]
  }

  /** tcp_checksum of a segment. The odd last byte lands in the upper half of its word. */
  method TcpChecksum(src: seq<Byte>, dst: seq<Byte>, segment: seq<Byte>) returns (c: nat)
    requires |src| == 4 && |dst| == 4 && |segment| < SHORT
    ensures c == ONES - Folded(TcpSum(PseudoHeader(src, dst, |segment|), segment))
  {
    var ph := PseudoHeader(src, dst, |segment|);
    NoOverflow(ph);
    var start := AddWords(0, ph, 1);
    var sum := AddWords(start, segment, 256);
    c := Finish(sum);
  }

  /** What tcp_checksum adds up. */
  function TcpSum(ph: seq<Byte>, segment: seq<Byte>): (r: nat) {
    LittleSum(ph) + if |segment| % 2 == 0 then LittleSum(segment)
      else LittleSum(segment[..|segment| - 1]) + Word(0, segment[|segment| - 1])
  }

  /** tcp_checksum is the checksum of pseudo-header and segment, padded with a zero, exactly
      if the segment has even length or ends in a zero byte. */
  lemma {:induction false} TcpChecksumIff(ph: seq<Byte>, segment: seq<Byte>)
    requires |ph| == 12
    ensures OnesSum(ph + segment) <= ONES
    ensures ONES - Folded(TcpSum(ph, segment)) == ONES - OnesSum(ph + segment) <==>
      |segment| % 2 == 0 || segment[|segment| - 1] == 0
  {
    OnesSumIsFolded(ph + segment);
    TcpSumApart(ph, segment);
  }

  lemma {:induction false} TcpSumApart(ph: seq<Byte>, segment: seq<Byte>)
    requires |ph| == 12
    ensures Folded(TcpSum(ph, segment)) == Folded(LittleSum(ph + segment)) <==>
      |segment| % 2 == 0 || segment[|segment| - 1] == 0
  {
    LittleSumAppend(ph, segment);
    if |segment| % 2 == 1 {
      OddSum(segment);
      var last: nat := segment[|segment| - 1];
      FoldedApart(LittleSum(ph + segment), TcpSum(ph, segment), LittleSum(ph) + LittleSum(segment[..|segment| - 1]),
        last);
    }
  }

  lemma {:induction false} FoldedApart(s: nat, t: nat, a: nat, b: nat)
    requires b < 256 && s == a + b && t == a + Word(0, b)
    ensures Folded(t) == Folded(s) <==> b == 0
  {
    var p := FoldedSplit(s);
    var q := FoldedSplit(t);
  }

  /** A segment of one byte 1 behind a pseudo-header of zeros: the sums are 256 and 1. */
  lemma {:induction false} OddByte(ph: seq<Byte>)
    requires |ph| == 12 && forall i :: 0 <= i < 12 ==> ph[i] == 0
    ensures TcpSum(ph, [1]) == 256 && OnesSum(ph + [1]) == 1
  {
    OneByte([1]);
    ZerosFirst(ph, [1], 6);
  }

  lemma {:induction false} OneByte(s: seq<Byte>)
    requires |s| == 1
    ensures OnesSum(s) == s[0] <= ONES && LittleSum(s[..|s| - 1]) + Word(0, s[|s| - 1]) == Word(0, s[0]) && |s| % 2 == 1
  {
    assert s[..|s| - 1] == [] && LittleSum([]) == 0;
  }

  lemma {:induction false} ZeroPair(s: seq<Byte>)
    requires OnesSum(s) <= ONES
    ensures LittleSum([0, 0] + s) == LittleSum(s) && OnesSum([0, 0] + s) == OnesSum(s)
  {
    assert ([0, 0] + s)[2..] == s;
  }

  lemma PairsFirst(z: seq<Byte>, s: seq<Byte>)
    requires |z| >= 2 && z[0] == 0 && z[1] == 0
    ensures z == [0, 0] + z[2..] && z + s == [0, 0] + (z[2..] + s)
  {
  }

  lemma {:induction false} NothingFirst(s: seq<Byte>)
    ensures [] + s == s && LittleSum([]) == 0 && OnesSum([]) == 0
  {
  }

  /** Zeros in front add nothing. */
  lemma {:induction false} ZerosFirst(z: seq<Byte>, s: seq<Byte>, half: nat)
    requires |z| == 2 * half && (forall i :: 0 <= i < |z| ==> z[i] == 0) && OnesSum(s) <= ONES
    ensures LittleSum(z) == 0 && OnesSum(z) == 0 && OnesSum(z + s) == OnesSum(s)
    decreases half
  {
    NothingFirst(s);
    if half > 0 {
      var rest := z[2..];
      ZerosFirst(rest, s, half - 1);
      PairsFirst(z, s);
      ZeroPair(rest);
      ZeroPair(rest + s);
    } else {
      assert z == [];
    }
  }
}
