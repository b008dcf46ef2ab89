/** Bitmaps held in bytes, as both the frame and the page allocator keep them. */
module Bits {
  function Mask(i: nat): (r: bv8)
    requires i < 8
  {
    (1 as bv8) << i
  }

  function BitAt(bytes: seq<bv8>, i: nat): (r: bool)
    requires i < 8 * |bytes|
  {
    On(bytes[i / 8], i % 8)
  }

  /** The first n bits as a sequence. */
  function Flags(bytes: seq<bv8>, n: nat): (s: seq<bool>)
    requires n <= 8 * |bytes|
    ensures |s| == n
  {
    seq(n, i requires 0 <= i < n => BitAt(bytes, i))
  }

  lemma MaskBits(b: bv8, i: nat, j: nat)
    requires i < 8 && j < 8
    ensures (b | Mask(i)) & Mask(j) != 0 <==> i == j || b & Mask(j) != 0
    ensures (b & !Mask(i)) & Mask(j) != 0 <==> i != j && b & Mask(j) != 0
  {
    var c := b;
    assert i == 0 || i == 1 || i == 2 || i == 3 || i == 4 || i == 5 || i == 6 || i == 7;
    assert j == 0 || j == 1 || j == 2 || j == 3 || j == 4 || j == 5 || j == 6 || j == 7;
  }

  lemma FullByte(b: bv8, j: nat)
    requires j < 8 && b == 0xFF
    ensures b & Mask(j) != 0
  {
    assert j == 0 || j == 1 || j == 2 || j == 3 || j == 4 || j == 5 || j == 6 || j == 7;
  }

  predicate On(b: bv8, j: nat)
    requires j < 8
  {
    b & Mask(j) != 0
  }

  /** Changing one bit of one byte changes one flag. */
  lemma FlagsUpdate(s: seq<bv8>, i: nat, n: nat, b: bv8, v: bool)
    requires i < n <= 8 * |s|
    requires forall j: nat {:trigger On(b, j)} :: j < 8 ==> On(b, j) == (if j == i % 8 then v else On(s[i / 8], j))
    ensures Flags(s[i / 8 := b], n) == Flags(s, n)[i := v]
  {
    var t, u := Flags(s[i / 8 := b], n), Flags(s, n)[i := v];
    forall j | 0 <= j < n ensures t[j] == u[j] {
      assert On(b, j % 8) == if j % 8 == i % 8 then v else On(s[i / 8], j % 8);
    }
  }

  lemma SetByte(s: seq<bv8>, i: nat, n: nat)
    requires i < n <= 8 * |s|
    ensures Flags(s[i / 8 := s[i / 8] | Mask(i % 8)], n) == Flags(s, n)[i := true]
  {
    forall j: nat | j < 8 ensures On(s[i / 8] | Mask(i % 8), j) == (j == i % 8 || On(s[i / 8], j)) {
      MaskBits(s[i / 8], i % 8, j);
    }
    FlagsUpdate(s, i, n, s[i / 8] | Mask(i % 8), true);
  }

  lemma ClearByte(s: seq<bv8>, i: nat, n: nat)
    requires i < n <= 8 * |s|
    ensures Flags(s[i / 8 := s[i / 8] & !Mask(i % 8)], n) == Flags(s, n)[i := false]
  {
    forall j: nat | j < 8 ensures On(s[i / 8] & !Mask(i % 8), j) == (j != i % 8 && On(s[i / 8], j)) {
      MaskBits(s[i / 8], i % 8, j);
    }
    FlagsUpdate(s, i, n, s[i / 8] & !Mask(i % 8), false);
  }

  method TestBit(bytes: array<bv8>, i: nat, ghost n: nat) returns (isSet: bool)
    requires i < n <= 8 * bytes.Length
    ensures isSet == Flags(bytes[..], n)[i]
  {
    isSet := bytes[i / 8] & Mask(i % 8) != 0;
  }

  /** A byte of 0xFF has no clear flag. */
  lemma FullByteFlags(s: seq<bv8>, k: nat, n: nat)
    requires k < |s| && 8 * k + 8 <= n <= 8 * |s| && s[k] == 0xFF
    ensures forall i :: 8 * k <= i < 8 * k + 8 ==> Flags(s, n)[i]
  {
    forall i | 8 * k <= i < 8 * k + 8 ensures Flags(s, n)[i] {
      FullByte(s[k], i % 8);
    }
  }

  method SetBit(bytes: array<bv8>, i: nat, ghost n: nat)
    requires i < n <= 8 * bytes.Length
    modifies bytes
    ensures Flags(bytes[..], n) == old(Flags(bytes[..], n))[i := true]
  {
    SetByte(bytes[..], i, n);
    bytes[i / 8] := bytes[i / 8] | Mask(i % 8);
    assert bytes[..] == old(bytes[..][i / 8 := bytes[i / 8] | Mask(i % 8)]);
  }

  method ClearBit(bytes: array<bv8>, i: nat, ghost n: nat)
    requires i < n <= 8 * bytes.Length
    modifies bytes
    ensures Flags(bytes[..], n) == old(Flags(bytes[..], n))[i := false]
  {
    ClearByte(bytes[..], i, n);
    bytes[i / 8] := bytes[i / 8] & !Mask(i % 8);
    assert bytes[..] == old(bytes[..][i / 8 := bytes[i / 8] & !Mask(i % 8)]);
  }

  // ---- counting and runs of clear bits ----

  function Count(s: seq<bool>): (r: nat) {
    if s == [] then 0 else Count(s[..|s| - 1]) + if s[|s| - 1] then 1 else 0
  }

  lemma {:induction false} CountNone(s: seq<bool>)
    requires forall i :: 0 <= i < |s| ==> !s[i]
    ensures Count(s) == 0
  {
    if s != [] {
      CountNone(s[..|s| - 1]);
    }
  }

  lemma {:induction false} CountUpdate(s: seq<bool>, i: nat, v: bool)
    requires i < |s|
    ensures Count(s[i := v]) == Count(s) + (if v then 1 else 0) - (if s[i] then 1 else 0)
  {
    var l := |s| - 1;
    if i == l {
      assert s[i := v][..l] == s[..l];
    } else {
      CountUpdate(s[..l], i, v);
      assert s[i := v][..l] == s[..l][i := v];
    }
  }

  lemma {:induction false} CountBound(s: seq<bool>)
    ensures Count(s) <= |s|
    ensures Count(s) == |s| <==> forall i :: 0 <= i < |s| ==> s[i]
  {
    if s != [] {
      var t := s[..|s| - 1];
      CountBound(t);
      assert forall i :: 0 <= i < |t| ==> t[i] == s[i];
    }
  }

  /** [start, start + n) lies inside and is clear. */
  predicate ClearRun(s: seq<bool>, start: nat, n: nat) {
    start + n <= |s| && forall i :: start <= i < start + n ==> !s[i]
  }

  predicate SetRun(s: seq<bool>, start: nat, n: nat) {
    start + n <= |s| && forall i :: start <= i < start + n ==> s[i]
  }

  /** The flags with [start, start + n) set to v, as far as it lies inside. */
  function Marked(s: seq<bool>, start: nat, n: nat, v: bool): (t: seq<bool>)
    ensures |t| == |s|
    ensures forall i :: 0 <= i < |s| ==> t[i] == if start <= i < start + n then v else s[i]
  {
    seq(|s|, i requires 0 <= i < |s| => if start <= i < start + n then v else s[i])
  }

  /** One more flag marked. */
  lemma MarkedStep(s: seq<bool>, start: nat, n: nat, v: bool)
    ensures Marked(s, start, 0, v) == s
    ensures start + n < |s| ==> Marked(s, start, n + 1, v) == Marked(s, start, n, v)[start + n := v]
    ensures start + n >= |s| ==> forall k: nat :: n <= k ==> Marked(s, start, k, v) == Marked(s, start, n, v)
  {
  }

  lemma {:induction false} CountMarked(s: seq<bool>, start: nat, n: nat)
    requires start + n <= |s|
    ensures ClearRun(s, start, n) ==> Count(Marked(s, start, n, true)) == Count(s) + n
    ensures SetRun(s, start, n) ==> Count(Marked(s, start, n, false)) == Count(s) - n
  {
    if n == 0 {
      assert Marked(s, start, 0, true) == s == Marked(s, start, 0, false);
    } else {
      CountMarked(s, start, n - 1);
      var t, f := Marked(s, start, n - 1, true), Marked(s, start, n - 1, false);
      CountUpdate(t, start + n - 1, true);
      CountUpdate(f, start + n - 1, false);
      assert Marked(s, start, n, true) == t[start + n - 1 := true];
      assert Marked(s, start, n, false) == f[start + n - 1 := false];
    }
  }

  /** A clear run leaves room for itself. */
  lemma ClearRunFits(s: seq<bool>, start: nat, n: nat)
    requires ClearRun(s, start, n)
    ensures Count(s) + n <= |s|
  {
    CountMarked(s, start, n);
    CountBound(Marked(s, start, n, true));
  }

  /** Marking a clear run and clearing it again changes nothing. */
  lemma MarkedBack(s: seq<bool>, start: nat, n: nat)
    requires ClearRun(s, start, n)
    ensures Marked(Marked(s, start, n, true), start, n, false) == s
  {
  }
}
