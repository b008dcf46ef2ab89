/** The loops of _vsnprintf and its helpers, against the text of Printf. */
module PrintfLoops {
  import opened Words
  import opened Numerals
  import opened Printf

  lemma Grouped(a: string, b: string, c: string)
    ensures a + b + c == a + (b + c)
  {
  }

  /** The output of snprintf: characters beyond the buffer are counted but not written. */
  class Output {
    const buffer: array<char>
    const max: nat
    var idx: nat
    ghost var text: string     // everything put out so far
    ghost const tail: string   // what lies behind the part of the buffer that may be written

    ghost predicate Valid()
      reads this, buffer
    {
      && max <= buffer.Length && idx == |text| && buffer[max..] == tail
      && forall i :: 0 <= i < |text| && i < max ==> buffer[i] == text[i]
    }

    constructor (buffer: array<char>, max: nat)
      requires max <= buffer.Length
      ensures Valid() && text == "" && this.buffer == buffer && this.max == max && tail == buffer[max..]
    {
      this.buffer, this.max, idx, text, tail := buffer, max, 0, "", buffer[max..];
    }

    /** _out_buffer at the next index. */
    method Out(c: char)
      requires Valid()
      modifies this, buffer
      ensures Valid() && text == old(text) + [c]
    {
      if idx < max {
        buffer[idx] := c;
      }
      idx, text := idx + 1, text + [c];
    }

    /** Spaces from position i up to the width. */
    method Pad(i0: nat, width: nat)
      requires Valid()
      modifies this, buffer
      ensures Valid() && text == old(text) + Repeat(' ', width - i0)
    {
      var i := i0;
      while i < width
        invariant i0 <= i && (i <= width || i == i0) && Valid() && text == old(text) + Repeat(' ', i - i0)
      {
        Out(' ');
        assert Repeat(' ', i - i0) + [' '] == Repeat(' ', i + 1 - i0);
        i := i + 1;
      }
    }

    /** The scratch buffer backwards. */
    method OutBackwards(buf: array<char>, n: nat)
      requires Valid() && n <= buf.Length && buf != buffer
      modifies this, buffer
      ensures Valid() && text == old(text) + Reversed(buf[..n])
    {
      ghost var s, before := buf[..n], text;
      assert s[..n] == s;
      var len := n;
      while len > 0
        invariant len <= n && Valid() && buf[..n] == s && text + Reversed(s[..len]) == before + Reversed(s)
      {
        ghost var was := text;
        BackwardsStep(was, s, len);
        len := len - 1;
        Out(buf[len]);
        assert buf[len] == s[len];
      }
      assert text + Reversed(s[..0]) == text;
    }

    lemma {:induction false} BackwardsStep(t: string, s: string, len: nat)
      requires 0 < len <= |s|
      ensures t + [s[len - 1]] + Reversed(s[..len - 1]) == t + Reversed(s[..len])
    {
      assert s[..len][..len - 1] == s[..len - 1];
    }

    /** _out_rev. */
    method OutRev(buf: array<char>, n: nat, width: nat, f: Flags)
      requires Valid() && n <= buf.Length && buf != buffer
      modifies this, buffer
      ensures Valid() && text == old(text) + Aligned(buf[..n], width, f)
    {
      ghost var s, before := buf[..n], text;
      if !f.left && !f.zeropad {
        Pad(n, width);
        OutBackwards(buf, n);
        assert text == before + (Repeat(' ', width - n) + Reversed(s) + "");
      } else {
        OutBackwards(buf, n);
        if f.left {
          Pad(n, width);
          assert text == before + ("" + Reversed(s) + Repeat(' ', width - n));
        } else {
          assert text == before + ("" + Reversed(s) + "");
        }
      }
    }

    // ---- integers ----

    /** Zeros into the scratch buffer. */
    method Zeros(buf: array<char>, n: nat, upTo: nat) returns (len: nat)
      requires n <= SCRATCH == buf.Length
      modifies buf
      ensures len <= SCRATCH && buf[..len] == ZerosTo(old(buf[..n]), upTo)
    {
      len := n;
      assert buf[..n] == old(buf[..n]) + Repeat('0', 0);
      while len < upTo && len < SCRATCH
        invariant n <= len <= SCRATCH && (len <= upTo || len == n) && buf[..len] == old(buf[..n]) + Repeat('0', len - n)
      {
        buf[len] := '0';
        assert Repeat('0', len - n) + ['0'] == Repeat('0', len + 1 - n);
        len := len + 1;
      }
      assert Repeat('0', len - n) == Repeat('0', Least(upTo, SCRATCH) - n);
    }

    /** One more character in the scratch buffer, if there is room. */
    method Cap(buf: array<char>, n: nat, c: char) returns (len: nat)
      requires n <= SCRATCH == buf.Length
      modifies buf
      ensures len <= SCRATCH && buf[..len] == Capped(old(buf[..n]), c)
    {
      len := n;
      if len < SCRATCH {
        buf[len] := c;
        len := len + 1;
        assert buf[..len] == old(buf[..n]) + [c];
      }
    }

    /** The '#' part of _ntoa_format. */
    method Prefix(buf: array<char>, n: nat, base: nat, prec: nat, width: nat, f: Flags) returns (len: nat)
      requires n <= SCRATCH == buf.Length
      modifies buf
      ensures len <= SCRATCH && buf[..len] == Prefixed(old(buf[..n]), base, prec, width, f)
    {
      len := n;
      if f.hash {
        ghost var s := buf[..n];
        if !f.precision && len > 0 && (len == prec || len == width) {
          len := len - 1;
          if len > 0 && base == 16 {
            len := len - 1;
          }
        }
        assert buf[..len] == s[..len];
        if base == 16 {
          len := Cap(buf, len, if f.upper then 'X' else 'x');
        } else if base == 2 {
          len := Cap(buf, len, 'b');
        }
        len := Cap(buf, len, '0');
      }
    }

    /** The padding with zeros of _ntoa_format. */
    method ZeroPad(buf: array<char>, n: nat, prec: nat, width: nat, f: Flags) returns (len: nat)
      requires n <= SCRATCH == buf.Length
      modifies buf
      ensures len <= SCRATCH && buf[..len] == Zeroed(old(buf[..n]), prec, width, f)
    {
      len := n;
      if !f.left {
        len := Zeros(buf, len, prec);
        if f.zeropad {
          len := Zeros(buf, len, width);
        }
      }
    }

    method Sign(buf: array<char>, n: nat, negative: bool, f: Flags) returns (len: nat)
      requires n <= SCRATCH == buf.Length
      modifies buf
      ensures len <= SCRATCH && buf[..len] == Signed(old(buf[..n]), negative, f)
    {
      len := n;
      if negative {
        len := Cap(buf, len, '-');
      } else if f.plus {
        len := Cap(buf, len, '+');
      } else if f.space {
        len := Cap(buf, len, ' ');
      }
    }

    /** The digits into the scratch buffer, least significant first. */
    method WriteDigits(buf: array<char>, value0: nat, base: nat, upper: bool) returns (len: nat)
      requires buf.Length == SCRATCH && value0 < WORD && Base(base)
      modifies buf
      ensures len <= SCRATCH && buf[..len] == Digits(value0, base, upper)
    {
      WordDigits(value0, base, upper);
      var value: nat := value0;
      len := 0;
      var more := true;
      while more
        invariant len <= SCRATCH && (more ==> len < SCRATCH)
        invariant more ==> buf[..len] + Digits(value, base, upper) == Digits(value0, base, upper)
        invariant !more ==> buf[..len] == Digits(value0, base, upper)
        decreases SCRATCH - len, more
      {
        ghost var was := buf[..len];
        DigitsStep(was, value, base, upper);
        buf[len] := DigitChar(Last(value, base), upper);
        assert buf[..len + 1] == was + [DigitChar(Last(value, base), upper)];
        len := len + 1;
        value := Rest(value, base);
        assert value != 0 ==> |Digits(value, base, upper)| > 0;
        more := value != 0 && len < SCRATCH;
      }
    }

    lemma {:induction false} DigitsStep(was: string, value: nat, base: nat, upper: bool)
      requires Base(base)
      ensures var now := was + [DigitChar(Last(value, base), upper)];
        if Rest(value, base) == 0 then was + Digits(value, base, upper) == now
        else was + Digits(value, base, upper) == now + Digits(Rest(value, base), base, upper)
    {
      var d := DigitChar(Last(value, base), upper);
      if Rest(value, base) == 0 {
        assert value < base && Digits(value, base, upper) == [d] + "" == [d];
      } else {
        assert was + ([d] + Digits(Rest(value, base), base, upper)) ==
          was + [d] + Digits(Rest(value, base), base, upper);
      }
    }

    /** _ntoa_format. */
    method NtoaFormat(buf: array<char>, n: nat, negative: bool, base: nat, prec: nat, width: nat, f: Flags)
      requires Valid() && n <= SCRATCH == buf.Length && buf != buffer
      modifies this, buffer, buf
      ensures Valid()
      ensures var w := Narrowed(width, negative, f);
        text == old(text)
          + Aligned(Signed(Prefixed(Zeroed(old(buf[..n]), prec, w, f), base, prec, w, f), negative, f), w, f)
    {
      var w := width;
      if !f.left && width > 0 && f.zeropad && (negative || f.plus || f.space) {
        w := w - 1;
      }
      var len := ZeroPad(buf, n, prec, w, f);
      len := Prefix(buf, len, base, prec, w, f);
      len := Sign(buf, len, negative, f);
      OutRev(buf, len, w, f);
    }

    /** _ntoa_long. */
    method NtoaLong(value: nat, negative: bool, base: nat, prec: nat, width: nat, f: Flags)
      requires Valid() && value < WORD && Base(base)
      modifies this, buffer
      ensures Valid() && text == old(text) + NumberText(value, negative, base, prec, width, f)
    {
      var buf := new char[SCRATCH];
      var len := 0;
      var g := f.(hash := f.hash && value != 0);
      if !g.precision || value != 0 {
        len := WriteDigits(buf, value, base, g.upper);
      }
      assert buf[..len] == Bare(value, base, f);
      NumberTextIs(value, negative, base, prec, width, f);
      NtoaFormat(buf, len, negative, base, prec, width, g);
    }

    // ---- directives ----

    method ParseFlags(s0: string) returns (f: Flags, s: string)
      ensures (f, s) == ReadFlags(s0, NO_FLAGS)
    {
      f, s := NO_FLAGS, s0;
      while s != "" && IsFlag(s[0])
        invariant ReadFlags(s, f) == ReadFlags(s0, NO_FLAGS)
        decreases |s|
      {
        f, s := WithFlag(f, s[0]), s[1..];
      }
    }

    /** _atoi. */
    method Atoi(s0: string) returns (n: nat, s: string)
      ensures (n, s) == Number(s0, 0)
    {
      n, s := 0, s0;
      while s != "" && Digit(s[0])
        invariant Number(s, n) == Number(s0, 0)
        decreases |s|
      {
        n, s := (n * 10 + (s[0] - '0') as nat) % WORD, s[1..];
      }
    }

    method ParseWidth(s: string, f: Flags, args: seq<Arg>) returns (p: Spec)
      ensures p == ReadWidth(s, f, args)
    {
      p := Spec(f, 0, 0, s, args);
      if s != "" && Digit(s[0]) {
        var n, rest := Atoi(s);
        p := Spec(f, n, 0, rest, args);
      } else if s != "" && s[0] == '*' {
        var w := Wrapped(IntArg(args), WORD / 2);
        if w < 0 {
          p := Spec(f.(left := true), -w, 0, s[1..], Later(args));
        } else {
          p := Spec(f, w, 0, s[1..], Later(args));
        }
      }
    }

    method ParsePrecision(p: Spec) returns (q: Spec)
      ensures q == ReadPrecision(p)
    {
      if p.rest == "" || p.rest[0] != '.' {
        return p;
      }
      var s, f := p.rest[1..], p.flags.(precision := true);
      q := Spec(f, p.width, 0, s, p.args);
      if s != "" && Digit(s[0]) {
        var n, rest := Atoi(s);
        q := Spec(f, p.width, n, rest, p.args);
      } else if s != "" && s[0] == '*' {
        var w := Wrapped(IntArg(p.args), WORD / 2);
        q := Spec(f, p.width, if w > 0 then w else 0, s[1..], Later(p.args));
      }
    }

    method IntegerOut(c: char, p: Spec) returns (args: seq<Arg>)
      requires Valid() && IsInteger(c)
      modifies this, buffer
      ensures Valid() && text == old(text) + IntegerText(c, p).0 && args == IntegerText(c, p).1
    {
      var f := IntegerFlags(c, p.flags);
      if f.longLong {
        assert text + "" == text;
        return p.args;
      }
      var v := IntegerArg(c, IntArg(p.args), f);
      NtoaLong(Magnitude(v), v < 0, BaseOf(c), p.precision, p.width, f);
      args := Later(p.args);
    }

    method OutText(s: string)
      requires Valid()
      modifies this, buffer
      ensures Valid() && text == old(text) + s
    {
      var i := 0;
      while i < |s|
        invariant i <= |s| && Valid() && text == old(text) + s[..i]
      {
        Out(s[i]);
        assert s[..i + 1] == s[..i] + [s[i]];
        i := i + 1;
      }
      assert s[..i] == s;
    }

    /** The 'c' and 's' conversions: padding in front or behind. */
    method PaddedOut(s: string, p: Spec)
      requires Valid()
      modifies this, buffer
      ensures Valid() && text == old(text) + Padded(s, p)
    {
      ghost var before := text;
      if p.flags.left {
        OutText(s);
        Pad(|s|, p.width);
        assert text == before + ("" + s + Repeat(' ', p.width - |s|));
      } else {
        Pad(|s|, p.width);
        OutText(s);
        assert text == before + (Repeat(' ', p.width - |s|) + s + "");
      }
    }

    method Convert(p: Spec) returns (args: seq<Arg>)
      requires Valid() && p.rest != "" && Converted(p).Some?
      modifies this, buffer
      ensures Valid() && text == old(text) + Converted(p).value.0 && args == Converted(p).value.1
    {
      var c := p.rest[0];
      args := Later(p.args);
      if IsInteger(c) {
        args := IntegerOut(c, p);
      } else if c == 'c' {
        PaddedOut([(IntArg(p.args) % 256) as char], p);
      } else if c == 's' {
        PaddedOut(Shown(p), p);
      } else if c == 'p' {
        NtoaLong(IntArg(p.args), false, 16, p.precision, 8, p.flags.(zeropad := true, upper := true));
      } else {
        Out(c);
        args := p.args;
      }
    }

    /** The loop of _vsnprintf. */
    method PutFormat(format: string, args0: seq<Arg>)
      requires Valid() && Text(format, args0).Some?
      modifies this, buffer
      ensures Valid() && text == old(text) + Text(format, args0).value
    {
      var s, args := format, args0;
      ghost var whole := text + Text(format, args0).value;
      while s != ""
        invariant Valid() && Text(s, args).Some? && text + Text(s, args).value == whole
        decreases |s|
      {
        if s[0] != '%' {
          Regrouped(text, [s[0]], s, args);
          Out(s[0]);
          s := s[1..];
        } else {
          s, args := Directive(s, args);
        }
      }
      assert text + "" == text;
    }

    lemma {:induction false} Regrouped(was: string, t: string, s: string, args: seq<Arg>)
      requires s != "" && s[0] != '%' && Text(s, args).Some? && t == [s[0]]
      ensures Text(s[1..], args).Some? && was + Text(s, args).value == was + t + Text(s[1..], args).value
    {
      LiteralFirst(s, args);
      Grouped(was, t, Text(s[1..], args).value);
    }

    /** One directive and what is left of format and arguments. */
    method Directive(s: string, args: seq<Arg>) returns (rest: string, later: seq<Arg>)
      requires Valid() && s != "" && s[0] == '%' && Text(s, args).Some?
      modifies this, buffer
      ensures Valid() && |rest| < |s| && Text(rest, later).Some?
      ensures text + Text(rest, later).value == old(text) + Text(s, args).value
    {
      DirectiveFirst(s, args);
      var f, tail := ParseFlags(s[1..]);
      var p := ParseWidth(tail, f, args);
      p := ParsePrecision(p);
      p := ReadLength(p);
      later := PutDirective(p);
      rest := p.rest[1..];
    }

    method PutDirective(p: Spec) returns (later: seq<Arg>)
      requires Valid() && p.rest != "" && Converted(p).Some? && Text(p.rest[1..], Converted(p).value.1).Some?
      modifies this, buffer
      ensures Valid() && later == Converted(p).value.1
      ensures text + Text(p.rest[1..], later).value ==
        old(text) + (Converted(p).value.0 + Text(p.rest[1..], later).value)
    {
      ghost var was := text;
      later := Convert(p);
      Grouped(was, Converted(p).value.0, Text(p.rest[1..], later).value);
    }

    /** _vsnprintf into a buffer: the returned length is that of the whole text, whatever the
        size of the buffer; a buffer with room gets as much of the text as fits before the end
        mark; and nothing is written behind it. */
    method Vsnprintf(format: string, args: seq<Arg>) returns (r: nat)
      requires Valid() && text == "" && Text(format, args).Some?
      modifies this, buffer
      ensures r == |Text(format, args).value| && buffer[max..] == old(buffer[max..])
      ensures 0 < max ==>
        var n := Least(r, max - 1); buffer[..n] == Text(format, args).value[..n] && buffer[n] == '\0'
    {
      PutFormat(format, args);
      assert "" + Text(format, args).value == Text(format, args).value;
      if 0 < max {
        buffer[if idx < max then idx else max - 1] := '\0';
      }
      r := idx;
    }
  }
}
