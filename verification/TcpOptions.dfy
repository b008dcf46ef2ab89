/** The options of a TCP header, section 3.1 of RFC 9293, as process_tcp_options reads them. */
module TcpOptions {
  import opened Words

  const DEFAULT_MSS: nat := 1460

  /** An option other than the end mark. Other covers any kind that has a length byte, also
      a maximum segment size of unusual length. */
  datatype Opt = Nop | Mss(value: nat) | Other(kind: nat, body: seq<nat>)

  predicate WellFormed(o: Opt) {
    match o
    case Nop => true
    case Mss(value) => value < BYTE * BYTE
    case Other(kind, body) =>
      1 < kind < BYTE && |body| <= BYTE - 3 && (kind == 2 ==> |body| != 2) && forall b <- body :: b < BYTE
  }

  function Encoded(o: Opt): (r: seq<nat>) {
    match o
    case Nop => [1]
    case Mss(value) => [2, 4, value / BYTE, value % BYTE]
    case Other(kind, body) => [kind, |body| + 2] + body
  }

  function EncodedAll(os: seq<Opt>): (r: seq<nat>) {
    if os == [] then [] else Encoded(os[0]) + EncodedAll(os[1..])
  }

  /** What the options say about the maximum segment size: the last word counts, up to 1460. */
  function Said(os: seq<Opt>, mss: nat): (r: nat) {
    if os == [] then mss else Said(os[1..], if os[0].Mss? then Least(os[0].value, DEFAULT_MSS) else mss)
  }

  /** The parse, whatever the bytes. */
  function Parsed(bytes: seq<nat>, mss: nat): (r: nat)
    decreases |bytes|
  {
    if bytes == [] || bytes[0] == 0 then mss
    else if bytes[0] == 1 then Parsed(bytes[1..], mss)
    else if |bytes| == 1 || bytes[1] < 2 then mss
    else if bytes[0] == 2 && bytes[1] == 4 && |bytes| >= 4 then
      Parsed(bytes[4..], Least(bytes[2] * BYTE + bytes[3], DEFAULT_MSS))
    else if bytes[1] > |bytes| then mss
    else Parsed(bytes[bytes[1]..], mss)
  }

  lemma ParsedOne(o: Opt, rest: seq<nat>, mss: nat)
    requires WellFormed(o)
    ensures Parsed(Encoded(o) + rest, mss) == Parsed(rest, if o.Mss? then Least(o.value, DEFAULT_MSS) else mss)
  {
    var bytes := Encoded(o) + rest;
    match o
    case Nop =>
      assert bytes[1..] == rest;
    case Mss(value) =>
      assert bytes[4..] == rest;
    case Other(kind, body) =>
      assert bytes[|body| + 2..] == rest;
  }

  /** Encoding and parsing: of a well-formed list of options, whether or not an end mark and
      padding follow, the parse finds what the list says. */
  lemma {:induction false} ParsedEncoded(os: seq<Opt>, end: seq<nat>, mss: nat)
    requires (forall o <- os :: WellFormed(o)) && (end == [] || end[0] == 0)
    ensures Parsed(EncodedAll(os) + end, mss) == Said(os, mss)
  {
    if os == [] {
      assert EncodedAll(os) + end == end;
    } else {
      var rest := EncodedAll(os[1..]) + end;
      assert EncodedAll(os) + end == Encoded(os[0]) + rest;
      ParsedOne(os[0], rest, mss);
      ParsedEncoded(os[1..], end, if os[0].Mss? then Least(os[0].value, DEFAULT_MSS) else mss);
    }
  }

  /** Whatever the bytes, the size never exceeds what it was or 1460. */
  lemma {:induction false} ParsedBound(bytes: seq<nat>, mss: nat)
    ensures Parsed(bytes, mss) <= if mss < DEFAULT_MSS then DEFAULT_MSS else mss
    decreases |bytes|
  {
    if bytes != [] && bytes[0] != 0 {
      if bytes[0] == 1 {
        ParsedBound(bytes[1..], mss);
      } else if |bytes| > 1 && bytes[1] >= 2 {
        if bytes[0] == 2 && bytes[1] == 4 && |bytes| >= 4 {
          ParsedBound(bytes[4..], Least(bytes[2] * BYTE + bytes[3], DEFAULT_MSS));
        } else if bytes[1] <= |bytes| {
          ParsedBound(bytes[bytes[1]..], mss);
        }
      }
    }
  }

  /** process_tcp_options; `mss0` is the size the connection starts with. */
  method ProcessOptions(options: seq<nat>, mss0: nat) returns (mss: nat)
    requires |options| < BYTE
    ensures mss == Parsed(options, mss0)
  {
    mss := mss0;
    var at := 0;
    while at < |options|
      invariant at <= |options| && Parsed(options[at..], mss) == Parsed(options, mss0)
    {
      ghost var rest := options[at..];
      var kind := options[at];
      if kind == 0 {
        return;
      }
      if kind == 1 {
        assert rest[1..] == options[at + 1..];
        at := at + 1;
        continue;
      }
      if at + 1 == |options| {
        return;
      }
      var length := options[at + 1];
      if length < 2 {
        return;
      }
      at := at + 2;
      if kind == 2 && length == 4 && at + 2 <= |options| {
        var value := options[at] * BYTE + options[at + 1];
        mss := if value < DEFAULT_MSS then value else DEFAULT_MSS;
        assert rest[4..] == options[at + 2..];
        at := at + 2;
      } else {
        if length - 2 > |options| - at {
          return;
        }
        assert rest[length..] == options[at + length - 2..];
        at := at + length - 2;
      }
    }
  }
}
