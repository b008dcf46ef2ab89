/** The transmission side of a TCP connection as values: sending, the queue of unacknowledged
    segments, acknowledgements and retransmission. */
module Segments {
  import opened Words

  const RECV_BUFFER: nat := 4096
  const MAX_RETRIES: nat := 5

  datatype Flags = Flags(fin: bool, syn: bool, rst: bool, psh: bool, ack: bool)

  const ACK := Flags(false, false, false, false, true)
  const SYN := Flags(false, true, false, false, false)
  const FIN := Flags(true, false, false, false, false)
  const RST := Flags(false, false, true, false, false)
  const SYN_ACK := Flags(false, true, false, false, true)
  const FIN_ACK := Flags(true, false, false, false, true)
  const PSH_ACK := Flags(false, false, false, true, true)

  datatype State = Closed | Listen | SynSent | SynReceived | Established | WaitForAck
    | FinWait1 | FinWait2 | CloseWait | Closing | LastAck | TimeWait

  /** An unacknowledged segment. */
  datatype Entry = Entry(sn: nat, data: string, flags: Flags, retries: nat)

  /** A segment handed to the network. */
  datatype Segment = Segment(to: nat, srcPort: nat, destPort: nat, sn: nat, ack: nat, flags: Flags, window: nat,
    mssOption: bool, data: string)

  /** The fields of a connection; `wrapped` notes that its sequence numbers once ran over, `fed`
      that an application has sent data on it. */
  datatype Tcb = Tcb(localIp: nat, remoteIp: nat, localPort: nat, remotePort: nat, mss: nat, nextSeq: nat,
    expectedAck: nat, dupAcks: nat, state: State, queue: seq<Entry>, recvLen: nat, lastAck: nat, wrapped: bool,
    fed: bool)

  /** How many sequence numbers a segment takes: its bytes, and one for SYN or FIN. */
  function Span(flags: Flags, data: string): (r: nat) {
    |data| + if flags.syn || flags.fin then 1 else 0
  }

  function End(e: Entry): (r: nat) {
    e.sn + Span(e.flags, e.data)
  }

  /** tcp_send_segment's effect; `got` tells whether memory for the queue entry could be had. */
  function Sent(t: Tcb, flags: Flags, data: string, got: bool): (r: Tcb) {
    var span := Span(flags, data);
    t.(nextSeq := (t.nextSeq + span) % WORD,
       wrapped := t.wrapped || t.nextSeq + span >= WORD,
       queue := if span > 0 && got then [Entry(t.nextSeq, data, flags, 0)] + t.queue else t.queue)
  }

  function SegmentOf(t: Tcb, flags: Flags, data: string): (r: Segment) {
    Segment(t.remoteIp, t.localPort, t.remotePort, t.nextSeq, t.expectedAck, flags,
      (RECV_BUFFER - t.recvLen) % SHORT, flags.syn, data)
  }

  /** Newest first: every entry takes sequence numbers, they do not overlap, and all are below top. */
  predicate Ordered(q: seq<Entry>, top: nat) {
    q == [] || (0 < Span(q[0].flags, q[0].data) && End(q[0]) <= top && Ordered(q[1..], q[0].sn))
  }

  /** As long as no sequence number has run over, the queue is in order below next_seq.
      Lengths are 16-bit numbers. */
  predicate InOrder(t: Tcb) {
    t.nextSeq < WORD && (forall e <- t.queue :: |e.data| < SHORT) && (!t.wrapped ==> Ordered(t.queue, t.nextSeq))
  }

  lemma OrderedBelow(q: seq<Entry>, low: nat, top: nat)
    requires Ordered(q, low) && low <= top
    ensures Ordered(q, top)
  {
  }

  /** In an ordered queue an earlier entry ends at or below the start of every later one. */
  lemma {:induction false} OrderedPairs(q: seq<Entry>, top: nat, i: nat, j: nat)
    requires Ordered(q, top) && i < j < |q|
    ensures End(q[j]) <= q[i].sn < End(q[i]) <= top
  {
    if i > 0 {
      OrderedPairs(q[1..], q[0].sn, i - 1, j - 1);
    } else {
      OrderedHead(q[1..], q[0].sn, j - 1);
    }
  }

  lemma {:induction false} OrderedHead(q: seq<Entry>, top: nat, j: nat)
    requires Ordered(q, top) && j < |q|
    ensures q[j].sn < End(q[j]) <= top
  {
    if j > 0 {
      OrderedHead(q[1..], q[0].sn, j - 1);
    }
  }

  /** Sending keeps the queue in order, whether or not an entry could be queued. */
  lemma SentInOrder(t: Tcb, flags: Flags, data: string, got: bool)
    requires InOrder(t) && |data| < SHORT
    ensures InOrder(Sent(t, flags, data, got))
  {
    var s := Sent(t, flags, data, got);
    if !s.wrapped {
      OrderedBelow(t.queue, t.nextSeq, s.nextSeq);
      assert s.queue == t.queue || s.queue[1..] == t.queue;
    }
  }

  // ---- acknowledgements ----

  /** The entries that ack leaves in the queue. The comparison is that of the 32-bit sum. */
  function Kept(q: seq<Entry>, ack: nat): (r: seq<Entry>) {
    if q == [] then []
    else if ack >= (q[0].sn + |q[0].data|) % WORD then Kept(q[1..], ack)
    else [q[0]] + Kept(q[1..], ack)
  }

  /** Of an ordered queue an acknowledgement drops exactly an oldest part, and what stays are
      precisely the entries whose data it does not cover. */
  lemma {:induction false} KeptIsNewest(q: seq<Entry>, top: nat, ack: nat) returns (m: nat)
    requires Ordered(q, top) && top < WORD
    ensures m <= |q| && Kept(q, ack) == q[..m]
    ensures forall k :: 0 <= k < |q| ==> (k < m <==> ack < q[k].sn + |q[k].data|)
    ensures Ordered(Kept(q, ack), top)
  {
    if q == [] {
      m := 0;
    } else {
      m := KeptIsNewest(q[1..], q[0].sn, ack);
      if ack >= q[0].sn + |q[0].data| {
        if |q| > 1 {
          OrderedHead(q[1..], q[0].sn, 0);
        }
        OrderedBelow(Kept(q[1..], ack), q[0].sn, top);
      } else {
        m := m + 1;
        assert q[..m] == [q[0]] + q[1..][..m - 1];
        assert Kept(q, ack)[1..] == Kept(q[1..], ack);
        forall k | 0 <= k < |q| ensures k < m <==> ack < q[k].sn + |q[k].data| {
          assert k > 0 ==> q[k] == q[1..][k - 1];
        }
      }
    }
  }

  lemma {:induction false} KeptOnes(q: seq<Entry>, ack: nat)
    ensures forall e <- Kept(q, ack) :: e in q
  {
    if q != [] {
      KeptOnes(q[1..], ack);
    }
  }

  // ---- runs of sends ----

  /** The queue leaves no gap between its entries, nor below top. */
  predicate Abuts(q: seq<Entry>, top: nat) {
    q == [] || (End(q[0]) == top && 0 < Span(q[0].flags, q[0].data) && Abuts(q[1..], q[0].sn))
  }

  /** A run of sends for each of which the queue entry could be had. */
  function SentAll(t: Tcb, run: seq<(Flags, string)>): (r: Tcb) {
    if run == [] then t else Sent(SentAll(t, run[..|run| - 1]), run[|run| - 1].0, run[|run| - 1].1, true)
  }

  function Spans(run: seq<(Flags, string)>): (r: nat) {
    if run == [] then 0 else Spans(run[..|run| - 1]) + Span(run[|run| - 1].0, run[|run| - 1].1)
  }

  /** After sends alone the queue abuts exactly up to next_seq. */
  lemma {:induction false} SendsAbut(t: Tcb, run: seq<(Flags, string)>)
    requires InOrder(t) && Abuts(t.queue, t.nextSeq) && !SentAll(t, run).wrapped
    ensures var s := SentAll(t, run); !t.wrapped && Abuts(s.queue, s.nextSeq) && s.nextSeq == t.nextSeq + Spans(run)
  {
    if run != [] {
      SendsAbut(t, run[..|run| - 1]);
      SendAbuts(SentAll(t, run[..|run| - 1]), run[|run| - 1].0, run[|run| - 1].1);
    }
  }

  lemma {:induction false} SendAbuts(t: Tcb, flags: Flags, data: string)
    requires Abuts(t.queue, t.nextSeq) && !Sent(t, flags, data, true).wrapped
    ensures var s := Sent(t, flags, data, true);
      !t.wrapped && Abuts(s.queue, s.nextSeq) && s.nextSeq == t.nextSeq + Span(flags, data)
  {
    var s := Sent(t, flags, data, true);
    assert s.queue == t.queue || s.queue[1..] == t.queue;
  }

  /** In a queue without gaps every sequence number from the oldest entry up to top belongs to
      some entry. */
  lemma {:induction false} AbutsCovers(q: seq<Entry>, top: nat, n: nat) returns (k: nat)
    requires Abuts(q, top) && q != [] && q[|q| - 1].sn <= n < top
    ensures k < |q| && q[k].sn <= n < End(q[k])
  {
    if n >= q[0].sn {
      k := 0;
    } else {
      k := AbutsCovers(q[1..], q[0].sn, n);
      k := k + 1;
    }
  }

  // ---- retransmission ----

  /** What a timer sweep does to a connection whose timer is due and that is not given up. */
  function Retried(t: Tcb, got: bool): (s: Tcb) {
    if t.state == WaitForAck then
      if t.queue == [] then t else
        var e := t.queue[0];
        var u := Sent(t, ACK, e.data, got);
        var i: nat := |u.queue| - |t.queue|;
        u.(queue := u.queue[i := e.(retries := e.retries + 1)])
    else
      Sent(t, if t.state == SynSent then SYN else FIN, "", got)
  }

  /** The segment the sweep sends. */
  function RetriedSegments(t: Tcb): (s: seq<Segment>) {
    if t.state == WaitForAck then if t.queue == [] then [] else [SegmentOf(t, ACK, t.queue[0].data)]
    else [SegmentOf(t, if t.state == SynSent then SYN else FIN, "")]
  }

  lemma RetriedInOrder(t: Tcb, got: bool)
    requires InOrder(t)
    ensures InOrder(Retried(t, got)) && Retried(t, got).state == t.state
  {
    if t.state == WaitForAck && t.queue != [] {
      var e := t.queue[0];
      SentInOrder(t, ACK, e.data, got);
      var u, s := Sent(t, ACK, e.data, got), Retried(t, got);
      if !s.wrapped {
        if u.queue == t.queue {
          assert s.queue[1..] == t.queue[1..];
        } else {
          assert s.queue[1..][1..] == t.queue[1..];
        }
      }
    } else if t.state != WaitForAck {
      SentInOrder(t, if t.state == SynSent then SYN else FIN, "", got);
    }
  }

  /** Whether a sweep closes the connection when a timer with that many retries is due. */
  predicate GivesUp(t: Tcb, retries: nat) {
    if t.state == WaitForAck then t.queue == [] || t.queue[0].retries >= MAX_RETRIES else retries >= MAX_RETRIES
  }

  /** Due sweeps in a row; `gots` tells for each whether memory for a queue entry was had. */
  function RetriedTimes(t: Tcb, gots: seq<bool>): (r: Tcb) {
    if gots == [] then t else Retried(RetriedTimes(t, gots[..|gots| - 1]), gots[|gots| - 1])
  }

  /** Without data to send again a due sweep sends a FIN, or a SYN, and each takes a number. */
  lemma {:induction false} RetriedNumbers(t: Tcb, gots: seq<bool>)
    requires t.nextSeq < WORD && t.state != WaitForAck
    ensures RetriedTimes(t, gots).state == t.state && RetriedTimes(t, gots).nextSeq == (t.nextSeq + |gots|) % WORD
  {
    if gots != [] {
      RetriedNumbers(t, gots[..|gots| - 1]);
      NextNumber(t.nextSeq + |gots| - 1);
    }
  }

  lemma NextNumber(n: nat)
    ensures (n % WORD + 1) % WORD == (n + 1) % WORD
  {
  }

  /** How many sweeps at the end of the row found no memory. */
  function Failures(gots: seq<bool>): (r: nat) {
    if gots == [] || gots[|gots| - 1] then 0 else 1 + Failures(gots[..|gots| - 1])
  }

  /** The retry limit counts sweeps only for an entry without data. A data segment is queued
      afresh with each retransmission that finds memory, so it is given up only after
      MAX_RETRIES sweeps in a row without memory, and while memory lasts it is sent for ever. */
  lemma {:induction false} GivenUpIff(t: Tcb, gots: seq<bool>)
    requires t.state == WaitForAck && t.queue != [] && t.queue[0].retries == 0
    ensures var s := RetriedTimes(t, gots);
      && s.state == WaitForAck && s.queue != [] && s.queue[0].data == t.queue[0].data
      && s.queue[0].retries == (if t.queue[0].data == "" then |gots| else Failures(gots))
      && (GivesUp(s, 0) <==> (if t.queue[0].data == "" then |gots| else Failures(gots)) >= MAX_RETRIES)
  {
    if gots != [] {
      GivenUpIff(t, gots[..|gots| - 1]);
    }
  }
}
