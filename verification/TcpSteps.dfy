/** What one packet does to the connection it belongs to, state by state. */
module TcpSteps {
  import opened Words
  import Numerals
  import opened Segments
  import opened TcpOptions

  /** A segment from the network. `length` is that of header and data, `offset` the header's
      length in words, `get` whether the data starts with "GET ". */
  datatype Packet = Packet(srcIp: nat, dstIp: nat, srcPort: nat, destPort: nat, sn: nat, ack: nat, flags: Flags,
                           length: nat, offset: nat, options: seq<nat>, get: bool)

  function DataLen(p: Packet): (r: nat) {
    (p.length - 4 * p.offset) % SHORT
  }

  /** The fields of a packet fit their widths, and the options fill the rest of the header. */
  predicate WellFormedPacket(p: Packet) {
    p.sn < WORD && p.ack < WORD && p.offset < 16 && (p.offset >= 5 ==> |p.options| == 4 * p.offset - 20)
  }

  /** The reset that answers a packet. */
  function ResetOf(p: Packet): (r: Segment) {
    Segment(p.srcIp, p.destPort, p.srcPort, p.ack, 0, RST, RECV_BUFFER, false, "")
  }

  /** A connection as a SYN opens it. */
  function Opened(p: Packet, isn: nat): (r: Tcb) {
    Tcb(p.dstIp, p.srcIp, p.destPort, p.srcPort, Parsed(p.options, DEFAULT_MSS), isn, (p.sn + 1) % WORD, 0,
      SynReceived, [], 0, 0, false, false)
  }

  /** What came of the request for the page: its file, no file, or no memory for it. */
  datatype Page = Page(content: string) | Missing | NoMemory

  /** Whether there was memory for the queue entries of the segments sent on the way, and for a timer. */
  datatype Luck = Luck(resend: bool, header: bool, body: bool, fin: bool, timer: bool)

  const NO_LUCK := Luck(false, false, false, false, false)

  const NOT_FOUND: string := "HTTP/1.1 404 Not Found\r\n..."

  function Headers(size: nat): (r: string) {
    "HTTP/1.1 200 OK\r\nContent-Type: text/html\r\nContent-Length: "
      + Numerals.Reversed(Numerals.Digits(size, 10, false)) + "\r\nConnection: close\r\n\r\n"
  }

  /** The file without a newline at its end. */
  function Trimmed(content: string): (r: string) {
    if content != "" && content[|content| - 1] == '\n' then content[..|content| - 1] else content
  }

  /** The data length of a segment is a 16-bit number. */
  function Cut(data: string): (r: string) {
    data[..|data| % SHORT]
  }

  /** The packet is a request that is answered by its page. */
  predicate Answers(p: Packet, page: Page) {
    DataLen(p) > 0 && p.get && page.Page?
  }

  function Replied(t: Tcb, page: Page, header: bool, body: bool): (r: Tcb) {
    match page
    case Page(content) =>
      var file := Trimmed(content);
      Sent(Sent(t, PSH_ACK, Cut(Headers(|file|)), header), PSH_ACK, Cut(file), body).(state := WaitForAck)
    case Missing => Sent(t, PSH_ACK, NOT_FOUND, header).(state := CloseWait)
    case NoMemory => t.(state := CloseWait)
  }

  function ReplySegments(t: Tcb, page: Page, header: bool): (r: seq<Segment>) {
    match page
    case Page(content) =>
      var file := Trimmed(content);
      var headers := Cut(Headers(|file|));
      [SegmentOf(t, PSH_ACK, headers), SegmentOf(Sent(t, PSH_ACK, headers, header), PSH_ACK, Cut(file))]
    case Missing => [SegmentOf(t, PSH_ACK, NOT_FOUND)]
    case NoMemory => []
  }

  // ---- established ----

  /** The third repetition of last_ack sends the newest entry again. */
  function DupAcked(t: Tcb, ack: nat, got: bool): (r: Tcb) {
    if ack != t.lastAck then t else
      var u := t.(dupAcks := (t.dupAcks + 1) % BYTE);
      if u.dupAcks == 3 && u.queue != [] then Sent(u, ACK, u.queue[0].data, got) else u
  }

  function DupSegments(t: Tcb, ack: nat): (r: seq<Segment>) {
    if ack == t.lastAck && (t.dupAcks + 1) % BYTE == 3 && t.queue != [] then [SegmentOf(t, ACK, t.queue[0].data)]
      else []
  }

  /** next_seq never falls behind the acknowledgement, and the queue loses what it covers. */
  function Acked(t: Tcb, p: Packet): (r: Tcb) {
    t.(expectedAck := (p.sn + DataLen(p)) % WORD,
       nextSeq := if p.ack > t.nextSeq then p.ack else t.nextSeq,
       queue := Kept(t.queue, p.ack))
  }

  function AckSegments(t: Tcb, p: Packet): (r: seq<Segment>) {
    if p.sn != t.expectedAck then [SegmentOf(t, ACK, "")] else []
  }

  /** The data of the segment: a request is answered, anything else goes to the buffer. */
  function Delivered(t: Tcb, p: Packet, page: Page, header: bool, body: bool): (r: Tcb) {
    if DataLen(p) == 0 then t
    else if p.get then Replied(t, page, header, body).(state := WaitForAck)
    else t.(recvLen := (t.recvLen + DataLen(p)) % SHORT)
  }

  function DeliverySegments(t: Tcb, p: Packet, page: Page, header: bool): (r: seq<Segment>) {
    if DataLen(p) == 0 then []
    else if p.get then ReplySegments(t, page, header)
    else [SegmentOf(Delivered(t, p, page, header, false), ACK, "")]
  }

  function Closing(t: Tcb): (r: Tcb) {
    t.(expectedAck := (t.expectedAck + 1) % WORD, state := CloseWait)
  }

  function Finished(t: Tcb, p: Packet, fin: bool): (r: Tcb) {
    if p.flags.fin then Sent(Closing(t), FIN_ACK, "", fin).(state := LastAck) else t
  }

  function FinSegments(t: Tcb, p: Packet): (r: seq<Segment>) {
    if p.flags.fin then [SegmentOf(Closing(t), ACK, ""), SegmentOf(Closing(t), FIN_ACK, "")] else []
  }

  function AfterAck(t: Tcb, p: Packet, resend: bool): (r: Tcb) {
    Acked(DupAcked(t, p.ack, resend), p)
  }

  /** The whole of handle_established_state after its timer sweep. */
  function AfterEstablished(t: Tcb, p: Packet, page: Page, luck: Luck): (r: Tcb) {
    Finished(Delivered(AfterAck(t, p, luck.resend), p, page, luck.header, luck.body), p, luck.fin)
  }

  function EstablishedSegments(t: Tcb, p: Packet, page: Page, luck: Luck): (r: seq<Segment>) {
    var a := AfterAck(t, p, luck.resend);
    DupSegments(t, p.ack) + AckSegments(a, p) + DeliverySegments(a, p, page, luck.header)
      + FinSegments(Delivered(a, p, page, luck.header, luck.body), p)
  }

  /** An acknowledgement drops exactly an oldest part of the queue, as it is after a fast
      retransmission: the m newest entries stay, and they are those it does not cover. */
  lemma AckDropsOldest(t: Tcb, p: Packet, resend: bool) returns (m: nat)
    requires InOrder(t) && !DupAcked(t, p.ack, resend).wrapped && p.ack < WORD
    ensures var q := DupAcked(t, p.ack, resend).queue;
      && m <= |q| && AfterAck(t, p, resend).queue == q[..m]
      && forall k :: 0 <= k < |q| ==> (k < m <==> p.ack < q[k].sn + |q[k].data|)
  {
    var u := DupAcked(t, p.ack, resend);
    DupAckedInOrder(t, p.ack, resend);
    m := KeptIsNewest(u.queue, u.nextSeq, p.ack);
  }

  lemma DupAckedInOrder(t: Tcb, ack: nat, got: bool)
    requires InOrder(t)
    ensures InOrder(DupAcked(t, ack, got)) && DupAcked(t, ack, got).state == t.state
  {
    var u := t.(dupAcks := (t.dupAcks + 1) % BYTE);
    if u.queue != [] {
      SentInOrder(u, ACK, u.queue[0].data, got);
    }
  }

  lemma AckedInOrder(t: Tcb, p: Packet)
    requires InOrder(t) && p.ack < WORD
    ensures InOrder(Acked(t, p))
  {
    KeptOnes(t.queue, p.ack);
    if !t.wrapped {
      var m := KeptIsNewest(t.queue, t.nextSeq, p.ack);
      OrderedBelow(Kept(t.queue, p.ack), t.nextSeq, Acked(t, p).nextSeq);
    }
  }

  lemma RepliedInOrder(t: Tcb, page: Page, header: bool, body: bool)
    requires InOrder(t)
    ensures InOrder(Replied(t, page, header, body))
  {
    match page
    case Page(content) =>
      var file := Trimmed(content);
      SentInOrder(t, PSH_ACK, Cut(Headers(|file|)), header);
      SentInOrder(Sent(t, PSH_ACK, Cut(Headers(|file|)), header), PSH_ACK, Cut(file), body);
    case Missing => SentInOrder(t, PSH_ACK, NOT_FOUND, header);
    case NoMemory =>
  }

  lemma RepliedKeeps(t: Tcb, page: Page, header: bool, body: bool)
    requires InOrder(t)
    ensures InOrder(Replied(t, page, header, body)) && Replied(t, page, header, body).expectedAck == t.expectedAck
  {
    RepliedInOrder(t, page, header, body);
  }

  lemma DeliveredOutcome(t: Tcb, p: Packet, page: Page, header: bool, body: bool)
    requires InOrder(t)
    ensures InOrder(Delivered(t, p, page, header, body))
      && Delivered(t, p, page, header, body).expectedAck == t.expectedAck
    ensures Delivered(t, p, page, header, body).state == if DataLen(p) > 0 && p.get then WaitForAck else t.state
  {
    RepliedKeeps(t, page, header, body);
  }

  lemma FinishedOutcome(t: Tcb, p: Packet, fin: bool)
    requires InOrder(t)
    ensures InOrder(Finished(t, p, fin))
    ensures Finished(t, p, fin).state == if p.flags.fin then LastAck else t.state
    ensures Finished(t, p, fin).expectedAck == if p.flags.fin then (t.expectedAck + 1) % WORD else t.expectedAck
  {
    SentInOrder(Closing(t), FIN_ACK, "", fin);
  }

  /** The number after the packet's last byte, or after its FIN. */
  function NextExpected(p: Packet): (r: nat) {
    (p.sn + DataLen(p) + if p.flags.fin then 1 else 0) % WORD
  }

  lemma FinExpected(p: Packet)
    ensures NextExpected(p) == if p.flags.fin then ((p.sn + DataLen(p)) % WORD + 1) % WORD
      else (p.sn + DataLen(p)) % WORD
  {
    NextNumber(p.sn + DataLen(p));
  }

  /** Where an established connection can go, with its queue still in order. A connection
      never stays in CLOSE_WAIT. */
  lemma EstablishedOutcome(t: Tcb, p: Packet, page: Page, luck: Luck)
    requires InOrder(t) && t.state == Established && p.ack < WORD
    ensures var u := AfterEstablished(t, p, page, luck);
      && InOrder(u)
      && u.state == (if p.flags.fin then LastAck else if DataLen(p) > 0 && p.get then WaitForAck else Established)
      && u.expectedAck == NextExpected(p)
  {
    DupAckedInOrder(t, p.ack, luck.resend);
    AckedInOrder(DupAcked(t, p.ack, luck.resend), p);
    var a := AfterAck(t, p, luck.resend);
    DeliveredOutcome(a, p, page, luck.header, luck.body);
    FinishedOutcome(Delivered(a, p, page, luck.header, luck.body), p, luck.fin);
    FinExpected(p);
  }

  lemma CutFits(data: string)
    ensures |Cut(data)| < SHORT && (|Cut(data)| == |data| <==> |data| < SHORT) && (|data| < SHORT ==> Cut(data) == data)
  {
    assert |data| % SHORT == |data| <==> |data| < SHORT;
  }

  lemma HeadersFit(size: nat)
    requires size < WORD
    ensures |Headers(size)| < SHORT
  {
    Numerals.DecimalsFit(size);
  }

  /** Two segments in a row. */
  lemma TwoSends(t: Tcb, a: string, b: string, first: bool, second: bool)
    requires t.nextSeq < WORD && !Sent(Sent(t, PSH_ACK, a, first), PSH_ACK, b, second).wrapped
    ensures Sent(t, PSH_ACK, a, first).nextSeq == t.nextSeq + |a|
    ensures Sent(Sent(t, PSH_ACK, a, first), PSH_ACK, b, second).nextSeq == t.nextSeq + |a| + |b|
  {
  }

  /** Headers and body of a page go out back to back, and together they take the numbers from
      next_seq on. The headers announce the length of the file, which is the number of bytes in the
      second segment exactly when the file is shorter than 65536 bytes. */
  lemma ReplyLaw(t: Tcb, content: string, header: bool, body: bool)
    requires InOrder(t) && !Replied(t, Page(content), header, body).wrapped
    ensures var s, file := ReplySegments(t, Page(content), header), Trimmed(content);
      && |s| == 2 && s[0].sn == t.nextSeq && s[1].sn == s[0].sn + |s[0].data|
      && Replied(t, Page(content), header, body).nextSeq == s[1].sn + |s[1].data|
      && (|file| < WORD ==> s[0].data == Headers(|file|))
      && (|s[1].data| == |file| <==> |file| < SHORT) && (|file| < SHORT ==> s[1].data == file)
  {
    var file := Trimmed(content);
    if |file| < WORD {
      HeadersFit(|file|);
      CutFits(Headers(|file|));
    }
    CutFits(file);
    TwoSends(t, Cut(Headers(|file|)), Cut(file), header, body);
  }

  // ---- waiting for the last acknowledgements ----

  /** handle_wait_for_ack_state looks at the newest entry only. */
  function AfterWaiting(t: Tcb, ack: nat, got: bool): (r: Tcb) {
    if t.queue == [] then t else
      var e := t.queue[0];
      if ack >= End(e) % WORD then t.(queue := t.queue[1..])
      else if ack > t.lastAck then t.(lastAck := ack, queue := t.queue[0 := e.(retries := 0)])
      else
        var u := t.(dupAcks := (t.dupAcks + 1) % BYTE);
        if u.dupAcks >= 3 then Sent(u, e.flags, e.data, got).(dupAcks := 0) else u
  }

  function WaitingSegments(t: Tcb, ack: nat): (r: seq<Segment>) {
    if t.queue == [] then [] else
      var e := t.queue[0];
      if ack < End(e) % WORD && ack <= t.lastAck && (t.dupAcks + 1) % BYTE >= 3 then [SegmentOf(t, e.flags, e.data)]
        else []
  }

  /** The connection goes when its last entry has been acknowledged. */
  predicate AllAcked(t: Tcb, ack: nat) {
    t.queue != [] && ack >= End(t.queue[0]) % WORD && |t.queue| == 1
  }

  lemma WaitingInOrder(t: Tcb, ack: nat, got: bool)
    requires InOrder(t)
    ensures InOrder(AfterWaiting(t, ack, got)) && AfterWaiting(t, ack, got).state == t.state
  {
    if t.queue != [] {
      var e := t.queue[0];
      var u := t.(dupAcks := (t.dupAcks + 1) % BYTE);
      SentInOrder(u, e.flags, e.data, got);
      QueueInOrder(t, ack);
    }
  }

  /** Without its newest entry, or with that entry's retries forgotten, the queue is still in order. */
  lemma QueueInOrder(t: Tcb, ack: nat)
    requires InOrder(t) && t.queue != []
    ensures InOrder(t.(queue := t.queue[1..]))
    ensures InOrder(t.(lastAck := ack, queue := t.queue[0 := t.queue[0].(retries := 0)]))
  {
    var q := t.queue[0 := t.queue[0].(retries := 0)];
    assert q[1..] == t.queue[1..];
    if !t.wrapped {
      OrderedBelow(t.queue[1..], t.queue[0].sn, t.nextSeq);
    }
  }

  /** n packets with the same acknowledgement. */
  function WaitedTimes(t: Tcb, ack: nat, n: nat): (r: Tcb) {
    if n == 0 then t else AfterWaiting(WaitedTimes(t, ack, n - 1), ack, false)
  }

  lemma WaitingDrops(t: Tcb, ack: nat)
    requires t.queue != [] && End(t.queue[0]) <= ack < WORD
    ensures AfterWaiting(t, ack, false) == t.(queue := t.queue[1..])
  {
    assert End(t.queue[0]) % WORD == End(t.queue[0]);
  }

  /** An acknowledgement of everything covers every entry, but it has to come once for each
      of them: only n packets with it drop the n newest entries. */
  lemma {:induction false} OnePacketPerEntry(t: Tcb, ack: nat, n: nat)
    requires InOrder(t) && !t.wrapped && t.queue != [] && End(t.queue[0]) <= ack < WORD && n < |t.queue|
    ensures WaitedTimes(t, ack, n) == t.(queue := t.queue[n..])
  {
    if n > 0 {
      OnePacketPerEntry(t, ack, n - 1);
      if n > 1 {
        OrderedPairs(t.queue, t.nextSeq, 0, n - 1);
      }
      WaitingDrops(t.(queue := t.queue[n - 1..]), ack);
    }
  }

  /** So the connection goes with the packet after |queue| - 1 of them, and not before. */
  lemma GoneWithLastEntry(t: Tcb, ack: nat, n: nat)
    requires InOrder(t) && !t.wrapped && t.queue != [] && End(t.queue[0]) <= ack < WORD && n < |t.queue|
    ensures AllAcked(WaitedTimes(t, ack, n), ack) <==> n == |t.queue| - 1
  {
    OnePacketPerEntry(t, ack, n);
    if n > 0 {
      OrderedPairs(t.queue, t.nextSeq, 0, n);
    }
  }

  // ---- a packet, whatever the state ----

  /** The acknowledgement that ends SYN_RECEIVED and LAST_ACK. */
  predicate Completes(t: Tcb, p: Packet) {
    p.flags.ack && p.ack == t.nextSeq
  }

  /** The packet removes its connection. */
  predicate Ends(t: Tcb, p: Packet) {
    (t.state == WaitForAck && AllAcked(t, p.ack)) || (t.state == LastAck && Completes(t, p))
  }

  /** The connection behind a packet that does not remove it. */
  function AfterPacket(t: Tcb, p: Packet, page: Page, luck: Luck): (u: Tcb) {
    match t.state
    case SynSent =>
      if p.flags.syn && Completes(t, p) then t.(expectedAck := (p.sn + 1) % WORD, state := Established) else t
    case SynReceived => if Completes(t, p) then t.(state := Established) else t
    case Established => AfterEstablished(t, p, page, luck)
    case WaitForAck => AfterWaiting(t, p.ack, luck.resend)
    case _ => t
  }

  function PacketSegments(t: Tcb, p: Packet, page: Page, luck: Luck): (s: seq<Segment>) {
    match t.state
    case SynSent => if p.flags.syn && Completes(t, p) then [SegmentOf(AfterPacket(t, p, page, luck), ACK, "")] else []
    case Established => EstablishedSegments(t, p, page, luck)
    case WaitForAck => WaitingSegments(t, p.ack)
    case _ => []
  }

  // ---- a sweep spoils the handshake ----

  /** The acknowledgement the peer owes us for our SYN-ACK, or for our FIN, has the number that
      next_seq had when they went out. It completes the state if and only if no sweep has found
      the timer due since: a sweep sends a FIN and takes a number for it. */
  lemma OwedAckCompletes(t: Tcb, gots: seq<bool>, p: Packet)
    requires t.nextSeq < WORD && (t.state == SynReceived || t.state == LastAck)
    requires |gots| <= MAX_RETRIES && p.flags.ack && p.ack == t.nextSeq
    ensures Completes(RetriedTimes(t, gots), p) <==> gots == []
    ensures t.state == SynReceived ==> forall page, luck ::
      AfterPacket(RetriedTimes(t, gots), p, page, luck).state == if gots == [] then Established else SynReceived
    ensures t.state == LastAck ==> (Ends(RetriedTimes(t, gots), p) <==> gots == [])
  {
    RetriedNumbers(t, gots);
    SmallStep(t.nextSeq, |gots|);
  }

  lemma SmallStep(n: nat, k: nat)
    requires n < WORD && k <= MAX_RETRIES
    ensures (n + k) % WORD == n <==> k == 0
  {
    if n + k >= WORD {
      assert (n + k) % WORD == n + k - WORD;
    }
  }

  // ---- no number is sent twice ----

  /** What can happen to a connection: a packet of its own, its timer falls due, or while it is
      established an application sends data on it or takes what has been received. */
  datatype Turn = Arrival(packet: Packet, page: Page, luck: Luck) | Timeout(got: bool)
    | Says(data: string, got: bool) | Reads

  predicate PossibleTurn(e: Turn) {
    match e
    case Arrival(p, _, _) => p.ack < WORD
    case Says(data, _) => |data| < SHORT
    case _ => true
  }

  /** Data from an application. */
  function Spoken(t: Tcb, data: string, got: bool): (u: Tcb) {
    Sent(t, PSH_ACK, data, got).(fed := true)
  }

  function AfterTurn(t: Tcb, e: Turn): (u: Tcb) {
    match e
    case Arrival(p, page, luck) => AfterPacket(t, p, page, luck)
    case Timeout(got) => Retried(t, got)
    case Says(data, got) => if t.state == Established then Spoken(t, data, got) else t
    case Reads => if t.state == Established then t.(recvLen := 0) else t
  }

  function TurnSegments(t: Tcb, e: Turn): (s: seq<Segment>) {
    match e
    case Arrival(p, page, luck) => PacketSegments(t, p, page, luck)
    case Timeout(_) => RetriedSegments(t)
    case Says(data, _) => if t.state == Established then [SegmentOf(t, PSH_ACK, data)] else []
    case Reads => []
  }

  function AfterTurns(t: Tcb, es: seq<Turn>): (u: Tcb)
    decreases es
  {
    if es == [] then t else AfterTurns(AfterTurn(t, es[0]), es[1..])
  }

  function TurnsSegments(t: Tcb, es: seq<Turn>): (s: seq<Segment>)
    decreases es
  {
    if es == [] then [] else TurnSegments(t, es[0]) + TurnsSegments(AfterTurn(t, es[0]), es[1..])
  }

  /** No segment has a number below n. */
  predicate NotBelow(s: seq<Segment>, n: nat) {
    forall g <- s :: n <= g.sn
  }

  /** u comes later than t: its numbers have gone on, and have run over if t's had. */
  predicate Later(t: Tcb, u: Tcb) {
    (t.wrapped ==> u.wrapped) && (!u.wrapped ==> t.nextSeq <= u.nextSeq)
  }

  lemma SentLater(t: Tcb, flags: Flags, data: string, got: bool)
    requires t.nextSeq < WORD
    ensures Later(t, Sent(t, flags, data, got))
  {
  }

  lemma RepliedLater(t: Tcb, page: Page, header: bool, body: bool)
    requires t.nextSeq < WORD
    ensures Later(t, Replied(t, page, header, body))
    ensures !Replied(t, page, header, body).wrapped ==> NotBelow(ReplySegments(t, page, header), t.nextSeq)
  {
    if page.Page? {
      var file := Trimmed(page.content);
      var headers := Cut(Headers(|file|));
      SentLater(t, PSH_ACK, headers, header);
      SentLater(Sent(t, PSH_ACK, headers, header), PSH_ACK, Cut(file), body);
    }
  }

  lemma DeliveredLater(t: Tcb, p: Packet, page: Page, header: bool, body: bool)
    requires t.nextSeq < WORD
    ensures Later(t, Delivered(t, p, page, header, body))
    ensures !Delivered(t, p, page, header, body).wrapped ==> NotBelow(DeliverySegments(t, p, page, header), t.nextSeq)
  {
    RepliedLater(t, page, header, body);
  }

  lemma AfterAckLater(t: Tcb, p: Packet, resend: bool)
    requires InOrder(t) && p.ack < WORD
    ensures Later(t, AfterAck(t, p, resend)) && InOrder(AfterAck(t, p, resend))
    ensures NotBelow(DupSegments(t, p.ack), t.nextSeq)
  {
    var u := t.(dupAcks := (t.dupAcks + 1) % BYTE);
    if u.queue != [] {
      SentLater(u, ACK, u.queue[0].data, resend);
    }
    DupAckedInOrder(t, p.ack, resend);
    AckedInOrder(DupAcked(t, p.ack, resend), p);
  }

  lemma EstablishedLater(t: Tcb, p: Packet, page: Page, luck: Luck)
    requires InOrder(t) && p.ack < WORD
    ensures var u := AfterEstablished(t, p, page, luck);
      Later(t, u) && (!u.wrapped ==> NotBelow(EstablishedSegments(t, p, page, luck), t.nextSeq))
  {
    AfterAckLater(t, p, luck.resend);
    var a := AfterAck(t, p, luck.resend);
    DeliveredLater(a, p, page, luck.header, luck.body);
    DeliveredOutcome(a, p, page, luck.header, luck.body);
    FinishedLater(Delivered(a, p, page, luck.header, luck.body), p, luck.fin);
  }

  lemma FinishedLater(t: Tcb, p: Packet, fin: bool)
    requires t.nextSeq < WORD
    ensures Later(t, Finished(t, p, fin)) && NotBelow(FinSegments(t, p), t.nextSeq)
  {
    SentLater(Closing(t), FIN_ACK, "", fin);
  }

  /** One turn goes on from next_seq, whatever it sends. */
  lemma TurnLater(t: Tcb, e: Turn)
    requires InOrder(t) && PossibleTurn(e)
    ensures var u := AfterTurn(t, e);
      InOrder(u) && Later(t, u) && (!u.wrapped ==> NotBelow(TurnSegments(t, e), t.nextSeq))
  {
    match e
    case Arrival(p, page, luck) =>
      match t.state {
        case Established =>
          EstablishedOutcome(t, p, page, luck);
          EstablishedLater(t, p, page, luck);
        case WaitForAck =>
          WaitingInOrder(t, p.ack, luck.resend);
          if t.queue != [] {
            SentLater(t.(dupAcks := (t.dupAcks + 1) % BYTE), t.queue[0].flags, t.queue[0].data, luck.resend);
          }
        case _ =>
      }
    case Timeout(got) =>
      RetriedInOrder(t, got);
      if t.state != WaitForAck {
        SentLater(t, if t.state == SynSent then SYN else FIN, "", got);
      } else if t.queue != [] {
        SentLater(t, ACK, t.queue[0].data, got);
      }
    case Says(data, got) =>
      SentInOrder(t, PSH_ACK, data, got);
      SentLater(t, PSH_ACK, data, got);
    case Reads =>
  }

  lemma {:induction false} TurnsLater(t: Tcb, es: seq<Turn>)
    requires InOrder(t) && forall e <- es :: PossibleTurn(e)
    ensures Later(t, AfterTurns(t, es))
    ensures !AfterTurns(t, es).wrapped ==> NotBelow(TurnsSegments(t, es), t.nextSeq)
    decreases es
  {
    if es != [] {
      TurnLater(t, es[0]);
      TurnsLater(AfterTurn(t, es[0]), es[1..]);
    }
  }

  /** As long as the numbers do not run over, no packet, due timer or application makes the
      connection send a number again that it has used: every later segment, retransmissions
      and fast retransmissions included, starts above all of every entry that waits. */
  lemma NeverSentAgain(t: Tcb, es: seq<Turn>)
    requires InOrder(t) && (forall e <- es :: PossibleTurn(e)) && !AfterTurns(t, es).wrapped
    ensures forall g <- TurnsSegments(t, es), k: nat :: k < |t.queue| ==>
      t.queue[k].sn < End(t.queue[k]) <= t.nextSeq <= g.sn
  {
    TurnsLater(t, es);
    forall k: nat | k < |t.queue| ensures t.queue[k].sn < End(t.queue[k]) <= t.nextSeq {
      OrderedHead(t.queue, t.nextSeq, k);
    }
  }

  // ---- fast retransmission ----

  /** Only WAIT_FOR_ACK, which no connection leaves for another state, ever sets last_ack; and
      as long as no application sends, nothing with data waits before a request has been answered. */
  predicate Quiet(t: Tcb) {
    && (t.state != WaitForAck ==> t.lastAck == 0)
    && (!t.fed && t.state != WaitForAck && t.state != LastAck ==> forall e <- t.queue :: e.data == "")
  }

  lemma AfterAckQuiet(t: Tcb, p: Packet, resend: bool)
    requires Quiet(t) && t.state == Established
    ensures Quiet(AfterAck(t, p, resend)) && AfterAck(t, p, resend).state == Established
  {
    var u := DupAcked(t, p.ack, resend);
    assert Quiet(u);
    KeptOnes(u.queue, p.ack);
  }

  lemma DeliveredQuiet(t: Tcb, p: Packet, page: Page, header: bool, body: bool)
    requires Quiet(t) && t.state == Established
    ensures Quiet(Delivered(t, p, page, header, body)) && Delivered(t, p, page, header, body).lastAck == 0
  {
  }

  lemma FinishedQuiet(t: Tcb, p: Packet, fin: bool)
    requires Quiet(t) && t.lastAck == 0
    ensures Quiet(Finished(t, p, fin))
  {
  }

  lemma EstablishedQuiet(t: Tcb, p: Packet, page: Page, luck: Luck)
    requires Quiet(t) && t.state == Established && InOrder(t) && p.ack < WORD
    ensures Quiet(AfterEstablished(t, p, page, luck))
  {
    AfterAckQuiet(t, p, luck.resend);
    var a := AfterAck(t, p, luck.resend);
    DeliveredQuiet(a, p, page, luck.header, luck.body);
    FinishedQuiet(Delivered(a, p, page, luck.header, luck.body), p, luck.fin);
  }

  /** Every turn keeps it. */
  lemma TurnQuiet(t: Tcb, e: Turn)
    requires Quiet(t) && InOrder(t) && PossibleTurn(e)
    ensures Quiet(AfterTurn(t, e))
  {
    if e.Arrival? && t.state == Established {
      EstablishedQuiet(t, e.packet, e.page, e.luck);
    }
  }

  /** An established connection retransmits exactly at the third packet that acknowledges number
      0, so for the acknowledgements that a peer repeats when it misses something it does not.
      What goes out is the data of the newest entry under next_seq, a number above every entry's;
      it is the oldest entry's data exactly if the two are alike, and the empty segment as long
      as no application has sent. */
  lemma FastRetransmission(t: Tcb, ack: nat)
    requires InOrder(t) && Quiet(t) && t.state == Established
    ensures DupSegments(t, ack) != [] <==> ack == 0 && (t.dupAcks + 1) % BYTE == 3 && t.queue != []
    ensures DupSegments(t, ack) != [] ==> DupSegments(t, ack) == [SegmentOf(t, ACK, t.queue[0].data)]
    ensures t.queue != [] ==> var s, oldest := SegmentOf(t, ACK, t.queue[0].data), t.queue[|t.queue| - 1];
      && (!t.fed ==> s.data == "" == oldest.data)
      && (s.data == oldest.data <==> |t.queue| == 1 || t.queue[0].data == oldest.data)
      && (!t.wrapped ==> forall k :: 0 <= k < |t.queue| ==> t.queue[k].sn < End(t.queue[k]) <= s.sn)
  {
    if !t.wrapped {
      forall k | 0 <= k < |t.queue| ensures t.queue[k].sn < End(t.queue[k]) <= t.nextSeq {
        OrderedHead(t.queue, t.nextSeq, k);
      }
    }
  }

  /** A packet that only acknowledges. */
  predicate Bare(p: Packet) {
    DataLen(p) == 0 && !p.flags.fin && p.sn < WORD
  }

  lemma BareArrival(t: Tcb, p: Packet, page: Page, luck: Luck)
    requires t.state == Established && Bare(p)
    ensures AfterPacket(t, p, page, luck) == AfterAck(t, p, luck.resend)
      && PacketSegments(t, p, page, luck) == DupSegments(t, p.ack)
  {
  }

  /** Before the third time a packet that acknowledges 0 is only counted. */
  lemma ZeroCounted(t: Tcb, p: Packet, page: Page, luck: Luck)
    requires t.state == Established && Bare(p) && p.ack == 0 == t.lastAck && t.dupAcks < 2
    requires |t.queue| == 2 && forall e <- t.queue :: 0 < e.sn + |e.data| < WORD
    ensures AfterTurn(t, Arrival(p, page, luck)) == t.(dupAcks := t.dupAcks + 1, expectedAck := p.sn)
    ensures TurnSegments(t, Arrival(p, page, luck)) == []
  {
    BareArrival(t, p, page, luck);
    assert Kept(t.queue[2..], 0) == [];
    assert Kept(t.queue[1..], 0) == [t.queue[1]] + Kept(t.queue[1..][1..], 0);
    assert t.queue == [t.queue[0]] + ([t.queue[1]] + []);
  }

  /** An application sends "a" and then "b"; then the third packet that acknowledges 0 brings out
      "b" once more, numbered 12. */
  lemma OldestNotSent(t: Tcb, p: Packet, page: Page, luck: Luck)
    requires t.state == Established && t.queue == [] && t.nextSeq == 10 && t.lastAck == 0 && t.dupAcks == 0
    requires Bare(p) && p.ack == 0
    ensures var a := AfterTurn(t, Says("a", true));
      var b := AfterTurn(a, Says("b", true));
      var c := AfterTurn(AfterTurn(b, Arrival(p, page, luck)), Arrival(p, page, luck));
      && c.queue == [Entry(11, "b", PSH_ACK, 0), Entry(10, "a", PSH_ACK, 0)]
      && TurnSegments(c, Arrival(p, page, luck)) == [SegmentOf(c, ACK, "b")] && SegmentOf(c, ACK, "b").sn == 12
  {
    var b := AfterTurn(AfterTurn(t, Says("a", true)), Says("b", true));
    assert b.queue == [Entry(11, "b", PSH_ACK, 0), Entry(10, "a", PSH_ACK, 0)] && b.nextSeq == 12;
    ZeroCounted(b, p, page, luck);
    ZeroCounted(AfterTurn(b, Arrival(p, page, luck)), p, page, luck);
    BareArrival(AfterTurn(AfterTurn(b, Arrival(p, page, luck)), Arrival(p, page, luck)), p, page, luck);
  }
}
