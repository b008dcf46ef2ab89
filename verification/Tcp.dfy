/** Connections, timers and the network's queue of segments sent. */
module Tcp {
  import opened Words
  import opened Segments
  import opened TcpOptions
  import opened TcpSteps

  const SYN_TIMEOUT: nat := 3000
  const DATA_TIMEOUT: nat := 3000

  class Connection {
    const localIp: nat
    const remoteIp: nat
    const localPort: nat
    const remotePort: nat
    var mss: nat
    var nextSeq: nat
    var expectedAck: nat
    var dupAcks: nat
    var state: State
    var queue: seq<Entry>     // newest first
    var recvLen: nat
    var lastAck: nat
    ghost var wrapped: bool   // whether next_seq has ever run over
    ghost var fed: bool       // whether an application has sent data

    ghost function View(): (r: Tcb)
      reads this
    {
      Tcb(localIp, remoteIp, localPort, remotePort, mss, nextSeq, expectedAck, dupAcks, state, queue, recvLen,
        lastAck, wrapped, fed)
    }

    constructor (localIp: nat, remoteIp: nat, localPort: nat, remotePort: nat, mss: nat, nextSeq: nat,
                 expectedAck: nat, state: State)
      ensures View() ==
        Tcb(localIp, remoteIp, localPort, remotePort, mss, nextSeq, expectedAck, 0, state, [], 0, 0, false, false)
    {
      this.localIp, this.remoteIp, this.localPort, this.remotePort := localIp, remoteIp, localPort, remotePort;
      this.mss, this.nextSeq, this.expectedAck, this.state := mss, nextSeq, expectedAck, state;
      dupAcks, queue, recvLen, lastAck, wrapped, fed := 0, [], 0, 0, false, false;
    }

    /** Keeps the entries that ack does not cover. */
    method AckQueue(ack: nat)
      modifies `queue
      ensures queue == Kept(old(queue), ack)
    {
      var i := 0;
      while i < |queue|
        invariant i <= |queue| && queue[..i] + Kept(queue[i..], ack) == Kept(old(queue), ack)
        decreases |queue| - i
      {
        ghost var rest := queue[i..];
        ghost var kept := queue[..i];
        if ack >= (queue[i].sn + |queue[i].data|) % WORD {
          queue := queue[..i] + queue[i + 1..];
          assert queue[i..] == rest[1..] && queue[..i] == kept;
        } else {
          i := i + 1;
          assert queue[i..] == rest[1..] && queue[..i] == kept + [rest[0]];
        }
      }
      assert queue[..i] == queue;
    }
  }

  datatype Timer = Timer(conn: Connection, timeout: nat, start: nat, retries: nat)

  predicate Due(t: Timer, now: nat) {
    (now - t.start) % WORD >= t.timeout
  }

  /** The timers without the first one of connection c. */
  function WithoutTimer(ts: seq<Timer>, c: Connection): (r: seq<Timer>) {
    if ts == [] then [] else if ts[0].conn == c then ts[1..] else [ts[0]] + WithoutTimer(ts[1..], c)
  }

  function Without(cs: seq<Connection>, c: Connection): (r: seq<Connection>) {
    if cs == [] then [] else if cs[0] == c then cs[1..] else [cs[0]] + Without(cs[1..], c)
  }

  /** One connection further on in the list. */
  lemma {:induction false} WithoutAt(cs: seq<Connection>, i: nat, c: Connection)
    requires i < |cs|
    ensures Without(cs[i..], c) == if cs[i] == c then cs[i + 1..] else [cs[i]] + Without(cs[i + 1..], c)
    ensures cs[..i + 1] == cs[..i] + [cs[i]]
    ensures cs[i] != c ==> cs[..i] + Without(cs[i..], c) == cs[..i + 1] + Without(cs[i + 1..], c)
  {
    assert cs[i..][1..] == cs[i + 1..] && cs[i..][0] == cs[i];
    assert cs[..i + 1] == cs[..i] + [cs[i]];
    ConnectionInside(cs[..i], cs[i], Without(cs[i + 1..], c));
  }

  lemma ConnectionInside(a: seq<Connection>, c: Connection, b: seq<Connection>)
    ensures a + ([c] + b) == a + [c] + b
  {
  }

  lemma {:induction false} WithoutTimerNext(ts: seq<Timer>, i: nat, c: Connection)
    requires i < |ts|
    ensures WithoutTimer(ts[i..], c) == if ts[i].conn == c then ts[i + 1..] else [ts[i]] + WithoutTimer(ts[i + 1..], c)
    ensures ts[..i + 1] == ts[..i] + [ts[i]]
    ensures ts[i].conn != c ==> ts[..i] + WithoutTimer(ts[i..], c) == ts[..i + 1] + WithoutTimer(ts[i + 1..], c)
  {
    assert ts[i..][1..] == ts[i + 1..] && ts[i..][0] == ts[i];
    assert ts[..i + 1] == ts[..i] + [ts[i]];
    TimerInside(ts[..i], ts[i], WithoutTimer(ts[i + 1..], c));
  }

  lemma TimerInside(a: seq<Timer>, t: Timer, b: seq<Timer>)
    ensures a + ([t] + b) == a + [t] + b
  {
  }

  ghost predicate Differ(cs: seq<Connection>, i: nat, j: nat)
    requires i < j < |cs|
  {
    cs[i] != cs[j]
  }

  ghost predicate Distinct(cs: seq<Connection>) {
    forall i: nat, j: nat {:trigger Differ(cs, i, j)} :: i < j < |cs| ==> Differ(cs, i, j)
  }

  lemma DistinctTail(cs: seq<Connection>)
    requires Distinct(cs) && cs != []
    ensures Distinct(cs[1..]) && cs[0] !in cs[1..]
  {
    var rest := cs[1..];
    forall i: nat, j: nat | i < j < |rest| ensures Differ(rest, i, j) {
      assert Differ(cs, i + 1, j + 1);
    }
    forall j: nat | j < |rest| ensures rest[j] != cs[0] {
      assert Differ(cs, 0, j + 1);
    }
  }

  lemma DistinctMore(c: Connection, cs: seq<Connection>)
    requires Distinct(cs) && c !in cs
    ensures Distinct([c] + cs)
  {
    var all := [c] + cs;
    forall i: nat, j: nat | i < j < |all| ensures Differ(all, i, j) {
      assert i > 0 ==> Differ(cs, i - 1, j - 1);
    }
  }

  ghost predicate OtherConn(ts: seq<Timer>, i: nat, j: nat)
    requires i < j < |ts|
  {
    ts[i].conn != ts[j].conn
  }

  /** No connection has two timers. */
  ghost predicate OneEach(ts: seq<Timer>) {
    forall i: nat, j: nat {:trigger OtherConn(ts, i, j)} :: i < j < |ts| ==> OtherConn(ts, i, j)
  }

  lemma OneEachTail(ts: seq<Timer>)
    requires OneEach(ts) && ts != []
    ensures OneEach(ts[1..]) && forall t <- ts[1..] :: t.conn != ts[0].conn
  {
    var rest := ts[1..];
    forall i: nat, j: nat | i < j < |rest| ensures OtherConn(rest, i, j) {
      assert OtherConn(ts, i + 1, j + 1);
    }
    forall j: nat | j < |rest| ensures rest[j].conn != ts[0].conn {
      assert OtherConn(ts, 0, j + 1);
    }
  }

  lemma OneEachMore(t: Timer, ts: seq<Timer>)
    requires OneEach(ts) && forall u <- ts :: u.conn != t.conn
    ensures OneEach([t] + ts)
  {
    var all := [t] + ts;
    forall i: nat, j: nat | i < j < |all| ensures OtherConn(all, i, j) {
      assert i > 0 ==> OtherConn(ts, i - 1, j - 1);
    }
  }

  /** Replacing a timer by one of the same connection. */
  lemma OneEachReplaced(ts: seq<Timer>, k: nat, t: Timer)
    requires OneEach(ts) && k < |ts| && t.conn == ts[k].conn
    ensures OneEach(ts[k := t])
  {
    var all := ts[k := t];
    forall i: nat, j: nat | i < j < |all| ensures OtherConn(all, i, j) {
      assert OtherConn(ts, i, j);
    }
  }

  lemma {:induction false} WithoutLaw(cs: seq<Connection>, c: Connection)
    requires Distinct(cs)
    ensures Distinct(Without(cs, c))
    ensures forall d: Connection :: d in Without(cs, c) <==> d in cs && d != c
  {
    if cs != [] {
      assert forall d: Connection :: d in cs <==> d == cs[0] || d in cs[1..];
      DistinctTail(cs);
      WithoutLaw(cs[1..], c);
      if cs[0] != c {
        DistinctMore(cs[0], Without(cs[1..], c));
      }
    }
  }

  lemma {:induction false} WithoutTimerLaw(ts: seq<Timer>, c: Connection)
    requires OneEach(ts)
    ensures OneEach(WithoutTimer(ts, c))
    ensures forall t <- WithoutTimer(ts, c) :: t in ts && t.conn != c
    ensures forall t <- ts :: t.conn != c ==> t in WithoutTimer(ts, c)
  {
    if ts != [] {
      OneEachTail(ts);
      WithoutTimerLaw(ts[1..], c);
      if ts[0].conn != c {
        OneEachMore(ts[0], WithoutTimer(ts[1..], c));
      }
    }
  }

  /** With one timer each, dropping the timer of ts[i]'s connection drops ts[i]. */
  lemma {:induction false} WithoutTimerAt(ts: seq<Timer>, i: nat)
    requires OneEach(ts) && i < |ts|
    ensures WithoutTimer(ts, ts[i].conn) == ts[..i] + ts[i + 1..]
  {
    if i > 0 {
      OneEachTail(ts);
      assert OtherConn(ts, 0, i);
      WithoutTimerAt(ts[1..], i - 1);
    }
  }

  predicate MayOwnTimer(s: State) {
    s == SynReceived || s == WaitForAck || s == LastAck
  }

  /** Between packets a connection is in one of five states, its queue in order, and nothing has
      been acknowledged in it but while it waits for its last acknowledgements. */
  predicate Sound(t: Tcb) {
    InOrder(t) && Quiet(t) && (t.state == SynSent || t.state == Established || MayOwnTimer(t.state))
  }

  lemma EstablishedSound(t: Tcb, p: Packet, page: Page, luck: Luck)
    requires Sound(t) && t.state == Established && p.ack < WORD
    ensures var u := AfterEstablished(t, p, page, luck); Sound(u) && (Answers(p, page) ==> MayOwnTimer(u.state))
  {
    EstablishedOutcome(t, p, page, luck);
    EstablishedQuiet(t, p, page, luck);
  }

  // ---- what a timer sweep does ----

  function TimerAfter(t: Timer, v: Tcb, now: nat): (r: seq<Timer>) {
    if !Due(t, now) then [t]
    else if GivesUp(v, t.retries) then []
    else [t.(start := now, retries := if v.state == WaitForAck then t.retries else t.retries + 1)]
  }

  function TimerSegments(t: Timer, v: Tcb, now: nat): (r: seq<Segment>) {
    if !Due(t, now) || GivesUp(v, t.retries) then []
    else RetriedSegments(v)
  }

  /** The timers with one for the answer to a request, if there was memory for it. */
  function AnswerTimed(ts: seq<Timer>, c: Connection, p: Packet, page: Page, timer: bool, now: nat): (r: seq<Timer>) {
    if Answers(p, page) && timer then [Timer(c, DATA_TIMEOUT, now, 0)] + ts else ts
  }

  lemma AnswerTimers(ts: seq<Timer>, c: Connection, p: Packet, page: Page, timer: bool, now: nat)
    requires OneEach(ts) && forall t <- ts :: t.conn != c
    ensures OneEach(AnswerTimed(ts, c, p, page, timer, now))
    ensures forall t <- AnswerTimed(ts, c, p, page, timer, now) :: t in ts || (t.conn == c && Answers(p, page))
  {
    OneEachMore(Timer(c, DATA_TIMEOUT, now, 0), ts);
  }

  function TimersAfter(ts: seq<Timer>, views: map<Connection, Tcb>, now: nat): (r: seq<Timer>)
    requires forall t <- ts :: t.conn in views
  {
    if ts == [] then [] else
      var t := ts[|ts| - 1];
      TimersAfter(ts[..|ts| - 1], views, now) + TimerAfter(t, views[t.conn], now)
  }

  function SweepSegments(ts: seq<Timer>, views: map<Connection, Tcb>, now: nat): (r: seq<Segment>)
    requires forall t <- ts :: t.conn in views
  {
    if ts == [] then [] else
      var t := ts[|ts| - 1];
      SweepSegments(ts[..|ts| - 1], views, now) + TimerSegments(t, views[t.conn], now)
  }

  /** A timer of c is due and has used up its retries. */
  ghost predicate Doomed(ts: seq<Timer>, views: map<Connection, Tcb>, now: nat, c: Connection)
    requires forall t <- ts :: t.conn in views
  {
    exists t <- ts :: t.conn == c && Due(t, now) && GivesUp(views[c], t.retries)
  }

  ghost predicate HasDue(ts: seq<Timer>, now: nat, c: Connection) {
    exists t <- ts :: t.conn == c && Due(t, now)
  }

  /** A due connection that stays is sent to once more, any other is left as it is. */
  ghost predicate Visited(before: Tcb, after: Tcb, due: bool) {
    if due then exists got: bool :: after == Retried(before, got) else after == before
  }

  /** One more timer considered. */
  lemma OneMoreTimer(ts: seq<Timer>, k: nat, views: map<Connection, Tcb>, now: nat, c: Connection)
    requires k < |ts| && OneEach(ts) && forall t <- ts :: t.conn in views
    ensures HasDue(ts[..k + 1], now, c) <==> HasDue(ts[..k], now, c) || (c == ts[k].conn && Due(ts[k], now))
    ensures Doomed(ts[..k + 1], views, now, c) <==>
      Doomed(ts[..k], views, now, c) || (c == ts[k].conn && Due(ts[k], now) && GivesUp(views[c], ts[k].retries))
    ensures !HasDue(ts[..k], now, ts[k].conn) && !Doomed(ts[..k], views, now, ts[k].conn)
  {
    assert ts[..k + 1] == ts[..k] + [ts[k]];
    forall t <- ts[..k] ensures t.conn != ts[k].conn {
      var i: nat :| i < k && ts[i] == t;
      assert OtherConn(ts, i, k);
    }
  }

  lemma TimersStep(ts: seq<Timer>, k: nat, views: map<Connection, Tcb>, now: nat)
    requires k < |ts| && forall t <- ts :: t.conn in views
    ensures var t := ts[k];
      && TimersAfter(ts[..k + 1], views, now) == TimersAfter(ts[..k], views, now) + TimerAfter(t, views[t.conn], now)
      && SweepSegments(ts[..k + 1], views, now) ==
        SweepSegments(ts[..k], views, now) + TimerSegments(t, views[t.conn], now)
  {
    assert ts[..k + 1][..k] == ts[..k];
  }

  /** How connection c stands after the first k timers of a sweep. */
  ghost predicate SweptAt(k: nat, ts: seq<Timer>, views0: map<Connection, Tcb>, now: nat,
                          views: map<Connection, Tcb>, c: Connection)
    requires k <= |ts| && c in views0 && forall t <- ts :: t.conn in views0
  {
    && (c in views <==> !Doomed(ts[..k], views0, now, c))
    && (c in views ==> Visited(views0[c], views[c], HasDue(ts[..k], now, c)))
  }

  ghost predicate Swept(k: nat, ts: seq<Timer>, views0: map<Connection, Tcb>, now: nat, views: map<Connection, Tcb>) {
    && k <= |ts| && (forall t <- ts :: t.conn in views0) && views.Keys <= views0.Keys
    && (forall c {:trigger SweptAt(k, ts, views0, now, views, c)} :: c in views0 ==>
      SweptAt(k, ts, views0, now, views, c))
  }

  lemma SweptStart(ts: seq<Timer>, views: map<Connection, Tcb>, now: nat)
    requires forall t <- ts :: t.conn in views
    ensures Swept(0, ts, views, now, views)
  {
    forall c | c in views ensures SweptAt(0, ts, views, now, views, c) {
    }
  }

  lemma SweptNext(k: nat, ts: seq<Timer>, views0: map<Connection, Tcb>, now: nat, v1: map<Connection, Tcb>,
                  v2: map<Connection, Tcb>)
    requires k < |ts| && OneEach(ts) && Swept(k, ts, views0, now, v1) && ts[k].conn in v1
    requires var t, v := ts[k], v1[ts[k].conn];
      if Due(t, now) && GivesUp(v, t.retries) then v2 == v1 - {t.conn}
      else exists w :: Visited(v, w, Due(t, now)) && v2 == v1[t.conn := w]
    ensures v1[ts[k].conn] == views0[ts[k].conn] && Swept(k + 1, ts, views0, now, v2)
  {
    OneMoreTimer(ts, k, views0, now, ts[k].conn);
    assert SweptAt(k, ts, views0, now, v1, ts[k].conn);
    var next := k + 1;
    forall c | c in views0 ensures SweptAt(next, ts, views0, now, v2, c) {
      OneMoreTimer(ts, k, views0, now, c);
      assert SweptAt(k, ts, views0, now, v1, c);
    }
  }

  /** A connection without a due timer comes through a sweep as it was. */
  lemma Untouched(ts: seq<Timer>, views0: map<Connection, Tcb>, now: nat, views: map<Connection, Tcb>, c: Connection)
    requires Swept(|ts|, ts, views0, now, views) && c in views0 && !HasDue(ts, now, c)
    ensures c in views && views[c] == views0[c]
  {
    assert ts[..|ts|] == ts;
    assert SweptAt(|ts|, ts, views0, now, views, c);
  }

  lemma Regroup(s: seq<Segment>, a: seq<Segment>, b: seq<Segment>, c: seq<Segment>)
    ensures s + a + b + c == s + (a + b + c)
  {
  }

  predicate Matches(c: Connection, remoteIp: nat, remotePort: nat, localIp: nat, localPort: nat) {
    c.remoteIp == remoteIp && c.remotePort == remotePort && c.localIp == localIp && c.localPort == localPort
  }

  /** The connection with these addresses and ports that was opened last. */
  function Lookup(cs: seq<Connection>, remoteIp: nat, remotePort: nat, localIp: nat, localPort: nat): (r: Connection?) {
    if cs == [] then null
    else if Matches(cs[0], remoteIp, remotePort, localIp, localPort) then cs[0]
    else Lookup(cs[1..], remoteIp, remotePort, localIp, localPort)
  }

  lemma {:induction false} LookupLaw(cs: seq<Connection>, remoteIp: nat, remotePort: nat, localIp: nat, localPort: nat)
    ensures var c := Lookup(cs, remoteIp, remotePort, localIp, localPort);
      if c == null then forall d <- cs :: !Matches(d, remoteIp, remotePort, localIp, localPort)
      else c in cs && Matches(c, remoteIp, remotePort, localIp, localPort)
  {
    if cs != [] && !Matches(cs[0], remoteIp, remotePort, localIp, localPort) {
      LookupLaw(cs[1..], remoteIp, remotePort, localIp, localPort);
    }
  }

  /** The connection a packet belongs to. */
  function Owner(cs: seq<Connection>, p: Packet): (r: Connection?) {
    Lookup(cs, p.srcIp, p.srcPort, p.dstIp, p.destPort)
  }

  // ---- what a packet does to the connection it belongs to ----

  datatype Snapshot = Snapshot(connections: seq<Connection>, timers: seq<Timer>, sent: seq<Segment>,
    views: map<Connection, Tcb>)

  /** What a sweep sends that a packet sets off: only an established connection's does. */
  function SweptFirst(t: Tcb, ts: seq<Timer>, views: map<Connection, Tcb>, now: nat): (s: seq<Segment>)
    requires forall t <- ts :: t.conn in views
  {
    if t.state == Established then SweepSegments(ts, views, now) else []
  }

  /** The timers after a packet of the connection: a sweep comes first if it is established; the
      timer goes with the connection, and with SYN_RECEIVED. */
  function TimersThen(c: Connection, t: Tcb, p: Packet, page: Page, luck: Luck, ts: seq<Timer>,
                      views: map<Connection, Tcb>, now: nat): (r: seq<Timer>)
    requires forall t <- ts :: t.conn in views
  {
    if t.state == Established then AnswerTimed(TimersAfter(ts, views, now), c, p, page, luck.timer, now)
    else if Ends(t, p) || (t.state == SynReceived && Completes(t, p)) then WithoutTimer(ts, c)
    else ts
  }

  /** What becomes of a packet that belongs to c. */
  predicate Claimed(before: Snapshot, c: Connection, p: Packet, page: Page, now: nat, luck: Luck, after: Snapshot) {
    && c in before.views && (forall t <- before.timers :: t.conn in before.views)
    && var t := before.views[c];
      if p.flags.rst then
        && after.connections == Without(before.connections, c)
        && after.timers == WithoutTimer(before.timers, c) && after.sent == before.sent
      else
        && after.sent ==
          before.sent + SweptFirst(t, before.timers, before.views, now) + PacketSegments(t, p, page, luck)
        && after.timers == TimersThen(c, t, p, page, luck, before.timers, before.views, now)
        && if Ends(t, p) then c !in after.views
           else c in after.views && after.views[c] == AfterPacket(t, p, page, luck)
  }

  class Stack {
    var connections: seq<Connection>
    var timers: seq<Timer>
    var ports: seq<nat>
    var sent: seq<Segment>

    ghost predicate Valid()
      reads this, connections
    {
      && Distinct(connections) && OneEach(timers)
      && (forall c <- connections :: Sound(c.View()))
      && (forall t <- timers :: t.conn in connections && MayOwnTimer(t.conn.state))
    }

    constructor ()
      ensures Valid() && connections == [] && timers == [] && sent == []
    {
      connections, timers, ports, sent := [], [], [], [];
    }

    /** The whole state, as a value. */
    ghost function Now(): (s: Snapshot)
      reads this, connections
    {
      Snapshot(connections, timers, sent, Views())
    }

    // ---- lists ----

    method FindConnection(remoteIp: nat, remotePort: nat, localIp: nat, localPort: nat) returns (c: Connection?)
      ensures c == Lookup(connections, remoteIp, remotePort, localIp, localPort)
    {
      var i := 0;
      while i < |connections|
        invariant i <= |connections|
        invariant Lookup(connections[i..], remoteIp, remotePort, localIp, localPort) ==
          Lookup(connections, remoteIp, remotePort, localIp, localPort)
      {
        ghost var rest := connections[i..];
        if Matches(connections[i], remoteIp, remotePort, localIp, localPort) {
          return connections[i];
        }
        assert rest[1..] == connections[i + 1..];
        i := i + 1;
      }
      return null;
    }

    method CancelTimer(conn: Connection)
      modifies `timers
      ensures timers == WithoutTimer(old(timers), conn)
    {
      var i := 0;
      while i < |timers|
        invariant i <= |timers| && timers == old(timers)
        invariant timers[..i] + WithoutTimer(timers[i..], conn) == WithoutTimer(old(timers), conn)
      {
        WithoutTimerNext(timers, i, conn);
        if timers[i].conn == conn {
          timers := timers[..i] + timers[i + 1..];
          return;
        }
        i := i + 1;
      }
      assert timers[..i] == timers && timers[i..] == [];
    }

    method RemoveConnection(conn: Connection)
      modifies `timers, `connections
      ensures timers == WithoutTimer(old(timers), conn) && connections == Without(old(connections), conn)
    {
      CancelTimer(conn);
      var i := 0;
      while i < |connections|
        invariant i <= |connections| && connections == old(connections) && timers == WithoutTimer(old(timers), conn)
        invariant connections[..i] + Without(connections[i..], conn) == Without(old(connections), conn)
      {
        WithoutAt(connections, i, conn);
        if connections[i] == conn {
          connections := connections[..i] + connections[i + 1..];
          return;
        }
        i := i + 1;
      }
      assert connections[..i] == connections && connections[i..] == [];
    }

    /** The connection and its timer go; nothing else does. */
    method Remove(conn: Connection)
      requires Valid()
      modifies `timers, `connections
      ensures Valid() && timers == WithoutTimer(old(timers), conn) && connections == Without(old(connections), conn)
      ensures forall c: Connection :: c in connections <==> c in old(connections) && c != conn
      ensures forall t <- timers :: t in old(timers) && t.conn != conn
    {
      RemoveConnection(conn);
      WithoutLaw(old(connections), conn);
      WithoutTimerLaw(old(timers), conn);
    }

    method StartTimer(conn: Connection, timeout: nat, now: nat) returns (got: bool)
      modifies `timers
      ensures timers == if got then [Timer(conn, timeout, now, 0)] + old(timers) else old(timers)
    {
      got := *;
      if got {
        timers := [Timer(conn, timeout, now, 0)] + timers;
      }
    }

    // ---- sending ----

    /** The sequence number after a segment that starts at `first`. */
    method Following(first: nat, flags: Flags, data: string) returns (next: nat)
      requires first < WORD
      ensures next == (first + Span(flags, data)) % WORD
    {
      next := first;
      if |data| > 0 {
        next := (next + |data|) % WORD;
      }
      if flags.syn || flags.fin {
        next := (next + 1) % WORD;
      }
      NextNumber(first + |data|);
    }

    method SendSegment(conn: Connection, flags: Flags, data: string) returns (got: bool)
      requires |data| < SHORT && conn.nextSeq < WORD
      modifies conn`nextSeq, conn`queue, conn`wrapped, `sent
      ensures conn.View() == Sent(old(conn.View()), flags, data, got)
      ensures sent == old(sent) + [SegmentOf(old(conn.View()), flags, data)]
    {
      var first := conn.nextSeq;
      var window := (RECV_BUFFER - conn.recvLen) % SHORT;
      var segment := Segment(conn.remoteIp, conn.localPort, conn.remotePort, first, conn.expectedAck, flags, window,
        flags.syn, data);
      sent := sent + [segment];
      conn.wrapped := conn.wrapped || first + Span(flags, data) >= WORD;
      conn.nextSeq := Following(first, flags, data);
      got := true;
      if flags.syn || flags.fin || |data| > 0 {
        got := *;
        if got {
          conn.queue := [Entry(first, data, flags, 0)] + conn.queue;
        }
      }
    }

    // ---- the timer sweep ----

    ghost function Views(): (r: map<Connection, Tcb>)
      reads this, connections
    {
      map c | c in connections :: c.View()
    }

    /** Sends once more for a due timer. */
    method Retry(conn: Connection) returns (got: bool)
      requires InOrder(conn.View()) && (conn.state == WaitForAck ==> conn.queue != [])
      modifies conn, `sent
      ensures conn.View() == Retried(old(conn.View()), got)
      ensures sent ==
        old(sent) + [if conn.state == WaitForAck then SegmentOf(old(conn.View()), ACK, old(conn.queue[0].data))
        else SegmentOf(old(conn.View()), if conn.state == SynSent then SYN else FIN, "")]
    {
      if conn.state == WaitForAck {
        var e, n := conn.queue[0], |conn.queue|;
        got := SendSegment(conn, ACK, e.data);
        var i := |conn.queue| - n;
        conn.queue := conn.queue[i := e.(retries := e.retries + 1)];
      } else {
        got := SendSegment(conn, if conn.state == SynSent then SYN else FIN, "");
      }
    }

    /** A due timer whose connection stays starts anew. */
    method Restart(i: nat, now: nat)
      requires Valid() && i < |timers| && timers[i].conn in connections && Due(timers[i], now)
        && !GivesUp(timers[i].conn.View(), timers[i].retries)
      modifies `timers, `sent, timers[i].conn
      ensures Valid()
      ensures var t, v := old(timers[i]), old(timers[i].conn.View());
        && timers == old(timers[..i]) + TimerAfter(t, v, now) + old(timers[i + 1..])
        && sent == old(sent) + TimerSegments(t, v, now)
        && Visited(v, t.conn.View(), true)
    {
      var t := timers[i];
      var retries := if t.conn.state == WaitForAck then t.retries else t.retries + 1;
      RetrySound(t.conn);
      OneEachReplaced(timers, i, t.(start := now, retries := retries));
      timers := timers[i := t.(start := now, retries := retries)];
      assert timers == old(timers[..i]) + [timers[i]] + old(timers[i + 1..]);
    }

    method RetrySound(conn: Connection)
      requires Valid() && conn in connections && (conn.state == WaitForAck ==> conn.queue != [])
      modifies `sent, conn
      ensures Valid() && Visited(old(conn.View()), conn.View(), true)
      ensures sent ==
        old(sent) + [if conn.state == WaitForAck then SegmentOf(old(conn.View()), ACK, old(conn.queue[0].data))
        else SegmentOf(old(conn.View()), if conn.state == SynSent then SYN else FIN, "")]
    {
      ghost var v := conn.View();
      RetriedInOrder(v, true);
      RetriedInOrder(v, false);
      var got := Retry(conn);
      assert conn.View() == Retried(v, got) && conn.state == v.state;
    }

    /** One round of the sweep, at timer i. The timer of a connection given up goes with it. */
    method SweepTimer(i: nat, now: nat) returns (gone: bool)
      requires Valid() && i < |timers|
      modifies `timers, `connections, `sent, timers[i].conn
      ensures Valid()
      ensures var t, v := old(timers[i]), old(timers[i].conn.View());
        && gone == (Due(t, now) && GivesUp(v, t.retries))
        && timers == old(timers[..i]) + TimerAfter(t, v, now) + old(timers[i + 1..])
        && sent == old(sent) + TimerSegments(t, v, now)
        && (forall c: Connection :: c in connections <==> c in old(connections) && (gone ==> c != t.conn))
        && (!gone ==> Visited(v, t.conn.View(), Due(t, now)))
    {
      var t := timers[i];
      var conn := t.conn;
      assert conn in connections && Sound(conn.View());
      if !Due(t, now) {
        assert timers == timers[..i] + [t] + timers[i + 1..];
        return false;
      }
      gone := if conn.state == WaitForAck then conn.queue == [] || conn.queue[0].retries >= MAX_RETRIES
        else t.retries >= MAX_RETRIES;
      if gone {
        WithoutTimerAt(timers, i);
        Remove(conn);
      } else {
        Restart(i, now);
      }
    }

    /** The same round, told by what every connection looks like. */
    method SweepView(i: nat, now: nat) returns (gone: bool)
      requires Valid() && i < |timers|
      modifies `timers, `connections, `sent, timers[i].conn
      ensures Valid()
      ensures var t := old(timers[i]); t.conn in old(Views()) && var v := old(Views())[t.conn];
        && gone == (Due(t, now) && GivesUp(v, t.retries))
        && timers == old(timers[..i]) + TimerAfter(t, v, now) + old(timers[i + 1..])
        && sent == old(sent) + TimerSegments(t, v, now)
        && if gone then Views() == old(Views()) - {t.conn}
          else exists w :: Visited(v, w, Due(t, now)) && Views() == old(Views())[t.conn := w]
    {
      ghost var t := timers[i];
      assert t.conn in connections;
      gone := SweepTimer(i, now);
      if gone {
        assert Views() == old(Views()) - {t.conn};
      } else {
        assert Views() == old(Views())[t.conn := t.conn.View()];
      }
    }

    /** State of the sweep after the first k timers, at position i of the list. */
    ghost predicate Sweeping(i: nat, k: nat, ts0: seq<Timer>, views0: map<Connection, Tcb>, sent0: seq<Segment>,
                             now: nat)
      reads this, connections
    {
      && Valid() && k <= |ts0| && OneEach(ts0) && Swept(k, ts0, views0, now, Views())
      && timers == TimersAfter(ts0[..k], views0, now) + ts0[k..] && i == |TimersAfter(ts0[..k], views0, now)|
      && sent == sent0 + SweepSegments(ts0[..k], views0, now)
    }

    lemma SweepBegins(now: nat)
      requires Valid()
      ensures Sweeping(0, 0, timers, Views(), sent, now)
    {
      SweptStart(timers, Views(), now);
    }

    lemma SweepEnds(i: nat, k: nat, ts0: seq<Timer>, views0: map<Connection, Tcb>, sent0: seq<Segment>, now: nat)
      requires Sweeping(i, k, ts0, views0, sent0, now) && i >= |timers|
      ensures Swept(|ts0|, ts0, views0, now, Views())
      ensures timers == TimersAfter(ts0, views0, now) && sent == sent0 + SweepSegments(ts0, views0, now)
    {
      assert k == |ts0| && ts0[..k] == ts0;
    }

    lemma SweepInside(i: nat, k: nat, ts0: seq<Timer>, views0: map<Connection, Tcb>, sent0: seq<Segment>, now: nat)
      requires Sweeping(i, k, ts0, views0, sent0, now) && i < |timers|
      ensures timers[i].conn in views0 && k < |ts0|
    {
      assert timers[i].conn in Views();
    }

    lemma MoreSent(before: seq<Segment>, sent: seq<Segment>, more: seq<Segment>)
      ensures before + sent + more == before + (sent + more)
    {
    }

    lemma Around(ts: seq<Timer>, done: seq<Timer>, ts0: seq<Timer>, k: nat)
      requires k < |ts0| && ts == done + ts0[k..]
      ensures ts[..|done|] == done && ts[|done| + 1..] == ts0[k + 1..]
    {
    }

    method SweepRound(i: nat, ghost k: nat, ghost ts0: seq<Timer>, ghost views0: map<Connection, Tcb>,
                      ghost sent0: seq<Segment>, now: nat) returns (gone: bool)
      requires Sweeping(i, k, ts0, views0, sent0, now) && i < |timers|
      modifies `timers, `connections, `sent, timers[i].conn
      ensures Sweeping(if gone then i else i + 1, k + 1, ts0, views0, sent0, now)
    {
      ghost var views := Views();
      ghost var done := TimersAfter(ts0[..k], views0, now);
      assert k < |ts0| && timers[i] == ts0[k] && ts0[k].conn in connections;
      Around(timers, done, ts0, k);
      TimersStep(ts0, k, views0, now);
      MoreSent(sent0, SweepSegments(ts0[..k], views0, now), TimerSegments(ts0[k], views0[ts0[k].conn], now));
      gone := SweepView(i, now);
      SweptNext(k, ts0, views0, now, views, Views());
    }

    /** The loop of check_tcp_timers. */
    method SweepLoop(ghost ts0: seq<Timer>, ghost views0: map<Connection, Tcb>, ghost sent0: seq<Segment>,
                     now: nat) returns (i: nat, ghost k: nat)
      requires Sweeping(0, 0, ts0, views0, sent0, now) && views0 == Views()
      modifies `timers, `connections, `sent, connections
      ensures Sweeping(i, k, ts0, views0, sent0, now) && i >= |timers|
    {
      i, k := 0, 0;
      while i < |timers|
        invariant Sweeping(i, k, ts0, views0, sent0, now)
        decreases |ts0| - k
      {
        SweepInside(i, k, ts0, views0, sent0, now);
        var gone := SweepRound(i, k, ts0, views0, sent0, now);
        i, k := if gone then i else i + 1, k + 1;
      }
    }

    /** check_tcp_timers at tick `now`. A connection goes exactly when a timer of its is due
        and has used up its retries; a due one that stays is sent to once more; and no other
        is touched, least of all one that is established or has only sent its SYN. */
    method Sweep(now: nat)
      requires Valid()
      modifies `timers, `connections, `sent, connections
      ensures Valid() && forall c <- connections :: c in old(connections)
      ensures timers == TimersAfter(old(timers), old(Views()), now)
      ensures sent == old(sent) + SweepSegments(old(timers), old(Views()), now)
      ensures Swept(|old(timers)|, old(timers), old(Views()), now, Views())
    {
      ghost var ts0, views0, sent0 := timers, Views(), sent;
      SweepBegins(now);
      var i, k := SweepLoop(ts0, views0, sent0, now);
      SweepEnds(i, k, ts0, views0, sent0, now);
      forall c <- connections ensures c in old(connections) {
        assert c in Views() && c in views0;
      }
    }

    // ---- the established state ----

    method DupAck(conn: Connection, ack: nat) returns (got: bool)
      requires InOrder(conn.View())
      modifies conn, `sent
      ensures conn.View() == DupAcked(old(conn.View()), ack, got)
      ensures sent == old(sent) + DupSegments(old(conn.View()), ack)
    {
      got := false;
      if ack == conn.lastAck {
        conn.dupAcks := (conn.dupAcks + 1) % BYTE;
        if conn.dupAcks == 3 && conn.queue != [] {
          got := SendSegment(conn, ACK, conn.queue[0].data);
        }
      }
    }

    method Acknowledge(conn: Connection, p: Packet)
      requires conn.nextSeq < WORD && p.ack < WORD
      modifies conn, `sent
      ensures conn.View() == Acked(old(conn.View()), p) && sent == old(sent) + AckSegments(conn.View(), p)
    {
      conn.expectedAck := (p.sn + DataLen(p)) % WORD;
      if p.ack > conn.nextSeq {
        conn.nextSeq := p.ack;
      }
      conn.AckQueue(p.ack);
      if p.sn != conn.expectedAck {
        SendAck(conn);
      }
    }

    /** A bare acknowledgement takes no sequence number. */
    method SendAck(conn: Connection)
      requires conn.nextSeq < WORD
      modifies conn, `sent
      ensures conn.View() == old(conn.View()) && sent == old(sent) + [SegmentOf(conn.View(), ACK, "")]
    {
      var got := SendSegment(conn, ACK, "");
    }

    /** handle_http_request. */
    method Reply(conn: Connection, page: Page, now: nat) returns (header: bool, body: bool, timer: bool)
      requires InOrder(conn.View())
      modifies conn, `sent, `timers
      ensures conn.View() == Replied(old(conn.View()), page, header, body)
      ensures sent == old(sent) + ReplySegments(old(conn.View()), page, header)
      ensures timers == if page.Page? && timer then [Timer(conn, DATA_TIMEOUT, now, 0)] + old(timers) else old(timers)
    {
      header, body, timer := false, false, false;
      match page
      case Page(content) =>
        var file := Trimmed(content);
        header := SendSegment(conn, PSH_ACK, Cut(Headers(|file|)));
        body := SendSegment(conn, PSH_ACK, Cut(file));
        conn.state := WaitForAck;
        timer := StartTimer(conn, DATA_TIMEOUT, now);
      case Missing =>
        header := SendSegment(conn, PSH_ACK, NOT_FOUND);
        conn.state := CloseWait;
      case NoMemory =>
        conn.state := CloseWait;
    }

    method Deliver(conn: Connection, p: Packet, page: Page, now: nat) returns (header: bool, body: bool, timer: bool)
      requires InOrder(conn.View()) && conn.expectedAck == (p.sn + DataLen(p)) % WORD
      modifies conn, `sent, `timers
      ensures conn.View() == Delivered(old(conn.View()), p, page, header, body)
      ensures sent == old(sent) + DeliverySegments(old(conn.View()), p, page, header)
      ensures timers == AnswerTimed(old(timers), conn, p, page, timer, now)
    {
      header, body, timer := false, false, false;
      if DataLen(p) > 0 {
        conn.expectedAck := (p.sn + DataLen(p)) % WORD;
        if p.get {
          header, body, timer := Reply(conn, page, now);
          conn.state := WaitForAck;
        } else {
          conn.recvLen := (conn.recvLen + DataLen(p)) % SHORT;
          SendAck(conn);
        }
      }
    }

    method Finish(conn: Connection, p: Packet) returns (got: bool)
      requires InOrder(conn.View())
      modifies conn, `sent
      ensures conn.View() == Finished(old(conn.View()), p, got) && sent == old(sent) + FinSegments(old(conn.View()), p)
    {
      got := false;
      if p.flags.fin {
        conn.expectedAck := (conn.expectedAck + 1) % WORD;
        conn.state := CloseWait;
        SendAck(conn);
        got := SendSegment(conn, FIN_ACK, "");
        conn.state := LastAck;
      }
    }

    /** The acknowledgement a packet carries. */
    method Receive(conn: Connection, p: Packet) returns (resend: bool)
      requires InOrder(conn.View()) && p.ack < WORD
      modifies conn, `sent
      ensures conn.View() == AfterAck(old(conn.View()), p, resend) && InOrder(conn.View())
      ensures conn.View().expectedAck == (p.sn + DataLen(p)) % WORD
      ensures sent == old(sent) + (DupSegments(old(conn.View()), p.ack) + AckSegments(conn.View(), p))
    {
      ghost var t := conn.View();
      resend := DupAck(conn, p.ack);
      DupAckedInOrder(t, p.ack, resend);
      AckedInOrder(conn.View(), p);
      Acknowledge(conn, p);
    }

    /** handle_established_state after its timer sweep. */
    method Process(conn: Connection, p: Packet, page: Page, now: nat) returns (ghost luck: Luck)
      requires InOrder(conn.View()) && conn.state == Established && p.ack < WORD
      modifies conn, `sent, `timers
      ensures conn.View() == AfterEstablished(old(conn.View()), p, page, luck)
      ensures sent == old(sent) + EstablishedSegments(old(conn.View()), p, page, luck)
      ensures timers == AnswerTimed(old(timers), conn, p, page, luck.timer, now)
    {
      ghost var t := conn.View();
      var resend := Receive(conn, p);
      ghost var a := conn.View();
      var header, body, timer := Deliver(conn, p, page, now);
      DeliveredOutcome(a, p, page, header, body);
      ghost var d := conn.View();
      var fin := Finish(conn, p);
      luck := Luck(resend, header, body, fin, timer);
      Regroup(old(sent), DupSegments(t, p.ack) + AckSegments(a, p), DeliverySegments(a, p, page, header),
        FinSegments(d, p));
    }

    /** The connection owns no timer before, and at most the one of its answer afterwards. */
    method ProcessSound(conn: Connection, p: Packet, page: Page, now: nat) returns (ghost luck: Luck)
      requires Valid() && conn in connections && conn.state == Established && p.ack < WORD
      modifies conn, `sent, `timers
      ensures Valid() && conn.View() == AfterEstablished(old(conn.View()), p, page, luck)
      ensures sent == old(sent) + EstablishedSegments(old(conn.View()), p, page, luck)
      ensures timers == AnswerTimed(old(timers), conn, p, page, luck.timer, now)
    {
      assert Sound(conn.View()) && forall t <- timers :: t.conn != conn;
      ghost var t := conn.View();
      luck := Process(conn, p, page, now);
      EstablishedSound(t, p, page, luck);
      AnswerTimers(old(timers), conn, p, page, luck.timer, now);
      OthersStill(conn);
    }

    /** A connection without a timer may change, and get one if its state allows it. */
    twostate lemma OthersStill(conn: Connection)
      requires old(Valid()) && conn in connections && connections == old(connections) && Sound(conn.View())
      requires forall c <- connections :: c != conn ==> c.View() == old(c.View())
      requires forall t <- old(timers) :: t.conn != conn
      requires OneEach(timers) && forall t <- timers :: t in old(timers) || (t.conn == conn && MayOwnTimer(conn.state))
      ensures Valid()
    {
      forall c <- connections ensures Sound(c.View()) {
        assert c != conn ==> old(Sound(c.View()));
      }
      forall t <- timers ensures t.conn in connections && MayOwnTimer(t.conn.state) {
        assert t.conn != conn ==> t.conn.View() == old(t.conn.View());
      }
    }

    lemma ViewsBack(conn: Connection, before: Tcb, views: map<Connection, Tcb>)
      requires conn in connections && views.Keys == Views().Keys && views[conn] == before
      requires forall c <- connections :: c != conn ==> c.View() == views[c]
      ensures Views()[conn := before] == views
    {
    }

    /** A sweep while a connection that owns no timer is in hand. */
    method SweepBefore(conn: Connection, now: nat)
      requires Valid() && conn in connections && !MayOwnTimer(conn.state)
      modifies `timers, `connections, `sent, connections
      ensures Valid() && conn in connections && conn.View() == old(conn.View())
      ensures timers == TimersAfter(old(timers), old(Views()), now)
      ensures sent == old(sent) + SweepSegments(old(timers), old(Views()), now)
      ensures Swept(|old(timers)|, old(timers), old(Views()), now, Views())
    {
      Sweep(now);
      Untouched(old(timers), old(Views()), now, Views(), conn);
      assert conn in Views() && Views()[conn] == old(Views())[conn];
    }

    /** handle_established_state. Its sweep leaves the connection in hand as it is, so the
        code's branches for a connection that is in SYN_SENT or CLOSE_WAIT after the sweep
        are never taken, and the connection is still listed at the end. */
    method HandleEstablished(conn: Connection, p: Packet, page: Page, now: nat) returns (ghost luck: Luck)
      requires Valid() && conn in connections && conn.state == Established && p.ack < WORD
      modifies `timers, `connections, `sent, connections
      ensures Valid() && conn in connections && conn.View() == AfterEstablished(old(conn.View()), p, page, luck)
      ensures sent ==
        old(sent) + SweepSegments(old(timers), old(Views()), now) + EstablishedSegments(old(conn.View()), p, page, luck)
      ensures Swept(|old(timers)|, old(timers), old(Views()), now, Views()[conn := old(conn.View())])
      ensures timers == AnswerTimed(TimersAfter(old(timers), old(Views()), now), conn, p, page, luck.timer, now)
    {
      SweepBefore(conn, now);
      ghost var views := Views();
      luck := ProcessSound(conn, p, page, now);
      ViewsBack(conn, old(conn.View()), views);
    }

    // ---- the other states ----

    /** A SYN-ACK for what was sent establishes the connection. */
    method HandleSynSent(conn: Connection, p: Packet)
      requires Valid() && conn in connections && conn.state == SynSent
      modifies conn, `sent, `timers
      ensures Valid() && timers == old(timers)
      ensures if p.flags.syn && p.flags.ack && p.ack == old(conn.nextSeq)
        then conn.View() == old(conn.View()).(expectedAck := (p.sn + 1) % WORD, state := Established)
          && sent == old(sent) + [SegmentOf(conn.View(), ACK, "")]
        else conn.View() == old(conn.View()) && sent == old(sent)
    {
      if p.flags.syn && p.flags.ack && p.ack == conn.nextSeq {
        assert Sound(conn.View());
        Establish(conn, p);
        SendAck(conn);
        NoTimer(timers, conn);
        CancelTimer(conn);
      }
    }

    method Establish(conn: Connection, p: Packet)
      requires Valid() && conn in connections && conn.state == SynSent
      modifies conn`expectedAck, conn`state
      ensures Valid() && conn.View() == old(conn.View()).(expectedAck := (p.sn + 1) % WORD, state := Established)
      ensures forall t <- timers :: t.conn != conn
    {
      assert Sound(conn.View()) && forall t <- timers :: t.conn != conn;
      conn.expectedAck := (p.sn + 1) % WORD;
      conn.state := Established;
    }

    lemma {:induction false} NoTimer(ts: seq<Timer>, c: Connection)
      requires forall t <- ts :: t.conn != c
      ensures WithoutTimer(ts, c) == ts
    {
      if ts != [] {
        NoTimer(ts[1..], c);
      }
    }

    /** An acknowledgement of the SYN establishes the connection and ends its timer. */
    method HandleSynReceived(conn: Connection, p: Packet)
      requires Valid() && conn in connections && conn.state == SynReceived
      modifies conn, `timers
      ensures Valid()
      ensures if p.flags.ack && p.ack == old(conn.nextSeq)
        then conn.View() == old(conn.View()).(state := Established) && timers == WithoutTimer(old(timers), conn)
          && forall t <- timers :: t.conn != conn
        else conn.View() == old(conn.View()) && timers == old(timers)
    {
      if p.flags.ack && p.ack == conn.nextSeq {
        assert Sound(conn.View());
        conn.state := Established;
        CancelTimer(conn);
        WithoutTimerLaw(old(timers), conn);
      }
    }

    method HandleWaiting(conn: Connection, p: Packet) returns (ghost got: bool)
      requires Valid() && conn in connections && conn.state == WaitForAck
      modifies conn, `sent, `timers, `connections
      ensures Valid() && sent == old(sent) + WaitingSegments(old(conn.View()), p.ack)
      ensures AllAcked(old(conn.View()), p.ack) ==>
        timers == WithoutTimer(old(timers), conn) && connections == Without(old(connections), conn)
      ensures !AllAcked(old(conn.View()), p.ack) ==>
        && timers == old(timers) && connections == old(connections)
        && conn.View() == AfterWaiting(old(conn.View()), p.ack, got)
    {
      assert Sound(conn.View());
      got := false;
      if conn.queue != [] {
        WaitingInOrder(conn.View(), p.ack, false);
        WaitingInOrder(conn.View(), p.ack, true);
        got := CheckNewest(conn, p.ack);
        if conn.queue == [] {
          Remove(conn);
        }
      }
    }

    /** The newest entry against the acknowledgement. */
    method CheckNewest(conn: Connection, ack: nat) returns (got: bool)
      requires InOrder(conn.View()) && conn.queue != []
      modifies conn, `sent
      ensures conn.View() == AfterWaiting(old(conn.View()), ack, got)
      ensures sent == old(sent) + WaitingSegments(old(conn.View()), ack)
    {
      got := false;
      var e := conn.queue[0];
      var expected := (e.sn + |e.data|) % WORD;
      if e.flags.syn || e.flags.fin {
        expected := (expected + 1) % WORD;
      }
      NextNumber(e.sn + |e.data|);
      if ack >= expected {
        conn.queue := conn.queue[1..];
      } else if ack > conn.lastAck {
        conn.lastAck := ack;
        conn.queue := conn.queue[0 := e.(retries := 0)];
      } else {
        conn.dupAcks := (conn.dupAcks + 1) % BYTE;
        if conn.dupAcks >= 3 {
          got := SendSegment(conn, e.flags, e.data);
          conn.dupAcks := 0;
        }
      }
    }

    method HandleLastAck(conn: Connection, p: Packet)
      requires Valid() && conn in connections && conn.state == LastAck
      modifies `timers, `connections
      ensures Valid()
      ensures if p.flags.ack && p.ack == conn.nextSeq
        then timers == WithoutTimer(old(timers), conn) && connections == Without(old(connections), conn)
        else timers == old(timers) && connections == old(connections)
    {
      if p.flags.ack && p.ack == conn.nextSeq {
        Remove(conn);
      }
    }

    // ---- opening ----

    method SendReset(p: Packet)
      modifies `sent
      ensures sent == old(sent) + [ResetOf(p)]
    {
      sent := sent + [Segment(p.srcIp, p.destPort, p.srcPort, p.ack, 0, RST, RECV_BUFFER, false, "")];
    }

    method ListenOn(port: nat)
      modifies `ports
      ensures ports == old(ports) || ports == [port] + old(ports)
    {
      var got: bool := *;
      if got {
        ports := [port] + ports;
      }
    }

    method IsListening(port: nat) returns (found: bool)
      ensures found <==> port in ports
    {
      var i := 0;
      while i < |ports|
        invariant i <= |ports| && port !in ports[..i]
      {
        if ports[i] == port {
          return true;
        }
        i := i + 1;
      }
      return false;
    }

    /** A new connection in front of the others keeps the lists sound. */
    lemma Prepended(conn: Connection, cs: seq<Connection>, ts: seq<Timer>, timeout: nat, now: nat)
      requires conn !in cs && Distinct(cs) && OneEach(ts) && forall t <- ts :: t.conn in cs
      ensures Distinct([conn] + cs) && OneEach([Timer(conn, timeout, now, 0)] + ts)
    {
      DistinctMore(conn, cs);
      OneEachMore(Timer(conn, timeout, now, 0), ts);
    }

    /** A SYN to a listening port: one connection in SYN_RECEIVED, with the peer's segment
        size, our SYN-ACK on its way and a timer for it. */
    method Open(p: Packet, isn: nat, now: nat) returns (conn: Connection, ghost got: bool, ghost timer: bool)
      requires Valid() && WellFormedPacket(p) && p.offset >= 5 && isn < WORD
      modifies this
      ensures Valid() && fresh(conn) && connections == [conn] + old(connections) && ports == old(ports)
      ensures conn.View() == Sent(Opened(p, isn), SYN_ACK, "", got)
      ensures sent == old(sent) + [SegmentOf(Opened(p, isn), SYN_ACK, "")]
      ensures timers == if timer then [Timer(conn, SYN_TIMEOUT, now, 0)] + old(timers) else old(timers)
    {
      var mss := DEFAULT_MSS;
      if |p.options| > 0 {
        mss := ProcessOptions(p.options, mss);
      }
      conn := new Connection(p.dstIp, p.srcIp, p.destPort, p.srcPort, mss, isn, (p.sn + 1) % WORD, SynReceived);
      Prepended(conn, connections, timers, SYN_TIMEOUT, now);
      connections := [conn] + connections;
      got, timer := Greet(conn, now);
    }

    /** Our SYN-ACK and its timer. */
    method Greet(conn: Connection, now: nat) returns (got: bool, timer: bool)
      requires Valid() && conn in connections && conn.state == SynReceived
        && OneEach([Timer(conn, SYN_TIMEOUT, now, 0)] + timers)
      modifies conn, `sent, `timers
      ensures Valid() && conn.View() == Sent(old(conn.View()), SYN_ACK, "", got)
      ensures sent == old(sent) + [SegmentOf(old(conn.View()), SYN_ACK, "")]
      ensures timers == if timer then [Timer(conn, SYN_TIMEOUT, now, 0)] + old(timers) else old(timers)
    {
      assert Sound(conn.View());
      SentInOrder(conn.View(), SYN_ACK, "", true);
      SentInOrder(conn.View(), SYN_ACK, "", false);
      got := SendSegment(conn, SYN_ACK, "");
      timer := StartTimer(conn, SYN_TIMEOUT, now);
    }

    /** The states without a sweep. The timer goes with the connection, and with SYN_RECEIVED. */
    method HandleOther(conn: Connection, p: Packet, page: Page) returns (ghost luck: Luck)
      requires Valid() && conn in connections && conn.state != Established
      modifies conn, `sent, `timers, `connections
      ensures Valid() && forall c <- connections :: c in old(connections)
      ensures forall c <- old(connections) :: c != conn ==> c in connections
      ensures sent == old(sent) + PacketSegments(old(conn.View()), p, page, luck)
      ensures if Ends(old(conn.View()), p) then connections == Without(old(connections), conn)
        else connections == old(connections) && conn.View() == AfterPacket(old(conn.View()), p, page, luck)
      ensures timers ==
        if Ends(old(conn.View()), p) || (old(conn.state) == SynReceived && Completes(old(conn.View()), p))
        then WithoutTimer(old(timers), conn) else old(timers)
    {
      luck := NO_LUCK;
      assert Sound(conn.View());
      match conn.state {
        case SynSent =>
          HandleSynSent(conn, p);
        case SynReceived =>
          HandleSynReceived(conn, p);
        case WaitForAck =>
          ghost var got := HandleWaiting(conn, p);
          luck := NO_LUCK.(resend := got);
          WithoutLaw(old(connections), conn);
        case LastAck =>
          HandleLastAck(conn, p);
          WithoutLaw(old(connections), conn);
        case _ =>
      }
    }

    method HandleInUse(conn: Connection, p: Packet, page: Page, now: nat) returns (ghost luck: Luck)
      requires Valid() && conn in connections && conn.state == Established && p.ack < WORD
      modifies `timers, `connections, `sent, connections
      ensures Valid() && forall c <- connections :: c in old(connections)
      ensures forall c <- old(connections) :: c != conn && !HasDue(old(timers), now, c) ==>
        c in connections && c.View() == old(c.View())
      ensures conn in connections && conn.View() == AfterPacket(old(conn.View()), p, page, luck)
      ensures sent ==
        old(sent) + SweepSegments(old(timers), old(Views()), now) + PacketSegments(old(conn.View()), p, page, luck)
      ensures timers == AnswerTimed(TimersAfter(old(timers), old(Views()), now), conn, p, page, luck.timer, now)
    {
      ghost var ts0, views0 := timers, Views();
      luck := HandleEstablished(conn, p, page, now);
      ghost var views := Views()[conn := views0[conn]];
      forall c <- old(connections) | c != conn && !HasDue(ts0, now, c)
        ensures c in connections && c.View() == old(c.View()) {
        Untouched(ts0, views0, now, views, c);
        assert c in Views() && Views()[c] == views0[c];
      }
      forall c <- connections ensures c in old(connections) {
        assert c in views;
      }
    }

    /** The state decides. Any other connection comes through as it was, unless its timer was due. */
    method HandleListed(conn: Connection, p: Packet, page: Page, now: nat) returns (ghost luck: Luck)
      requires Valid() && conn in connections && p.ack < WORD
      modifies `timers, `connections, `sent, connections
      ensures Valid() && forall c <- connections :: c in old(connections)
      ensures forall c <- old(connections) :: c != conn && !HasDue(old(timers), now, c) ==>
        c in connections && c.View() == old(c.View())
      ensures sent ==
        old(sent) + SweptFirst(old(conn.View()), old(timers), old(Views()), now)
          + PacketSegments(old(conn.View()), p, page, luck)
      ensures timers == TimersThen(conn, old(conn.View()), p, page, luck, old(timers), old(Views()), now)
      ensures if Ends(old(conn.View()), p) then conn !in connections
        else conn in connections && conn.View() == AfterPacket(old(conn.View()), p, page, luck)
    {
      if conn.state == Established {
        luck := HandleInUse(conn, p, page, now);
      } else {
        luck := HandleOther(conn, p, page);
        WithoutLaw(old(connections), conn);
      }
    }

    /** What becomes of a packet that belongs to no connection. A SYN to a listening port opens one
        in SYN_RECEIVED, in front of the others, if there is memory for it: our SYN-ACK goes out and,
        with memory for that as well, a timer starts. Anything else is answered by a reset. */
    twostate predicate Unasked(p: Packet, isn: nat, now: nat, memory: bool, luck: Luck)
      reads this, connections
    {
      if !(p.flags.syn && p.destPort in old(ports)) then
        connections == old(connections) && timers == old(timers) && sent == old(sent) + [ResetOf(p)]
      else if !memory then
        connections == old(connections) && timers == old(timers) && sent == old(sent)
      else
        && connections != [] && fresh(connections[0]) && connections == [connections[0]] + old(connections)
        && connections[0].View() == Sent(Opened(p, isn), SYN_ACK, "", luck.header)
        && sent == old(sent) + [SegmentOf(Opened(p, isn), SYN_ACK, "")]
        && timers == if luck.timer then [Timer(connections[0], SYN_TIMEOUT, now, 0)] + old(timers) else old(timers)
    }

    /** tcp_handle_packet. `page`, `isn` and `memory` are what the file system, the counter behind
        the initial sequence number and the heap answer if asked for a page, a number and a
        connection block. */
    method HandlePacket(p: Packet, page: Page, isn: nat, now: nat, memory: bool)
      returns (ghost owner: Connection?, ghost luck: Luck)
      requires Valid() && WellFormedPacket(p) && isn < WORD
      modifies this, connections
      ensures Valid() && ports == old(ports) && forall c <- connections :: c in old(connections) || fresh(c)
      ensures owner == Owner(old(connections), p)
      ensures forall c <- old(connections) :: c != owner && !HasDue(old(timers), now, c) ==>
        c in connections && c.View() == old(c.View())
      ensures p.offset < 5 ==>
        connections == old(connections) && timers == old(timers) && sent == old(sent) + [ResetOf(p)]
      ensures p.offset >= 5 && owner == null && p.flags.rst ==>
        connections == old(connections) && timers == old(timers) && sent == old(sent)
      ensures p.offset >= 5 && owner == null && !p.flags.rst ==> Unasked(p, isn, now, memory, luck)
      ensures p.offset >= 5 && owner != null ==> Claimed(old(Now()), owner, p, page, now, luck, Now())
    {
      owner, luck := Owner(connections, p), NO_LUCK;
      if p.offset < 5 {
        SendReset(p);
        return;
      }
      var conn := FindOwner(p);
      assert Now() == old(Now());
      luck := Dispatch(conn, p, page, isn, now, memory);
    }

    method FindOwner(p: Packet) returns (conn: Connection?)
      ensures conn == Owner(connections, p) && (conn != null ==> conn in connections)
    {
      conn := FindConnection(p.srcIp, p.srcPort, p.dstIp, p.destPort);
      LookupLaw(connections, p.srcIp, p.srcPort, p.dstIp, p.destPort);
    }

    /** The packet, once its connection has been looked for. */
    method Dispatch(conn: Connection?, p: Packet, page: Page, isn: nat, now: nat,
                    memory: bool) returns (ghost luck: Luck)
      requires Valid() && WellFormedPacket(p) && p.offset >= 5 && isn < WORD && (conn != null ==> conn in connections)
      modifies this, connections
      ensures Valid() && ports == old(ports) && forall c <- connections :: c in old(connections) || fresh(c)
      ensures forall c <- old(connections) :: c != conn && !HasDue(old(timers), now, c) ==>
        c in connections && c.View() == old(c.View())
      ensures conn == null && p.flags.rst ==>
        connections == old(connections) && timers == old(timers) && sent == old(sent)
      ensures conn == null && !p.flags.rst ==> Unasked(p, isn, now, memory, luck)
      ensures conn != null ==> Claimed(old(Now()), conn, p, page, now, luck, Now())
    {
      luck := NO_LUCK;
      if conn != null {
        luck := HandleClaimed(conn, p, page, now);
      } else if !p.flags.rst {
        luck := HandleUnasked(p, isn, now, memory);
      }
    }

    /** The packet of a listed connection. */
    method HandleClaimed(conn: Connection, p: Packet, page: Page, now: nat) returns (ghost luck: Luck)
      requires Valid() && conn in connections && p.ack < WORD
      modifies `timers, `connections, `sent, connections
      ensures Valid() && forall c <- connections :: c in old(connections)
      ensures forall c <- old(connections) :: c != conn && !HasDue(old(timers), now, c) ==>
        c in connections && c.View() == old(c.View())
      ensures Claimed(old(Now()), conn, p, page, now, luck, Now())
    {
      luck := NO_LUCK;
      if p.flags.rst {
        Remove(conn);
        WithoutLaw(old(connections), conn);
      } else {
        luck := HandleListed(conn, p, page, now);
      }
    }

    /** A packet that belongs to no connection and is no reset. */
    method HandleUnasked(p: Packet, isn: nat, now: nat, memory: bool) returns (ghost luck: Luck)
      requires Valid() && WellFormedPacket(p) && p.offset >= 5 && isn < WORD
      modifies this
      ensures Valid() && ports == old(ports) && forall c <- old(connections) :: c in connections
      ensures forall c <- connections :: c in old(connections) || fresh(c)
      ensures Unasked(p, isn, now, memory, luck)
    {
      luck := NO_LUCK;
      if p.flags.syn {
        var listening := IsListening(p.destPort);
        if !listening {
          SendReset(p);
          return;
        }
        if memory {
          ghost var queued, timer;
          var conn;
          conn, queued, timer := Open(p, isn, now);
          luck := NO_LUCK.(header := queued, timer := timer);
        }
      } else {
        SendReset(p);
      }
    }

    /** tcp_connect, from a cleared connection block. */
    method Connect(localIp: nat, remoteIp: nat, remotePort: nat, random: nat, isn: nat, memory: bool)
      returns (conn: Connection?, ghost got: bool)
      requires Valid() && isn < WORD
      modifies this
      ensures Valid() && timers == old(timers) && ports == old(ports)
      ensures conn == null <==> !memory
      ensures conn == null ==> connections == old(connections) && sent == old(sent)
      ensures conn != null ==> fresh(conn) && connections == [conn] + old(connections)
      ensures conn != null ==>
        var t := Tcb(localIp, remoteIp, 50000 + random % 15536, remotePort, 0, isn, 0, 0, SynSent, [], 0, 0, false,
          false);
        conn.View() == Sent(t, SYN, "", got) && sent == old(sent) + [SegmentOf(t, SYN, "")]
    {
      got := false;
      if !memory {
        return null, got;
      }
      conn := new Connection(localIp, remoteIp, 50000 + random % 15536, remotePort, 0, isn, 0, SynSent);
      SentInOrder(conn.View(), SYN, "", true);
      SentInOrder(conn.View(), SYN, "", false);
      DistinctMore(conn, connections);
      got := SendSegment(conn, SYN, "");
      connections := [conn] + connections;
    }

    // ---- applications ----

    /** An application sends data, as the shell's telnet does while the connection is established. */
    method Say(conn: Connection, data: string) returns (ghost got: bool)
      requires Valid() && conn in connections && |data| < SHORT
      modifies conn, `sent
      ensures Valid()
      ensures conn.View() == AfterTurn(old(conn.View()), Says(data, got))
      ensures sent == old(sent) + TurnSegments(old(conn.View()), Says(data, got))
    {
      got := false;
      if conn.state == Established {
        got := Speak(conn, data);
      }
    }

    method Speak(conn: Connection, data: string) returns (got: bool)
      requires Valid() && conn in connections && conn.state == Established && |data| < SHORT
      modifies conn, `sent
      ensures Valid() && conn.View() == Spoken(old(conn.View()), data, got)
      ensures sent == old(sent) + [SegmentOf(old(conn.View()), PSH_ACK, data)]
    {
      assert Sound(conn.View());
      SentInOrder(conn.View(), PSH_ACK, data, true);
      SentInOrder(conn.View(), PSH_ACK, data, false);
      conn.fed := true;
      got := SendSegment(conn, PSH_ACK, data);
    }

    /** It takes what has been received. */
    method Read(conn: Connection)
      requires Valid() && conn in connections
      modifies conn
      ensures Valid() && conn.View() == AfterTurn(old(conn.View()), Reads)
    {
      assert Sound(conn.View());
      if conn.state == Established {
        conn.recvLen := 0;
      }
    }
  }

  // ---- runs ----

  /** What can happen to the stack. `k` is the place of a connection in the list. */
  datatype Event = Incoming(packet: Packet, page: Page, isn: nat, now: nat, memory: bool) | Tick(now: nat)
    | ListenTo(port: nat) | ConnectTo(localIp: nat, remoteIp: nat, remotePort: nat, random: nat, isn: nat, memory: bool)
    | SendData(k: nat, data: string) | TakeData(k: nat) | Close(k: nat)

  predicate Possible(e: Event) {
    match e
    case Incoming(p, _, isn, _, _) => WellFormedPacket(p) && isn < WORD
    case ConnectTo(_, _, _, _, isn, _) => isn < WORD
    case SendData(_, data) => |data| < SHORT
    case _ => true
  }

  /** Over every run of packets, sweeps, connects and what applications send, take and close each
      connection owns at most one timer, every timer belongs to a listed connection in a state
      that may own one, and every queue whose sequence numbers have not run over is in order below
      next_seq. Besides, last_ack is 0 but in WAIT_FOR_ACK. */
  method Run(es: seq<Event>) returns (stack: Stack)
    requires forall e <- es :: Possible(e)
    ensures fresh(stack) && stack.Valid()
  {
    stack := new Stack();
    for i := 0 to |es|
      invariant fresh(stack) && stack.Valid() && fresh(stack.connections)
    {
      ghost var before := stack.connections;
      assert Possible(es[i]) && forall c <- before :: fresh(c);
      match es[i] {
        case Incoming(p, page, isn, now, memory) =>
          ghost var owner, luck := stack.HandlePacket(p, page, isn, now, memory);
        case Tick(now) =>
          stack.Sweep(now);
        case ListenTo(port) =>
          stack.ListenOn(port);
        case ConnectTo(localIp, remoteIp, remotePort, random, isn, memory) =>
          ghost var got;
          var c;
          c, got := stack.Connect(localIp, remoteIp, remotePort, random, isn, memory);
        case SendData(k, data) =>
          if k < |stack.connections| {
            ghost var got := stack.Say(stack.connections[k], data);
          }
        case TakeData(k) =>
          if k < |stack.connections| {
            stack.Read(stack.connections[k]);
          }
        case Close(k) =>
          if k < |stack.connections| {
            stack.Remove(stack.connections[k]);
          }
      }
      forall k | 0 <= k < |stack.connections| ensures fresh(stack.connections[k]) {
        assert stack.connections[k] in stack.connections;
      }
    }
  }
}
