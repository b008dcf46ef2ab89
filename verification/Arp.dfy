/** The address cache, sending through it, and the queue of packets that wait for an address. */
module Arp {
  import opened Words
  import opened Checksum
  import opened Ipv4

  const CACHE_SIZE: nat := 32
  const CACHE_TIMEOUT: nat := 30000
  const MAX_PENDING: nat := 5
  const MAX_PACKET: nat := 1518
  const IP_HEADER: nat := 20

  type Address = x: nat | x < WORD

  /** A cache entry; address 0 marks it free. */
  datatype Slot = Slot(ip: Address, mac: seq<Byte>, time: nat)

  datatype Packet = Packet(dst: Address, protocol: Byte, payload: seq<Byte>)

  /** What goes to the network card. */
  datatype Frame = Request(target: Address) | Ip(mac: seq<Byte>, header: seq<Byte>, packet: Packet)

  predicate Fresh(s: Slot, now: nat) {
    (now - s.time) % WORD < CACHE_TIMEOUT
  }

  /** The used slots come first, each for another address. */
  ghost predicate Sound(slots: seq<Slot>) {
    forall i, j :: 0 <= i < j < |slots| && slots[j].ip != 0 ==> slots[i].ip != 0 && slots[i].ip != slots[j].ip
  }

  /** The cache as a table of addresses. */
  function Table(slots: seq<Slot>): (r: map<Address, Slot>) {
    if slots == [] then map[] else
      var s := slots[|slots| - 1];
      var rest := Table(slots[..|slots| - 1]);
      if s.ip == 0 then rest else rest[s.ip := s]
  }

  lemma {:induction false} TableLaw(slots: seq<Slot>)
    requires Sound(slots)
    ensures forall i :: 0 <= i < |slots| && slots[i].ip != 0 ==>
      slots[i].ip in Table(slots) && Table(slots)[slots[i].ip] == slots[i]
    ensures forall ip :: ip in Table(slots) ==> ip != 0 && exists i :: 0 <= i < |slots| && slots[i].ip == ip
  {
    if slots != [] {
      var init := slots[..|slots| - 1];
      TableLaw(init);
      var s := slots[|slots| - 1];
      assert Table(slots) == if s.ip == 0 then Table(init) else Table(init)[s.ip := s];
      forall i | 0 <= i < |slots| && slots[i].ip != 0
        ensures slots[i].ip in Table(slots) && Table(slots)[slots[i].ip] == slots[i] {
        if i < |init| {
          assert init[i] == slots[i];
          assert slots[|slots| - 1].ip != 0 ==> slots[i].ip != slots[|slots| - 1].ip;
        }
      }
      forall ip | ip in Table(slots) ensures ip != 0 && exists i :: 0 <= i < |slots| && slots[i].ip == ip {
        if ip in Table(init) {
          var i :| 0 <= i < |init| && init[i].ip == ip;
          assert slots[i].ip == ip;
        } else {
          assert slots[|slots| - 1].ip == ip;
        }
      }
    }
  }

  lemma OneMoreKey(m: map<Address, Slot>, ip: Address, s: Slot)
    requires ip !in m
    ensures |m[ip := s]| == |m| + 1
  {
    assert m[ip := s].Keys == m.Keys + {ip};
  }

  /** The table is full exactly when every slot is used. */
  lemma {:induction false} TableSize(slots: seq<Slot>)
    requires Sound(slots)
    ensures |Table(slots)| <= |slots|
    ensures |Table(slots)| == |slots| <==> forall i :: 0 <= i < |slots| ==> slots[i].ip != 0
  {
    if slots != [] {
      var init := slots[..|slots| - 1];
      TableSize(init);
      TableLaw(init);
      var s := slots[|slots| - 1];
      if s.ip != 0 {
        assert s.ip !in Table(init);
        assert forall i :: 0 <= i < |init| ==> init[i] == slots[i] && init[i].ip != 0;
        OneMoreKey(Table(init), s.ip, s);
      }
    }
  }

  /** An entry of the table is a slot of the cache. */
  lemma TableSlot(slots: seq<Slot>, ip: Address) returns (i: nat)
    requires Sound(slots) && ip in Table(slots)
    ensures i < |slots| && slots[i].ip == ip != 0 && Table(slots)[ip] == slots[i]
  {
    TableLaw(slots);
    i :| i < |slots| && slots[i].ip == ip;
  }

  lemma UpdatedSound(slots: seq<Slot>, i: nat, s: Slot)
    requires Sound(slots) && i < |slots| && s.ip != 0 && (slots[i].ip == s.ip || slots[i].ip == 0)
    requires forall j :: 0 <= j < i ==> slots[j].ip != s.ip && slots[j].ip != 0
    ensures Sound(slots[i := s])
  {
    var after := slots[i := s];
    forall a, b | 0 <= a < b < |after| && after[b].ip != 0 ensures after[a].ip != 0 && after[a].ip != after[b].ip {
      assert slots[b].ip != 0 && b != i ==> slots[a].ip != 0 && slots[a].ip != slots[b].ip;
      assert a == i && slots[b].ip != 0 ==> slots[i].ip == s.ip;
    }
  }

  /** Writing slot i, the first that is free or has that address, is an update of the table. */
  lemma UpdatedTable(slots: seq<Slot>, i: nat, s: Slot)
    requires i < |slots| && Sound(slots) && Sound(slots[i := s]) && s.ip != 0
      && (slots[i].ip == s.ip || slots[i].ip == 0)
    ensures Table(slots[i := s]) == Table(slots)[s.ip := s]
  {
    var after, expected := slots[i := s], Table(slots)[s.ip := s];
    NewEntry(after, i);
    forall ip | ip in expected ensures ip in Table(after) && Table(after)[ip] == expected[ip] {
      if ip != s.ip {
        TableKept(slots, after, i, ip);
      }
    }
    forall ip | ip in Table(after) ensures ip in expected {
      if ip != s.ip {
        TableKept(after, slots, i, ip);
      }
    }
  }

  /** What a free slot holds besides is nothing to the table. */
  lemma {:induction false} FreeSlotWritten(slots: seq<Slot>, i: nat, s: Slot)
    requires i < |slots| && slots[i].ip == 0 && s.ip == 0
    ensures Table(slots[i := s]) == Table(slots) && (Sound(slots) ==> Sound(slots[i := s]))
  {
    var l := |slots| - 1;
    if i < l {
      FreeSlotWritten(slots[..l], i, s);
      assert slots[i := s][..l] == slots[..l][i := s];
    } else {
      assert slots[i := s][..l] == slots[..l];
    }
  }

  lemma NewEntry(slots: seq<Slot>, i: nat)
    requires Sound(slots) && i < |slots| && slots[i].ip != 0
    ensures slots[i].ip in Table(slots) && Table(slots)[slots[i].ip] == slots[i]
  {
    TableLaw(slots);
  }

  lemma TableKept(a: seq<Slot>, b: seq<Slot>, i: nat, ip: Address)
    requires Sound(a) && Sound(b) && |a| == |b| && i < |a| && ip in Table(a) && (a[i].ip == 0 || a[i].ip != ip)
    requires forall j :: 0 <= j < |a| && j != i ==> a[j] == b[j]
    ensures ip in Table(b) && Table(b)[ip] == Table(a)[ip]
  {
    var j := TableSlot(a, ip);
    TableLaw(b);
    assert b[j] == a[j];
  }

  /** The first fresh entry for the address. */
  function Found(slots: seq<Slot>, ip: Address, now: nat): (r: Option<seq<Byte>>) {
    if slots == [] then None
    else if slots[0].ip == ip && Fresh(slots[0], now) then Some(slots[0].mac)
    else Found(slots[1..], ip, now)
  }

  lemma {:induction false} FoundLaw(slots: seq<Slot>, ip: Address, now: nat)
    ensures Found(slots, ip, now) == None <==> forall i :: 0 <= i < |slots| ==>
      !(slots[i].ip == ip && Fresh(slots[i], now))
    ensures Found(slots, ip, now).Some? ==>
      exists i :: 0 <= i < |slots| && slots[i].ip == ip && Fresh(slots[i], now)
        && slots[i].mac == Found(slots, ip, now).value
  {
    if slots != [] && !(slots[0].ip == ip && Fresh(slots[0], now)) {
      FoundLaw(slots[1..], ip, now);
      forall i | 0 <= i < |slots| && slots[i].ip == ip && Fresh(slots[i], now) ensures Found(slots, ip, now).Some? {
        assert slots[1..][i - 1] == slots[i];
      }
      if Found(slots, ip, now).Some? {
        var i :| 0 <= i < |slots| - 1 && slots[1..][i].ip == ip && Fresh(slots[1..][i], now)
          && slots[1..][i].mac == Found(slots, ip, now).value;
        assert slots[i + 1] == slots[1..][i];
      }
    }
  }

  /** For a real address the search of the cache is a lookup in the table. */
  lemma FoundInTable(slots: seq<Slot>, ip: Address, now: nat)
    requires Sound(slots) && ip != 0
    ensures Found(slots, ip, now) == if ip in Table(slots) && Fresh(Table(slots)[ip], now)
      then Some(Table(slots)[ip].mac) else None
  {
    TableLaw(slots);
    FoundLaw(slots, ip, now);
    if ip in Table(slots) {
      var i := TableSlot(slots, ip);
    }
  }

  /** The packets among the frames, in the order they went out. */
  function Packets(frames: seq<Frame>): (r: seq<Packet>) {
    if frames == [] then [] else
      Packets(frames[..|frames| - 1]) + if frames[|frames| - 1].Ip? then [frames[|frames| - 1].packet] else []
  }

  lemma {:induction false} PacketsMore(frames: seq<Frame>, more: seq<Frame>)
    ensures Packets(frames + more) == Packets(frames) + Packets(more)
  {
    if more == [] {
      assert frames + more == frames;
    } else {
      PacketsMore(frames, more[..|more| - 1]);
      assert (frames + more)[..|frames + more| - 1] == frames + more[..|more| - 1];
    }
  }

  /** Element i replaced by the last one and the end cut off. */
  function SwapOut(s: seq<Packet>, i: nat): (r: seq<Packet>)
    requires i < |s|
  {
    s[i := s[|s| - 1]][..|s| - 1]
  }

  lemma Regrouped(a: seq<Frame>, b: seq<Frame>, c: seq<Frame>)
    ensures a + b + c == a + (b + c)
  {
  }

  /** The packets sent and those still waiting are the ones there were. */
  ghost predicate Divided(sent: seq<Frame>, waiting: seq<Packet>, all: multiset<Packet>) {
    multiset(Packets(sent)) + multiset(waiting) == all
  }

  lemma DividedMore(sent: seq<Frame>, more: seq<Frame>, waiting: seq<Packet>, i: nat, gone: bool, all: multiset<Packet>)
    requires Divided(sent, waiting, all) && i < |waiting| && Packets(more) == if gone then [waiting[i]] else []
    ensures Divided(sent + more, if gone then SwapOut(waiting, i) else waiting, all)
  {
    PacketsMore(sent, more);
    SwappedOut(waiting, i);
  }

  lemma SwappedOut(s: seq<Packet>, i: nat)
    requires i < |s|
    ensures multiset(SwapOut(s, i)) + multiset{s[i]} == multiset(s)
  {
    var l := |s| - 1;
    if i == l {
      assert s == s[..l] + [s[l]] && s[i := s[l]][..l] == s[..l];
    } else {
      assert s == s[..i] + [s[i]] + s[i + 1..l] + [s[l]];
      assert s[i := s[l]][..l] == s[..i] + [s[l]] + s[i + 1..l];
    }
  }

  function Octets(ip: Address): (o: seq<Byte>)
    ensures |o| == 4
  {
    [ip / 0x100_0000, ip / 0x1_0000 % 256, ip / 256 % 256, ip % 256]
  }

  class Network {
    const ip: Address
    const gateway: Address
    const netmask: Address
    const cache: array<Slot>
    var pending: seq<Packet>
    var packetId: nat
    var frames: seq<Frame>

    /** Whether a packet is small enough for a frame; only such packets are ever queued. */
    predicate Fits(p: Packet) {
      IP_HEADER + |p.payload| <= MAX_PACKET
    }

    ghost predicate Valid()
      reads this, cache
    {
      && cache.Length == CACHE_SIZE && Sound(cache[..]) && packetId < SHORT
      && |pending| <= MAX_PENDING && forall p <- pending :: Fits(p)
    }

    constructor (ip: Address, gateway: Address, netmask: Address)
      ensures Valid() && Table(cache[..]) == map[] && pending == [] && frames == []
    {
      this.ip, this.gateway, this.netmask := ip, gateway, netmask;
      cache := new Slot[CACHE_SIZE](_ => Slot(0, [0, 0, 0, 0, 0, 0], 0));
      pending, packetId, frames := [], 0, [];
      new;
      AllFree(cache[..]);
    }

    lemma {:induction false} AllFree(slots: seq<Slot>)
      requires forall i :: 0 <= i < |slots| ==> slots[i].ip == 0
      ensures Table(slots) == map[]
    {
      if slots != [] {
        AllFree(slots[..|slots| - 1]);
      }
    }

    predicate Local(a: Address) {
      And(ip, netmask) == And(a, netmask)
    }

    /** With a mask of j ones and k zeros the local addresses are those with our first j bits. */
    lemma LocalIff(a: Address, j: nat, k: nat, net: nat, host: nat, q: nat, r: nat)
      requires netmask == (Pow2(j) - 1) * Pow2(k) && net < Pow2(j) && q < Pow2(j) && host < Pow2(k) && r < Pow2(k)
      requires ip == net * Pow2(k) + host && a == q * Pow2(k) + r
      ensures Local(a) <==> q == net
    {
      AndShifted(net, host, Pow2(j) - 1, k);
      AndShifted(q, r, Pow2(j) - 1, k);
      AndOnes(net, j);
      AndOnes(q, j);
      SameMultiple(net, q, Pow2(k));
    }

    lemma SameMultiple(a: nat, b: nat, d: nat)
      requires 0 < d
      ensures a * d == b * d <==> a == b
    {
      if a < b {
        assert b * d == a * d + (b - a) * d;
      } else if b < a {
        assert a * d == b * d + (a - b) * d;
      }
    }

    /** The address whose owner gets a packet for a: a itself, or the gateway. */
    function Target(a: Address): (r: Address) {
      if Local(a) then a else gateway
    }

    /** arp_cache_update: the table gets the entry unless it is full; address 0 is no entry. */
    method Update(a: Address, mac: seq<Byte>, now: nat)
      requires Valid()
      modifies cache
      ensures Valid()
      ensures a == 0 ==> Table(cache[..]) == old(Table(cache[..]))
      ensures a != 0 ==> Table(cache[..]) == (if a in old(Table(cache[..])) || |old(Table(cache[..]))| < CACHE_SIZE
        then old(Table(cache[..]))[a := Slot(a, mac, now)] else old(Table(cache[..])))
    {
      TableLaw(cache[..]);
      TableSize(cache[..]);
      var i := 0;
      while i < CACHE_SIZE
        invariant i <= CACHE_SIZE && forall j :: 0 <= j < i ==> cache[j].ip != a && cache[j].ip != 0
      {
        if cache[i].ip == a || cache[i].ip == 0 {
          if a == 0 {
            FreeSlotWritten(cache[..], i, Slot(a, mac, now));
          } else {
            UpdatedSound(cache[..], i, Slot(a, mac, now));
            UpdatedTable(cache[..], i, Slot(a, mac, now));
          }
          cache[i] := Slot(a, mac, now);
          assert cache[..] == old(cache[..])[i := Slot(a, mac, now)];
          return;
        }
        i := i + 1;
      }
    }

    /** What the cache knows about the owner of a packet for a. */
    function Resolved(a: Address, now: nat): (r: Option<seq<Byte>>)
      reads cache
    {
      Found(cache[..], Target(a), now)
    }

    predicate Unresolved(p: Packet, now: nat)
      reads cache
    {
      Resolved(p.dst, now) == None
    }

    /** arp_lookup. A failed lookup of the gateway asks for it. */
    method Lookup(a: Address, now: nat) returns (r: Option<seq<Byte>>)
      requires Valid()
      modifies `frames
      ensures r == Resolved(a, now)
      ensures frames == old(frames) + if r == None && Target(a) == gateway then [Request(gateway)] else []
    {
      var target := Target(a);
      var i := 0;
      while i < CACHE_SIZE
        invariant i <= CACHE_SIZE && Found(cache[i..], target, now) == Found(cache[..], target, now)
      {
        ghost var rest := cache[i..];
        assert rest[0] == cache[i] && rest[1..] == cache[i + 1..];
        if cache[i].ip == target && Fresh(cache[i], now) {
          return Some(cache[i].mac);
        }
        i := i + 1;
      }
      if target == gateway {
        frames := frames + [Request(gateway)];
      }
      r := None;
    }

    /** A local address that is in the table and fresh is found with its last stored entry. */
    lemma ResolvedInTable(a: Address, now: nat)
      requires Valid() && Target(a) != 0
      ensures var t := Table(cache[..]);
        Resolved(a, now) == if Target(a) in t && Fresh(t[Target(a)], now) then Some(t[Target(a)].mac) else None
    {
      FoundInTable(cache[..], Target(a), now);
    }

    /** An entry just stored is what a lookup of its owner finds for the next 30 seconds. */
    method StoreAndFind(a: Address, mac: seq<Byte>, now: nat, later: nat) returns (r: Option<seq<Byte>>)
      requires Valid() && a != 0 && Local(a) && (a in Table(cache[..]) || |Table(cache[..])| < CACHE_SIZE)
      modifies cache, `frames
      ensures Valid() && (r == Some(mac) <==> (later - now) % WORD < CACHE_TIMEOUT) && (r == None || r == Some(mac))
    {
      Update(a, mac, now);
      ResolvedInTable(a, later);
      r := Lookup(a, later);
    }

    method QueuePacket(p: Packet)
      requires Valid() && Fits(p)
      modifies `pending
      ensures Valid() && (pending == old(pending) || (|old(pending)| < MAX_PENDING && pending == old(pending) + [p]))
    {
      if |pending| < MAX_PENDING {
        var got: bool := *;
        if got {
          pending := pending + [p];
        }
      }
    }

    /** net_send_ipv4_packet: a packet that fits goes to its owner at once if the cache knows
        it, with a header whose checksum is zero; else it is queued, if there is room, and the
        owner asked for. The 16-bit total length must not run over. */
    method Send(p: Packet, now: nat)
      requires Valid() && IP_HEADER + |p.payload| < SHORT
      modifies `pending, `packetId, `frames
      ensures Valid()
      ensures !Fits(p) ==> frames == old(frames) && pending == old(pending)
      ensures Fits(p) && Resolved(p.dst, now).Some? ==>
        && pending == old(pending) && |frames| == |old(frames)| + 1 && frames[..|old(frames)|] == old(frames)
        && (var f := frames[|old(frames)|];
          && f.Ip? && f.packet == p && f.mac == Resolved(p.dst, now).value && OnesSum(f.header) == ONES
          && Fields(f.header, IP_HEADER + |p.payload|, old(packetId), p.protocol, Octets(ip), Octets(p.dst)))
        && packetId == (old(packetId) + 1) % SHORT
      ensures Fits(p) && Resolved(p.dst, now) == None ==>
        && frames ==
          old(frames) + (if Target(p.dst) == gateway then [Request(gateway)] else []) + [Request(Target(p.dst))]
        && (pending == old(pending) || (|old(pending)| < MAX_PENDING && pending == old(pending) + [p]))
    {
      var total := (IP_HEADER + |p.payload|) % SHORT;
      if total > MAX_PACKET {
        return;
      }
      var nextHop := if Local(p.dst) then p.dst else gateway;
      var mac := Lookup(nextHop, now);
      if mac == None {
        QueuePacket(p);
        frames := frames + [Request(nextHop)];
        return;
      }
      var header := FilledHeader(total, packetId, p.protocol, Octets(ip), Octets(p.dst));
      packetId := (packetId + 1) % SHORT;
      frames := frames + [Ip(mac.value, header, p)];
    }

    /** One packet of the queue whose owner is known: it goes out and its place is filled
        from the end. */
    method SendPending(i: nat, now: nat)
      requires Valid() && i < |pending| && Resolved(pending[i].dst, now).Some?
      modifies `pending, `packetId, `frames
      ensures Valid() && pending == SwapOut(old(pending), i)
      ensures |frames| == |old(frames)| + 1 && frames[..|old(frames)|] == old(frames)
      ensures var f := frames[|old(frames)|];
        f.Ip? && f.packet == old(pending)[i] && Resolved(f.packet.dst, now) == Some(f.mac)
    {
      assert pending[i] in pending;
      Send(pending[i], now);
      pending := pending[i := pending[|pending| - 1]][..|pending| - 1];
      assert forall p <- pending :: p in old(pending);
    }

    /** The first n packets of the queue have to wait. */
    ghost predicate Passed(n: nat, now: nat)
      reads this, cache
    {
      n <= |pending| && forall j :: 0 <= j < n ==> Unresolved(pending[j], now)
    }

    /** One round of the retry loop. */
    method RetryOne(i: nat, now: nat) returns (gone: bool, ghost fs: seq<Frame>)
      requires Valid() && i < |pending| && Passed(i, now)
      modifies `pending, `packetId, `frames
      ensures Valid() && frames == old(frames) + fs && Passed(if gone then i else i + 1, now)
      ensures pending == if gone then SwapOut(old(pending), i) else old(pending)
      ensures Packets(fs) == if gone then [old(pending)[i]] else []
      ensures forall f <- fs :: f.Ip? ==> Resolved(f.packet.dst, now) == Some(f.mac)
    {
      var mac := Lookup(pending[i].dst, now);
      gone := mac != None;
      if gone {
        SendPending(i, now);
        fs := [frames[|frames| - 1]];
        assert fs[..0] == [] && Packets([]) == [];
        assert forall j :: 0 <= j < i ==> pending[j] == old(pending)[j];
      } else {
        fs := if Target(pending[i].dst) == gateway then [Request(gateway)] else [];
        assert Packets([Request(gateway)][..0]) == [];
      }
    }

    /** retry_pending_packets at one tick: it ends, no packet is lost or doubled, those sent are
        the ones whose owner the cache knows, and the others stay. */
    method Retry(now: nat) returns (ghost more: seq<Frame>)
      requires Valid()
      modifies `pending, `packetId, `frames
      ensures Valid() && frames == old(frames) + more
      ensures multiset(Packets(more)) + multiset(pending) == multiset(old(pending))
      ensures forall p <- pending :: Unresolved(p, now)
      ensures forall f <- more :: f.Ip? ==> Resolved(f.packet.dst, now) == Some(f.mac)
    {
      more := [];
      ghost var all := multiset(pending);
      var i := 0;
      while i < |pending|
        invariant Valid() && Passed(i, now) && frames == old(frames) + more
        invariant Divided(more, pending, all)
        invariant forall f <- more :: f.Ip? ==> Resolved(f.packet.dst, now) == Some(f.mac)
        decreases |pending| - i
      {
        ghost var before, fs := pending, [];
        var gone;
        gone, fs := RetryOne(i, now);
        DividedMore(more, fs, before, i, gone, all);
        Regrouped(old(frames), more, fs);
        more := more + fs;
        i := if gone then i else i + 1;
      }
    }
  }
}
