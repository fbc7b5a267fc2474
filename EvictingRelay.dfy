/** The complete relay variant: a registry of clients with last-heard
    timestamps, refreshed by every datagram, and an eviction sweep plus
    fan-out run for every full frame. */
module EvictingRelay {
  import opened Frame
  import opened Net
  import opened Growth

  /** Seconds of silence after which a sweep evicts a client. */
  const TIMEOUT_SEC: int := 10

  /** One registry slot: the address (None once the slot is tombstoned), the
      address length, the descriptor replies go out on, and the time the
      client was last heard of. */
  datatype Client = Client(addr: Option<Addr>, size: nat, desc: int, heard: int)

  /** What one datagram does: the registry afterwards and the sends, in order. */
  datatype Outcome = Outcome(clients: seq<Client>, sends: seq<Send>)

  /** A received datagram with the clock reading at its arrival. */
  datatype Event = Event(dg: Datagram, now: int)

  // ---------------------------------------------------------------------
  // Specification of one datagram's processing
  // ---------------------------------------------------------------------

  /** A slot answers to `a` when it is live and holds an equal address. */
  predicate Matches(c: Client, a: Addr)
  {
    c.addr.Some? && SockaddrEqual(a, c.addr.value)
  }

  /** The first slot at or after `i` that answers to `a`, or -1. */
  function LookupFrom(cs: seq<Client>, a: Addr, i: nat): (r: int)
    requires i <= |cs|
    ensures r == -1 || i <= r < |cs|
    ensures r == -1 ==> forall k :: i <= k < |cs| ==> !Matches(cs[k], a)
    ensures r != -1 ==> Matches(cs[r], a) && forall k :: i <= k < r ==> !Matches(cs[k], a)
    decreases |cs| - i
  {
    if i == |cs| then -1
    else if Matches(cs[i], a) then i
    else LookupFrom(cs, a, i + 1)
  }

  /** The least index of a live slot holding `a`, or -1 when there is none. */
  function Lookup(cs: seq<Client>, a: Addr): (r: int)
    ensures -1 <= r < |cs|
    ensures r == -1 <==> forall k :: 0 <= k < |cs| ==> !Matches(cs[k], a)
    ensures r != -1 ==> Matches(cs[r], a) && forall k :: 0 <= k < r ==> !Matches(cs[k], a)
  {
    LookupFrom(cs, a, 0)
  }

  /** Registering the sender: refresh its slot, or append a new one. */
  function Register(cs: seq<Client>, dg: Datagram, now: int): (r: seq<Client>)
    ensures |r| == if Lookup(cs, dg.from) == -1 then |cs| + 1 else |cs|
  {
    var cid := Lookup(cs, dg.from);
    if cid == -1 then cs + [Client(Some(dg.from), dg.fromLen, dg.desc, now)]
    else cs[cid := cs[cid].(heard := now)]
  }

  /** A client silent for more than TIMEOUT_SEC at time `now`. */
  predicate Expired(c: Client, now: int)
  {
    now - c.heard > TIMEOUT_SEC
  }

  /** A slot after the sweep has visited it. */
  function SweepSlot(c: Client, now: int): (r: Client)
    ensures r == c || r == c.(addr := None)
  {
    if Expired(c, now) then c.(addr := None) else c
  }

  /** The registry after a sweep at time `now`. */
  function Swept(cs: seq<Client>, now: int): (r: seq<Client>)
    ensures |r| == |cs|
  {
    seq(|cs|, i requires 0 <= i < |cs| => SweepSlot(cs[i], now))
  }

  /** The indices a sweep at `now` sends to, in the order it visits them. */
  function Served(cs: seq<Client>, now: int): (r: seq<nat>)
    ensures forall k :: 0 <= k < |r| ==> r[k] < |cs|
    decreases |cs|
  {
    if cs == [] then []
    else
      var prefix := Served(cs[..|cs| - 1], now);
      if Expired(cs[|cs| - 1], now) then prefix else prefix + [|cs| - 1]
  }

  /** The sendto call the sweep makes for slot `c`. */
  function SendTo(c: Client, data: seq<byte>): Send
  {
    Send(c.desc, c.addr, c.size, data)
  }

  /** The sends to the slots at `idx`, in that order. */
  function Deliver(cs: seq<Client>, idx: seq<nat>, data: seq<byte>): (r: seq<Send>)
    requires forall k :: 0 <= k < |idx| ==> idx[k] < |cs|
    ensures |r| == |idx|
  {
    seq(|idx|, k requires 0 <= k < |idx| => SendTo(cs[idx[k]], data))
  }

  /** One received datagram: register or refresh the sender, then, for a full
      frame only, sweep the whole registry, sending to each slot it keeps. */
  function Relay(cs: seq<Client>, dg: Datagram, now: int): (r: Outcome)
    ensures |cs| <= |r.clients| <= |cs| + 1
  {
    var cs1 := Register(cs, dg, now);
    match Classify(|dg.data|)
    case Payload => Outcome(Swept(cs1, now), Deliver(cs1, Served(cs1, now), dg.data))
    case Heartbeat => Outcome(cs1, [])
  }

  /** A run of datagrams from registry `cs`: the final registry and every send. */
  function Run(cs: seq<Client>, evs: seq<Event>): Outcome
    decreases |evs|
  {
    if evs == [] then Outcome(cs, [])
    else
      var n := |evs| - 1;
      var prev := Run(cs, evs[..n]);
      var last := Relay(prev.clients, evs[n].dg, evs[n].now);
      Outcome(last.clients, prev.sends + last.sends)
  }

  // ---------------------------------------------------------------------
  // The registry as the server keeps it: parallel arrays
  // ---------------------------------------------------------------------

  class Registry {
    var capacity: nat
    var count: nat
    var tab: array<Option<Addr>>
    var sizes: array<nat>
    var descs: array<int>
    var heard: array<int>

    /** The slots 0 .. count-1 as records. */
    ghost var Clients: seq<Client>

    /** The arrays have `capacity` slots and the first `count` hold Clients. */
    ghost predicate Stored()
      reads this, tab, sizes, descs, heard
    {
      && tab.Length == capacity && sizes.Length == capacity
      && descs.Length == capacity && heard.Length == capacity
      && descs != heard
      && count <= capacity
      && |Clients| == count
      && forall i :: 0 <= i < count ==> Clients[i] == Client(tab[i], sizes[i], descs[i], heard[i])
    }

    /** Between datagrams the capacity is also the one the growth rule gives. */
    ghost predicate Valid()
      reads this, tab, sizes, descs, heard
    {
      Stored() && capacity == CapacityFor(count)
    }

    /** The empty registry the server starts with: no arrays yet. */
    constructor ()
      ensures Valid() && fresh(tab) && fresh(sizes) && fresh(descs) && fresh(heard)
      ensures Clients == [] && capacity == 0
    {
      capacity, count := 0, 0;
      tab := new Option<Addr>[0];
      sizes := new nat[0];
      descs := new int[0];
      heard := new int[0];
      Clients := [];
    }

    /** The reallocation at the head of addClient: when every slot is taken,
        the four arrays are replaced by copies of twice the size (of
        INIT_CLIENTS the first time); no slot changes. */
    method Grow()
      requires Stored()
      modifies this`capacity, this`tab, this`sizes, this`descs, this`heard
      ensures Stored() && Clients == old(Clients) && count < capacity
      ensures capacity == Grown(old(capacity), count)
      ensures tab == old(tab) || fresh(tab)
      ensures sizes == old(sizes) || fresh(sizes)
      ensures descs == old(descs) || fresh(descs)
      ensures heard == old(heard) || fresh(heard)
    {
      if count >= capacity {
        var newCap := if capacity > 0 then 2 * capacity else INIT_CLIENTS;
        var t := Realloc(tab, newCap);
        var z := Realloc(sizes, newCap);
        var d := Realloc(descs, newCap);
        var h := Realloc(heard, newCap);
        tab, sizes, descs, heard, capacity := t, z, d, h, newCap;
      }
    }

    /** The stores at the tail of addClient: slot `count` receives the new
        client and `count` moves past it. */
    method Fill(a: Addr, size: nat, desc: int, now: int)
      requires Stored() && count < capacity
      modifies this`count, this`Clients, tab, sizes, descs, heard
      ensures Stored()
      ensures Clients == old(Clients) + [Client(Some(a), size, desc, now)]
      ensures count == old(count) + 1
    {
      tab[count] := Some(a);
      sizes[count] := size;
      descs[count] := desc;
      heard[count] := now;
      count := count + 1;
      Clients := Clients + [Client(Some(a), size, desc, now)];
    }

    /** addClient: grow the arrays when full, then fill slot `count`. */
    method AddClient(a: Addr, size: nat, desc: int, now: int)
      requires Valid()
      modifies this, tab, sizes, descs, heard
      ensures Valid()
      ensures Clients == old(Clients) + [Client(Some(a), size, desc, now)]
      ensures count == old(count) + 1
      ensures capacity == Grown(old(capacity), old(count))
      ensures tab == old(tab) || fresh(tab)
      ensures sizes == old(sizes) || fresh(sizes)
      ensures descs == old(descs) || fresh(descs)
      ensures heard == old(heard) || fresh(heard)
    {
      GrowthRule(count);
      Grow();
      Fill(a, size, desc, now);
    }

    /** clientPresent: the least live slot holding `a`, or -1. */
    method ClientPresent(a: Addr) returns (cid: int)
      requires Stored()
      ensures cid == Lookup(Clients, a)
    {
      var i := 0;
      while i < count
        invariant 0 <= i <= count
        invariant LookupFrom(Clients, a, i) == Lookup(Clients, a)
      {
        if tab[i] != None && SockaddrEqual(a, tab[i].value) {
          return i;
        }
        i := i + 1;
      }
      return -1;
    }

    /** The sweep over every slot for one full frame: evict the expired,
        send `data` to every other slot, in index order. */
    method Sweep(data: seq<byte>, now: int) returns (sends: seq<Send>)
      requires Stored()
      modifies this`Clients, tab
      ensures Stored()
      ensures Clients == Swept(old(Clients), now)
      ensures sends == Deliver(old(Clients), Served(old(Clients), now), data)
      ensures count == old(count) && capacity == old(capacity)
    {
      ghost var cs0 := Clients;
      sends := [];
      var j := 0;
      while j < count
        invariant 0 <= j <= count
        invariant forall i :: 0 <= i < count ==> tab[i] == (if i < j then SweepSlot(cs0[i], now) else cs0[i]).addr
        invariant sends == Deliver(cs0, Served(cs0[..j], now), data)
      {
        ServedStep(cs0, j, now);
        DeliverSnoc(cs0, Served(cs0[..j], now), j, data);
        if now - heard[j] > TIMEOUT_SEC {
          tab[j] := None;
        } else {
          sends := sends + [Send(descs[j], tab[j], sizes[j], data)];
        }
        j := j + 1;
      }
      assert cs0[..count] == cs0;
      Clients := Swept(cs0, now);
    }

    /** The loop body of the server for one received datagram. */
    method HandleDatagram(dg: Datagram, now: int) returns (sends: seq<Send>)
      requires Valid()
      modifies this, tab, sizes, descs, heard
      ensures Valid()
      ensures Clients == Relay(old(Clients), dg, now).clients
      ensures sends == Relay(old(Clients), dg, now).sends
      ensures tab == old(tab) || fresh(tab)
      ensures sizes == old(sizes) || fresh(sizes)
      ensures descs == old(descs) || fresh(descs)
      ensures heard == old(heard) || fresh(heard)
    {
      var cid := ClientPresent(dg.from);
      if cid == -1 {
        AddClient(dg.from, dg.fromLen, dg.desc, now);
      } else {
        heard[cid] := now;
        Clients := Clients[cid := Clients[cid].(heard := now)];
      }
      assert Clients == Register(old(Clients), dg, now);
      if Classify(|dg.data|) == Payload {
        sends := Sweep(dg.data, now);
      } else {
        sends := [];
      }
    }

    /** The server's receive loop: each datagram, with the clock reading at
        its arrival, is handled in turn and its sends are appended. */
    method Serve(evs: seq<Event>) returns (sends: seq<Send>)
      requires Valid()
      modifies this, tab, sizes, descs, heard
      ensures Valid()
      ensures Clients == Run(old(Clients), evs).clients
      ensures sends == Run(old(Clients), evs).sends
    {
      ghost var cs0 := Clients;
      sends := [];
      var i := 0;
      while i < |evs|
        invariant 0 <= i <= |evs|
        invariant Valid()
        invariant tab == old(tab) || fresh(tab)
        invariant sizes == old(sizes) || fresh(sizes)
        invariant descs == old(descs) || fresh(descs)
        invariant heard == old(heard) || fresh(heard)
        invariant Outcome(Clients, sends) == Run(cs0, evs[..i])
      {
        ghost var step := Relay(Clients, evs[i].dg, evs[i].now);
        RunSnoc(cs0, evs, i);
        var out := HandleDatagram(evs[i].dg, evs[i].now);
        assert Outcome(Clients, out) == step;
        sends := sends + out;
        i := i + 1;
      }
      assert evs[..|evs|] == evs;
    }
  }

  // ---------------------------------------------------------------------
  // Helper facts for the loops
  // ---------------------------------------------------------------------

  /** A run one datagram longer is the shorter run followed by that datagram. */
  lemma RunSnoc(cs: seq<Client>, evs: seq<Event>, i: nat)
    requires i < |evs|
    ensures Run(cs, evs[..i + 1]).clients
         == Relay(Run(cs, evs[..i]).clients, evs[i].dg, evs[i].now).clients
    ensures Run(cs, evs[..i + 1]).sends
         == Run(cs, evs[..i]).sends + Relay(Run(cs, evs[..i]).clients, evs[i].dg, evs[i].now).sends
  {
    assert evs[..i + 1][..i] == evs[..i];
  }

  lemma ServedStep(cs: seq<Client>, j: nat, now: int)
    requires j < |cs|
    ensures Served(cs[..j + 1], now)
         == Served(cs[..j], now) + (if Expired(cs[j], now) then [] else [j])
  {
    assert cs[..j + 1][..j] == cs[..j];
  }

  lemma DeliverSnoc(cs: seq<Client>, idx: seq<nat>, j: nat, data: seq<byte>)
    requires forall k :: 0 <= k < |idx| ==> idx[k] < |cs|
    requires j < |cs|
    ensures Deliver(cs, idx + [j], data) == Deliver(cs, idx, data) + [SendTo(cs[j], data)]
  {
  }

  // ---------------------------------------------------------------------
  // Registration
  // ---------------------------------------------------------------------

  /** Lookup answers `i` exactly when slot i is the first to hold `a`. */
  lemma LookupIs(cs: seq<Client>, a: Addr, i: nat)
    requires i < |cs| && Matches(cs[i], a)
    requires forall k :: 0 <= k < i ==> !Matches(cs[k], a)
    ensures Lookup(cs, a) == i
  {
  }

  /** After registering, the sender resolves to its old slot, refreshed, or to
      a new last slot; every other slot is as it was. */
  lemma RegisterResolves(cs: seq<Client>, dg: Datagram, now: int)
    ensures var cs' := Register(cs, dg, now); var i := Lookup(cs, dg.from);
      && |cs'| == (if i == -1 then |cs| + 1 else |cs|)
      && Lookup(cs', dg.from) == (if i == -1 then |cs| else i)
      && cs'[Lookup(cs', dg.from)].heard == now
      && (forall j :: 0 <= j < |cs| && j != i ==> cs'[j] == cs[j])
      && (i != -1 ==> cs'[i] == cs[i].(heard := now))
      && (i == -1 ==> cs'[|cs|] == Client(Some(dg.from), dg.fromLen, dg.desc, now))
  {
    var cs' := Register(cs, dg, now);
    var i := Lookup(cs, dg.from);
    if i == -1 {
      LookupIs(cs', dg.from, |cs|);
    } else {
      LookupIs(cs', dg.from, i);
    }
  }

  /** A second datagram from the same address lands in the same slot and
      adds none: registration is idempotent. */
  lemma RegisterTwice(cs: seq<Client>, dg1: Datagram, t1: int, dg2: Datagram, t2: int)
    requires dg2.from == dg1.from
    ensures var cs1 := Register(cs, dg1, t1); var cs2 := Register(cs1, dg2, t2);
      && |cs2| == |cs1|
      && Lookup(cs2, dg2.from) == Lookup(cs1, dg1.from)
      && cs2 == cs1[Lookup(cs1, dg1.from) := cs1[Lookup(cs1, dg1.from)].(heard := t2)]
  {
    RegisterResolves(cs, dg1, t1);
    RegisterResolves(Register(cs, dg1, t1), dg2, t2);
  }

  // ---------------------------------------------------------------------
  // Classification, sweep and fan-out
  // ---------------------------------------------------------------------

  /** A datagram that is not a full frame refreshes or adds its sender and
      does nothing else: no send, no eviction. */
  lemma HeartbeatOnlyRegisters(cs: seq<Client>, dg: Datagram, now: int)
    requires |dg.data| != FRAME
    ensures Relay(cs, dg, now).sends == []
    ensures Relay(cs, dg, now).clients == Register(cs, dg, now)
    ensures forall j :: 0 <= j < |cs| ==> Relay(cs, dg, now).clients[j].addr == cs[j].addr
  {
    RegisterResolves(cs, dg, now);
  }

  /** The sweep serves slot j exactly when j was heard of at most TIMEOUT_SEC
      ago (so a client exactly TIMEOUT_SEC old is still served), each such
      slot once, in increasing index order. */
  lemma {:induction false} ServedExactly(cs: seq<Client>, now: int)
    ensures forall j :: j in Served(cs, now) <==> 0 <= j < |cs| && now - cs[j].heard <= TIMEOUT_SEC
    ensures forall k1, k2 :: 0 <= k1 < k2 < |Served(cs, now)| ==> Served(cs, now)[k1] < Served(cs, now)[k2]
    decreases |cs|
  {
    if cs != [] {
      var init := cs[..|cs| - 1];
      ServedExactly(init, now);
      forall j
        ensures j in Served(cs, now) <==> 0 <= j < |cs| && now - cs[j].heard <= TIMEOUT_SEC
      {
        if 0 <= j < |cs| - 1 {
          assert cs[j] == init[j];
        }
      }
    }
  }

  /** The sweep tombstones exactly the expired slots and changes nothing else. */
  lemma SweptEvictsExpired(cs: seq<Client>, now: int)
    ensures |Swept(cs, now)| == |cs|
    ensures forall j :: 0 <= j < |cs| ==>
      && Swept(cs, now)[j].addr == (if now - cs[j].heard > TIMEOUT_SEC then None else cs[j].addr)
      && Swept(cs, now)[j].size == cs[j].size
      && Swept(cs, now)[j].desc == cs[j].desc
      && Swept(cs, now)[j].heard == cs[j].heard
  {
  }

  /** Echo: a full frame goes back to its own sender, whose slot survives the
      sweep it triggers. */
  lemma SenderEchoed(cs: seq<Client>, dg: Datagram, now: int)
    requires |dg.data| == FRAME
    ensures var out := Relay(cs, dg, now);
      && Lookup(out.clients, dg.from) == Lookup(Register(cs, dg, now), dg.from)
      && exists k :: 0 <= k < |out.sends| && out.sends[k].to == Some(dg.from) && out.sends[k].data == dg.data
  {
    var cs1 := Register(cs, dg, now);
    RegisterResolves(cs, dg, now);
    SweepServesFresh(cs1, dg.from, Lookup(cs1, dg.from), now, dg.data);
  }

  /** A sweep at `now` serves the first slot holding `a` when that slot was
      heard of at `now`, and leaves it the first slot holding `a`. */
  lemma SweepServesFresh(cs: seq<Client>, a: Addr, i: nat, now: int, data: seq<byte>)
    requires i < |cs| && Lookup(cs, a) == i && cs[i].heard == now
    ensures Lookup(Swept(cs, now), a) == i
    ensures exists k :: (0 <= k < |Served(cs, now)|
      && Deliver(cs, Served(cs, now), data)[k].to == Some(a) && Deliver(cs, Served(cs, now), data)[k].data == data)
  {
    ServedExactly(cs, now);
    var idx := Served(cs, now);
    assert i in idx;
    var k :| 0 <= k < |idx| && idx[k] == i;
    assert Deliver(cs, idx, data)[k] == SendTo(cs[i], data);
    var sw := Swept(cs, now);
    assert sw[i] == cs[i];
    LookupIs(sw, a, i);
  }

  /** What arrives on the wire decides what happens: once the receive has
      cut a datagram to the buffer, it is sent on exactly when it was at least
      a frame long. */
  lemma WireDecidesRelay(cs: seq<Client>, from: Addr, fromLen: nat, desc: int, wire: seq<byte>, now: int)
    ensures var dg := Datagram(from, fromLen, desc, Received(wire));
      Relay(cs, dg, now).sends != [] <==> |wire| >= FRAME
  {
    var dg := Datagram(from, fromLen, desc, Received(wire));
    OversizeIsPayload(wire);
    if |wire| >= FRAME {
      SenderEchoed(cs, dg, now);
    } else {
      HeartbeatOnlyRegisters(cs, dg, now);
    }
  }

  // ---------------------------------------------------------------------
  // What holds across datagrams
  // ---------------------------------------------------------------------

  /** Slots are never removed or moved, and a slot's address is either kept or
      tombstoned; a tombstone stays one. */
  predicate SlotsStable(cs: seq<Client>, cs': seq<Client>)
  {
    && |cs| <= |cs'|
    && forall j :: 0 <= j < |cs| ==>
      && cs'[j].size == cs[j].size && cs'[j].desc == cs[j].desc
      && (cs'[j].addr == cs[j].addr || cs'[j].addr == None)
  }

  lemma SlotsStableTransitive(a: seq<Client>, b: seq<Client>, c: seq<Client>)
    requires SlotsStable(a, b) && SlotsStable(b, c)
    ensures SlotsStable(a, c)
  {
  }

  lemma RegisterKeepsSlots(cs: seq<Client>, dg: Datagram, now: int)
    ensures SlotsStable(cs, Register(cs, dg, now))
  {
    RegisterResolves(cs, dg, now);
  }

  lemma RelayKeepsSlots(cs: seq<Client>, dg: Datagram, now: int)
    ensures SlotsStable(cs, Relay(cs, dg, now).clients)
  {
    var cs1 := Register(cs, dg, now);
    RegisterKeepsSlots(cs, dg, now);
    assert SlotsStable(cs1, Swept(cs1, now));
    SlotsStableTransitive(cs, cs1, Relay(cs, dg, now).clients);
  }

  /** Over any run the registry only grows, by appending: count never drops,
      indices are stable and tombstones are never reused. */
  lemma {:induction false} RunKeepsSlots(cs: seq<Client>, evs: seq<Event>)
    ensures SlotsStable(cs, Run(cs, evs).clients)
    decreases |evs|
  {
    if evs != [] {
      var n := |evs| - 1;
      var prev := Run(cs, evs[..n]);
      RunKeepsSlots(cs, evs[..n]);
      RelayKeepsSlots(prev.clients, evs[n].dg, evs[n].now);
      SlotsStableTransitive(cs, prev.clients, Run(cs, evs).clients);
    }
  }

  /** No two live slots hold the same address. */
  predicate Unique(cs: seq<Client>)
  {
    forall i, j :: 0 <= i < |cs| && 0 <= j < |cs| && cs[i].addr.Some? && cs[i].addr == cs[j].addr ==> i == j
  }

  /** In such a registry the live slot holding an address is the one Lookup
      finds: datagrams from one address always resolve to one record. */
  lemma UniqueLookup(cs: seq<Client>, a: Addr, j: nat)
    requires Unique(cs) && j < |cs| && cs[j].addr == Some(a)
    ensures Lookup(cs, a) == j
  {
    LookupIs(cs, a, j);
  }

  lemma RegisterKeepsUnique(cs: seq<Client>, dg: Datagram, now: int)
    requires Unique(cs)
    ensures Unique(Register(cs, dg, now))
  {
    RegisterResolves(cs, dg, now);
  }

  lemma RelayKeepsUnique(cs: seq<Client>, dg: Datagram, now: int)
    requires Unique(cs)
    ensures Unique(Relay(cs, dg, now).clients)
  {
    var cs1 := Register(cs, dg, now);
    RegisterKeepsUnique(cs, dg, now);
    assert Unique(Swept(cs1, now));
  }

  lemma {:induction false} RunKeepsUnique(cs: seq<Client>, evs: seq<Event>)
    requires Unique(cs)
    ensures Unique(Run(cs, evs).clients)
    decreases |evs|
  {
    if evs != [] {
      var n := |evs| - 1;
      RunKeepsUnique(cs, evs[..n]);
      RelayKeepsUnique(Run(cs, evs[..n]).clients, evs[n].dg, evs[n].now);
    }
  }

  /** Every tombstone belongs to a client that is expired at time t. */
  predicate StaleTombstones(cs: seq<Client>, t: int)
  {
    forall j :: 0 <= j < |cs| && cs[j].addr == None ==> t - cs[j].heard > TIMEOUT_SEC
  }

  lemma RegisterKeepsStale(cs: seq<Client>, dg: Datagram, t: int, now: int)
    requires StaleTombstones(cs, t) && t <= now
    ensures StaleTombstones(Register(cs, dg, now), now)
  {
    RegisterResolves(cs, dg, now);
  }

  /** When every tombstone is expired, a sweep sends to live addresses only,
      and the tombstones it leaves are expired too. */
  lemma SweepAvoidsTombstones(cs: seq<Client>, now: int, data: seq<byte>)
    requires StaleTombstones(cs, now)
    ensures StaleTombstones(Swept(cs, now), now)
    ensures forall k :: 0 <= k < |Served(cs, now)| ==> Deliver(cs, Served(cs, now), data)[k].to.Some?
  {
    ServedExactly(cs, now);
    var idx := Served(cs, now);
    forall k | 0 <= k < |idx|
      ensures cs[idx[k]].addr.Some?
    {
      assert idx[k] in idx;
    }
  }

  /** One datagram no earlier than t: the tombstones stay expired, and no send
      goes to a tombstone (a NULL address). */
  lemma RelayNeverSendsToTombstone(cs: seq<Client>, dg: Datagram, t: int, now: int)
    requires StaleTombstones(cs, t) && t <= now
    ensures StaleTombstones(Relay(cs, dg, now).clients, now)
    ensures forall k :: 0 <= k < |Relay(cs, dg, now).sends| ==> Relay(cs, dg, now).sends[k].to.Some?
  {
    RegisterKeepsStale(cs, dg, t, now);
    SweepAvoidsTombstones(Register(cs, dg, now), now, dg.data);
  }

  /** The clock readings of a run never go back, and start no earlier than t. */
  predicate Chronological(evs: seq<Event>, t: int)
  {
    && (|evs| > 0 ==> t <= evs[0].now)
    && (forall k :: 0 < k < |evs| ==> evs[k - 1].now <= evs[k].now)
  }

  lemma {:induction false} RunNeverSendsToTombstone(cs: seq<Client>, t: int, evs: seq<Event>)
    requires StaleTombstones(cs, t) && Chronological(evs, t)
    ensures forall k :: 0 <= k < |Run(cs, evs).sends| ==> Run(cs, evs).sends[k].to.Some?
    ensures StaleTombstones(Run(cs, evs).clients, if evs == [] then t else evs[|evs| - 1].now)
    decreases |evs|
  {
    if evs != [] {
      var n := |evs| - 1;
      var prev := Run(cs, evs[..n]);
      assert Chronological(evs[..n], t);
      RunNeverSendsToTombstone(cs, t, evs[..n]);
      var t' := if n == 0 then t else evs[n - 1].now;
      RelayNeverSendsToTombstone(prev.clients, evs[n].dg, t', evs[n].now);
    }
  }

  /** From the empty registry the server starts with, a clock that never goes
      back means no sendto is ever given a tombstoned (NULL) address. */
  lemma MonotoneClockNeverSendsToTombstone(evs: seq<Event>)
    requires forall k :: 0 < k < |evs| ==> evs[k - 1].now <= evs[k].now
    ensures forall k :: 0 <= k < |Run([], evs).sends| ==> Run([], evs).sends[k].to.Some?
  {
    if evs != [] {
      RunNeverSendsToTombstone([], evs[0].now, evs);
    }
  }

  /** Without that premise the sweep does send to a tombstone. Client x is
      heard of at time 0; a full frame from y at time 100 evicts x; then the
      clock steps back to 0 and a second frame from y serves x's tombstoned
      slot, because the sweep visits tombstoned slots too. */
  lemma ClockStepBackSendsToTombstone(x: Addr, y: Addr, frame: seq<byte>)
    requires x != y && |frame| == FRAME
    ensures var evs := [Event(Datagram(x, 16, 3, []), 0), Event(Datagram(y, 16, 3, frame), 100),
                        Event(Datagram(y, 16, 3, frame), 0)];
      |Run([], evs).sends| == 3 && Run([], evs).sends[1].to == None
  {
    var e0 := Event(Datagram(x, 16, 3, []), 0);
    var e1 := Event(Datagram(y, 16, 3, frame), 100);
    var e2 := Event(Datagram(y, 16, 3, frame), 0);
    var evs := [e0, e1, e2];
    var cx := Client(Some(x), 16, 3, 0);
    var cs2 := [cx.(addr := None), Client(Some(y), 16, 3, 100)];
    StepBackFirst(x);
    StepBackSecond(x, y, frame);
    StepBackThird(x, y, frame);
    assert [e0][..0] == [];
    assert Run([], [e0]) == Outcome([cx], []);
    assert [e0, e1][..1] == [e0];
    assert Run([], [e0, e1]) == Outcome(cs2, [SendTo(Client(Some(y), 16, 3, 100), frame)]);
    assert evs[..2] == [e0, e1];
    assert Run([], evs).sends == [SendTo(Client(Some(y), 16, 3, 100), frame)] + Relay(cs2, e2.dg, 0).sends;
  }

  lemma StepBackFirst(x: Addr)
    ensures Relay([], Datagram(x, 16, 3, []), 0) == Outcome([Client(Some(x), 16, 3, 0)], [])
  {
    assert Lookup([], x) == -1;
  }

  lemma StepBackSecond(x: Addr, y: Addr, frame: seq<byte>)
    requires x != y && |frame| == FRAME
    ensures var cy := Client(Some(y), 16, 3, 100);
      Relay([Client(Some(x), 16, 3, 0)], Datagram(y, 16, 3, frame), 100)
        == Outcome([Client(None, 16, 3, 0), cy], [SendTo(cy, frame)])
  {
    var cx := Client(Some(x), 16, 3, 0);
    var cs1 := [cx, Client(Some(y), 16, 3, 100)];
    assert Lookup([cx], y) == -1;
    assert Register([cx], Datagram(y, 16, 3, frame), 100) == cs1;
    assert cs1[..1] == [cx] && [cx][..0] == [];
    assert Served([cx], 100) == [];
    assert Served(cs1, 100) == [1];
  }

  lemma StepBackThird(x: Addr, y: Addr, frame: seq<byte>)
    requires |frame| == FRAME
    ensures var cs2 := [Client(None, 16, 3, 0), Client(Some(y), 16, 3, 100)];
      var out := Relay(cs2, Datagram(y, 16, 3, frame), 0);
      |out.sends| == 2 && out.sends[0].to == None
  {
    var cs2 := [Client(None, 16, 3, 0), Client(Some(y), 16, 3, 100)];
    var cs3 := [Client(None, 16, 3, 0), Client(Some(y), 16, 3, 0)];
    LookupIs(cs2, y, 1);
    assert Register(cs2, Datagram(y, 16, 3, frame), 0) == cs3;
    assert cs3[..1] == [cs3[0]] && [cs3[0]][..0] == [];
    assert Served([cs3[0]], 0) == [0];
    assert Served(cs3, 0) == [0, 1];
  }
}
