/** The earlier relay variant: a registry with no timestamps and no eviction.
    Every datagram, whatever its length, registers its sender if absent and
    is then sent back out to every registered client. */
module PlainRelay {
  import opened Frame
  import opened Net
  import opened Growth

  /** One registry slot: the address, the address length, and the descriptor
      replies go out on. */
  datatype Peer = Peer(addr: Addr, size: nat, desc: int)

  /** What one datagram does: the registry afterwards and the sends, in order. */
  datatype Outcome = Outcome(clients: seq<Peer>, sends: seq<Send>)

  // ---------------------------------------------------------------------
  // The behaviour, on values
  // ---------------------------------------------------------------------

  /** Some slot holds an address equal to `a`. */
  predicate Known(ps: seq<Peer>, a: Addr)
  {
    exists i :: 0 <= i < |ps| && ps[i].addr == a
  }

  /** Register-if-absent: an unknown sender is appended, a known one changes
      nothing. */
  function Register(ps: seq<Peer>, dg: Datagram): (r: seq<Peer>)
    ensures ps <= r
    ensures |r| == if Known(ps, dg.from) then |ps| else |ps| + 1
  {
    if Known(ps, dg.from) then ps else ps + [Peer(dg.from, dg.fromLen, dg.desc)]
  }

  function SendTo(p: Peer, data: seq<byte>): Send
  {
    Send(p.desc, Some(p.addr), p.size, data)
  }

  /** The fan-out: `data` to every slot, in index order. */
  function SendAll(ps: seq<Peer>, data: seq<byte>): (r: seq<Send>)
    ensures |r| == |ps|
  {
    seq(|ps|, j requires 0 <= j < |ps| => SendTo(ps[j], data))
  }

  /** One datagram: register its sender, then send it to everyone. */
  function Relay(ps: seq<Peer>, dg: Datagram): (r: Outcome)
    ensures |r.sends| == |r.clients|
  {
    var ps1 := Register(ps, dg);
    Outcome(ps1, SendAll(ps1, dg.data))
  }

  /** A sequence of datagrams, handled one after another. */
  function Run(ps: seq<Peer>, dgs: seq<Datagram>): Outcome
    decreases |dgs|
  {
    if dgs == [] then Outcome(ps, [])
    else
      var n := |dgs| - 1;
      var prev := Run(ps, dgs[..n]);
      var last := Relay(prev.clients, dgs[n]);
      Outcome(last.clients, prev.sends + last.sends)
  }

  // ---------------------------------------------------------------------
  // The registry as the server keeps it: parallel arrays
  // ---------------------------------------------------------------------

  class Registry {
    var capacity: nat
    var count: nat
    var tab: array<Addr>
    var sizes: array<nat>
    var descs: array<int>

    /** The slots 0 .. count-1 as records. */
    ghost var Clients: seq<Peer>

    /** The arrays have `capacity` slots and the first `count` hold Clients. */
    ghost predicate Stored()
      reads this, tab, sizes, descs
    {
      && tab.Length == capacity && sizes.Length == capacity && descs.Length == capacity
      && count <= capacity
      && |Clients| == count
      && forall i :: 0 <= i < count ==> Clients[i] == Peer(tab[i], sizes[i], descs[i])
    }

    /** Between datagrams the capacity is also the one the growth rule gives. */
    ghost predicate Valid()
      reads this, tab, sizes, descs
    {
      Stored() && capacity == CapacityFor(count)
    }

    /** The empty registry the server starts with: no arrays yet. */
    constructor ()
      ensures Valid() && fresh(tab) && fresh(sizes) && fresh(descs)
      ensures Clients == [] && capacity == 0
    {
      capacity, count := 0, 0;
      tab := new Addr[0];
      sizes := new nat[0];
      descs := new int[0];
      Clients := [];
    }

    /** The reallocation at the head of addClient: when every slot is taken,
        the three arrays are replaced by copies of twice the size (of
        INIT_CLIENTS the first time); no slot changes. */
    method Grow()
      requires Stored()
      modifies this`capacity, this`tab, this`sizes, this`descs
      ensures Stored() && Clients == old(Clients) && count < capacity
      ensures capacity == Grown(old(capacity), count)
      ensures tab == old(tab) || fresh(tab)
      ensures sizes == old(sizes) || fresh(sizes)
      ensures descs == old(descs) || fresh(descs)
    {
      if count >= capacity {
        var newCap := if capacity > 0 then 2 * capacity else INIT_CLIENTS;
        var t := Realloc(tab, newCap);
        var z := Realloc(sizes, newCap);
        var d := Realloc(descs, newCap);
        tab, sizes, descs, capacity := t, z, d, newCap;
      }
    }

    /** The stores at the tail of addClient: slot `count` receives the new
        client and `count` moves past it. */
    method Fill(a: Addr, size: nat, desc: int)
      requires Stored() && count < capacity
      modifies this`count, this`Clients, tab, sizes, descs
      ensures Stored()
      ensures Clients == old(Clients) + [Peer(a, size, desc)]
      ensures count == old(count) + 1
    {
      tab[count] := a;
      sizes[count] := size;
      descs[count] := desc;
      count := count + 1;
      Clients := Clients + [Peer(a, size, desc)];
    }

    /** addClient: grow the arrays when full, then fill slot `count`. */
    method AddClient(a: Addr, size: nat, desc: int)
      requires Valid()
      modifies this, tab, sizes, descs
      ensures Valid()
      ensures Clients == old(Clients) + [Peer(a, size, desc)]
      ensures count == old(count) + 1
      ensures capacity == Grown(old(capacity), old(count))
      ensures tab == old(tab) || fresh(tab)
      ensures sizes == old(sizes) || fresh(sizes)
      ensures descs == old(descs) || fresh(descs)
    {
      GrowthRule(count);
      Grow();
      Fill(a, size, desc);
    }

    /** clientPresent: 1 when some slot holds `a`, 0 otherwise. */
    method ClientPresent(a: Addr) returns (r: int)
      requires Stored()
      ensures r == 0 || r == 1
      ensures r == 1 <==> Known(Clients, a)
    {
      var i := 0;
      while i < count
        invariant 0 <= i <= count
        invariant forall k :: 0 <= k < i ==> Clients[k].addr != a
      {
        if SockaddrEqual(a, tab[i]) {
          return 1;
        }
        i := i + 1;
      }
      return 0;
    }

    /** The send loop: `data` to every slot, in index order. */
    method FanOut(data: seq<byte>) returns (sends: seq<Send>)
      requires Stored()
      ensures sends == SendAll(Clients, data)
    {
      sends := [];
      var j := 0;
      while j < count
        invariant 0 <= j <= count
        invariant |sends| == j
        invariant forall k :: 0 <= k < j ==> sends[k] == SendTo(Clients[k], data)
      {
        sends := sends + [Send(descs[j], Some(tab[j]), sizes[j], data)];
        j := j + 1;
      }
    }

    /** The loop body of the server for one received datagram. */
    method HandleDatagram(dg: Datagram) returns (sends: seq<Send>)
      requires Valid()
      modifies this, tab, sizes, descs
      ensures Valid()
      ensures Clients == Relay(old(Clients), dg).clients
      ensures sends == Relay(old(Clients), dg).sends
      ensures tab == old(tab) || fresh(tab)
      ensures sizes == old(sizes) || fresh(sizes)
      ensures descs == old(descs) || fresh(descs)
    {
      var present := ClientPresent(dg.from);
      if present == 0 {
        AddClient(dg.from, dg.fromLen, dg.desc);
      }
      sends := FanOut(dg.data);
    }

    /** The server's receive loop: each datagram is handled in turn and its
        sends are appended. */
    method Serve(dgs: seq<Datagram>) returns (sends: seq<Send>)
      requires Valid()
      modifies this, tab, sizes, descs
      ensures Valid()
      ensures Clients == Run(old(Clients), dgs).clients
      ensures sends == Run(old(Clients), dgs).sends
    {
      ghost var ps0 := Clients;
      sends := [];
      var i := 0;
      while i < |dgs|
        invariant 0 <= i <= |dgs|
        invariant Valid()
        invariant tab == old(tab) || fresh(tab)
        invariant sizes == old(sizes) || fresh(sizes)
        invariant descs == old(descs) || fresh(descs)
        invariant Outcome(Clients, sends) == Run(ps0, dgs[..i])
      {
        ghost var step := Relay(Clients, dgs[i]);
        RunSnoc(ps0, dgs, i);
        var out := HandleDatagram(dgs[i]);
        assert Outcome(Clients, out) == step;
        sends := sends + out;
        i := i + 1;
      }
      assert dgs[..|dgs|] == dgs;
    }
  }

  // ---------------------------------------------------------------------
  // Helper facts for the loop
  // ---------------------------------------------------------------------

  /** A run one datagram longer is the shorter run followed by that datagram. */
  lemma RunSnoc(ps: seq<Peer>, dgs: seq<Datagram>, i: nat)
    requires i < |dgs|
    ensures Run(ps, dgs[..i + 1]).clients == Relay(Run(ps, dgs[..i]).clients, dgs[i]).clients
    ensures Run(ps, dgs[..i + 1]).sends
         == Run(ps, dgs[..i]).sends + Relay(Run(ps, dgs[..i]).clients, dgs[i]).sends
  {
    assert dgs[..i + 1][..i] == dgs[..i];
  }

  // ---------------------------------------------------------------------
  // Registration
  // ---------------------------------------------------------------------

  /** After registering, the sender is known; the registry grew by one slot
      exactly when the sender was unknown, and kept its old slots. */
  lemma RegisterAdmits(ps: seq<Peer>, dg: Datagram)
    ensures Known(Register(ps, dg), dg.from)
    ensures |Register(ps, dg)| == if Known(ps, dg.from) then |ps| else |ps| + 1
    ensures ps <= Register(ps, dg)
    ensures !Known(ps, dg.from) ==> Register(ps, dg)[|ps|] == Peer(dg.from, dg.fromLen, dg.desc)
  {
    if !Known(ps, dg.from) {
      assert Register(ps, dg)[|ps|].addr == dg.from;
    }
  }

  /** A second datagram from the same address changes nothing: registration
      is idempotent. */
  lemma RegisterIdempotent(ps: seq<Peer>, dg1: Datagram, dg2: Datagram)
    requires dg2.from == dg1.from
    ensures Register(Register(ps, dg1), dg2) == Register(ps, dg1)
  {
    RegisterAdmits(ps, dg1);
  }

  // ---------------------------------------------------------------------
  // Fan-out
  // ---------------------------------------------------------------------

  /** No two slots hold the same address. */
  predicate Unique(ps: seq<Peer>)
  {
    forall i, j :: 0 <= i < |ps| && 0 <= j < |ps| && ps[i].addr == ps[j].addr ==> i == j
  }

  /** How many slots hold `a`. */
  function Occurrences(ps: seq<Peer>, a: Addr): (n: nat)
    ensures n <= |ps|
  {
    if ps == [] then 0
    else Occurrences(ps[..|ps| - 1], a) + (if ps[|ps| - 1].addr == a then 1 else 0)
  }

  /** How many of the sends go to `a`. */
  function SendsTo(ss: seq<Send>, a: Addr): (n: nat)
    ensures n <= |ss|
  {
    if ss == [] then 0
    else SendsTo(ss[..|ss| - 1], a) + (if ss[|ss| - 1].to == Some(a) then 1 else 0)
  }

  /** The fan-out sends to each address once per slot holding it. */
  lemma {:induction false} SendAllCounts(ps: seq<Peer>, data: seq<byte>, a: Addr)
    ensures SendsTo(SendAll(ps, data), a) == Occurrences(ps, a)
    decreases |ps|
  {
    if ps != [] {
      var init := ps[..|ps| - 1];
      SendAllCounts(init, data, a);
      assert SendAll(ps, data)[..|ps| - 1] == SendAll(init, data);
    }
  }

  /** In a registry without duplicates an address occupies one slot if known
      and none otherwise. */
  lemma {:induction false} UniqueOccurrences(ps: seq<Peer>, a: Addr)
    requires Unique(ps)
    ensures Occurrences(ps, a) == if Known(ps, a) then 1 else 0
    decreases |ps|
  {
    if ps != [] {
      var init := ps[..|ps| - 1];
      assert Unique(init);
      UniqueOccurrences(init, a);
      if ps[|ps| - 1].addr != a {
        assert Known(ps, a) <==> Known(init, a) by {
          if Known(ps, a) {
            var i :| 0 <= i < |ps| && ps[i].addr == a;
            assert init[i].addr == a;
          }
          if Known(init, a) {
            var i :| 0 <= i < |init| && init[i].addr == a;
            assert ps[i].addr == a;
          }
        }
      }
    }
  }

  lemma RelayKeepsUnique(ps: seq<Peer>, dg: Datagram)
    requires Unique(ps)
    ensures Unique(Relay(ps, dg).clients)
  {
  }

  /** One datagram, of any length, reaches every registered client exactly
      once (its sender included) and no one else, always with the bytes
      received. */
  lemma RelayReachesEachOnce(ps: seq<Peer>, dg: Datagram, a: Addr)
    requires Unique(ps)
    ensures SendsTo(Relay(ps, dg).sends, a) == if Known(Relay(ps, dg).clients, a) then 1 else 0
    ensures forall k :: 0 <= k < |Relay(ps, dg).sends| ==> Relay(ps, dg).sends[k].data == dg.data
  {
    var ps1 := Register(ps, dg);
    RelayKeepsUnique(ps, dg);
    SendAllCounts(ps1, dg.data, a);
    UniqueOccurrences(ps1, a);
  }

  /** Echo: the sender always gets its own datagram back. */
  lemma SenderEchoed(ps: seq<Peer>, dg: Datagram)
    ensures exists k :: (0 <= k < |Relay(ps, dg).sends|
      && Relay(ps, dg).sends[k].to == Some(dg.from) && Relay(ps, dg).sends[k].data == dg.data)
  {
    RegisterAdmits(ps, dg);
    var ps1 := Register(ps, dg);
    var i :| 0 <= i < |ps1| && ps1[i].addr == dg.from;
    assert Relay(ps, dg).sends[i] == SendTo(ps1[i], dg.data);
  }

  // ---------------------------------------------------------------------
  // What holds across datagrams
  // ---------------------------------------------------------------------

  /** No datagram removes or overwrites a client: the registry before a run
      is a prefix of the one after it, so the count never drops. */
  lemma {:induction false} RunOnlyAppends(ps: seq<Peer>, dgs: seq<Datagram>)
    ensures ps <= Run(ps, dgs).clients
    decreases |dgs|
  {
    if dgs != [] {
      var n := |dgs| - 1;
      RunOnlyAppends(ps, dgs[..n]);
      RegisterAdmits(Run(ps, dgs[..n]).clients, dgs[n]);
    }
  }

  lemma {:induction false} RunKeepsUnique(ps: seq<Peer>, dgs: seq<Datagram>)
    requires Unique(ps)
    ensures Unique(Run(ps, dgs).clients)
    decreases |dgs|
  {
    if dgs != [] {
      var n := |dgs| - 1;
      RunKeepsUnique(ps, dgs[..n]);
      RelayKeepsUnique(Run(ps, dgs[..n]).clients, dgs[n]);
    }
  }

  /** From the empty registry the server starts with, every address ever
      heard from occupies exactly one slot. */
  lemma {:induction false} RunRegistersEverySender(dgs: seq<Datagram>, k: nat)
    requires k < |dgs|
    ensures Occurrences(Run([], dgs).clients, dgs[k].from) == 1
  {
    RunKeepsUnique([], dgs);
    SenderStaysKnown([], dgs, k);
    UniqueOccurrences(Run([], dgs).clients, dgs[k].from);
  }

  lemma {:induction false} SenderStaysKnown(ps: seq<Peer>, dgs: seq<Datagram>, k: nat)
    requires k < |dgs|
    ensures Known(Run(ps, dgs).clients, dgs[k].from)
    decreases |dgs|
  {
    var n := |dgs| - 1;
    var prev := Run(ps, dgs[..n]).clients;
    assert Run(ps, dgs).clients == Register(prev, dgs[n]);
    RegisterAdmits(prev, dgs[n]);
    if k < n {
      assert dgs[..n][k] == dgs[k];
      SenderStaysKnown(ps, dgs[..n], k);
      var i :| 0 <= i < |prev| && prev[i].addr == dgs[k].from;
      assert Register(prev, dgs[n])[i] == prev[i];
    }
  }
}
