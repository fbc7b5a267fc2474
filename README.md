# Datagram chat relay: client registry and per-datagram step

This project models the relay server of a small datagram chat system. The
server listens on one network endpoint and one local-socket endpoint. It
keeps a registry of the peers it has heard from and echoes what it receives
out to the registered peers: every chat message to the peers not yet timed
out in the complete variant, every datagram to all peers in the earlier one.
Both variants are modelled.

- **The complete variant** (`zad01/src/server.c`, module `EvictingRelay`).
  Each registry slot also records when the client was last heard of. Any
  datagram registers or refreshes its sender. A datagram of exactly one
  frame (`sizeof(message)`, 163 bytes) is a chat message. Any other length
  is a heartbeat. A chat message starts a sweep over every slot. The sweep
  tombstones (sets to NULL) the slot of each client silent for more than
  `TIMEOUT_SEC`, and sends the message to every other slot, in index order.
- **The earlier variant** (`zad02/src/server.c`, module `PlainRelay`). There
  are no timestamps and no eviction. Every datagram, whatever its length,
  registers its sender if absent and is then sent to every registered peer.

The registry itself is a set of parallel arrays grown by `realloc`. Capacity
goes 0, 2, 4, 8, … and the arrays are never compacted. It is modelled as a
`Registry` class with those arrays as fields (module `Growth` holds the
growth rule and the reallocation copy). Every method is proved against
specification functions on sequences of records (`Register`, `Swept`,
`Served`, `Deliver`, `Relay`, `Run`). The lemmas are stated about those
functions.

A few definitions carry no contract of their own and are the vocabulary
the rows below are stated in:
- `Run` (in both modules) is the receive loop as a function: each datagram
  in arrival order goes through `Relay`, and the sends are concatenated
  (zad01/src/server.c:209-273, zad02/src/server.c:138-183).
- `PlainRelay.Known` is the answer of `clientPresent` in zad02/src/server.c
  (lines 58-66): some slot holds the address.
- `EvictingRelay.Expired` is the eviction test at zad01/src/server.c:253.
- `SendTo` (in both modules) is one `sendto` call with a slot's descriptor,
  address and length (zad01/src/server.c:259, zad02/src/server.c:174).

A `Datagram` is what `recvfrom` handed over: sender address, address length,
receiving descriptor, and the bytes received. Those bytes are
`Frame.Received` of what was on the wire, so at most one frame;
`WireDecidesRelay` states the relay's behaviour in terms of the wire length.
A `Send` is one `sendto` call: descriptor, destination (None when the slot
it was read from was NULL), address length, and bytes. The clock is a
parameter `now` of each datagram.

Proved for the complete variant:
- A client exactly `TIMEOUT_SEC` old is still served.
- Tombstoned slots are never reused: a returning client gets a new slot.
- The sender of a chat message always gets it back (with one clock reading
  per datagram; see "Left out").
- A heartbeat changes nothing but its sender's slot.
- While the clock never goes back, no `sendto` is given a tombstoned (NULL)
  address. The model also shows that this premise is needed. The sweep
  visits tombstoned slots too, so after the clock steps back a chat message
  is sent to the NULL address of a client evicted earlier.

## Model

| member | source | states |
|---|---|---|
| Frame.Classify | zad01/src/server.c:243 | a datagram is a chat message exactly when its received length equals the frame size, otherwise a heartbeat |
| Frame.Received | zad01/src/server.c:226 | the receive keeps at most a frame's worth of bytes, a prefix of what was sent, and all of it when it fits |
| Frame.OversizeIsPayload | zad01/src/server.c:226-243 | because the receive truncates to the buffer, any datagram of at least a frame's length is handled as a chat message |
| Net.SockaddrEqual | zad01/src/server.c:132 | two addresses compare equal exactly when they are the same address |
| Growth.CapacityFor | zad01/src/server.c:114-115 | the capacity after n insertions is at least n |
| Growth.CapacityIsLeastPowerOfTwo | zad01/src/server.c:114-120 | the capacity after n > 0 insertions is a power of two and at least INIT_CLIENTS; once n > INIT_CLIENTS it is also less than twice n; it is zero for no insertions |
| Growth.Grown | zad01/src/server.c:114-115 | an insert never shrinks the capacity and, when the arrays are full, leaves room for the new client |
| Growth.GrowthRule | zad01/src/server.c:114-115 | one insertion takes the capacity for n to the capacity for n+1 by the doubling rule (0 becomes INIT_CLIENTS) |
| Growth.Realloc | zad01/src/server.c:116-119 | the reallocated array has the new size and keeps every old element |
| EvictingRelay.LookupFrom | zad01/src/server.c:130-138 | the scan from slot i returns the first live slot at or after i holding the address, or -1 when none does |
| EvictingRelay.Lookup | zad01/src/server.c:130-138 | -1 exactly when no live slot holds the address, otherwise the least live slot that does; NULL slots never match |
| EvictingRelay.Register | zad01/src/server.c:234-240 | registering adds a slot exactly when no live slot holds the sender, and otherwise keeps the count (RegisterResolves gives the slot contents) |
| EvictingRelay.SweepSlot | zad01/src/server.c:253-258 | one slot of the sweep is either left as it was or tombstoned, with nothing else changed (SweptEvictsExpired says which) |
| EvictingRelay.Swept | zad01/src/server.c:253-258 | the sweep keeps the number of slots (SweptEvictsExpired says which are tombstoned) |
| EvictingRelay.Served | zad01/src/server.c:249-264 | the indices the sweep sends to (ServedExactly: exactly the unexpired slots, in increasing order) |
| EvictingRelay.Deliver | zad01/src/server.c:249-264 | one send per served index |
| EvictingRelay.Relay | zad01/src/server.c:234-267 | one datagram adds at most one slot and removes none (RelayKeepsSlots, SenderEchoed and HeartbeatOnlyRegisters say the rest) |
| EvictingRelay.WireDecidesRelay | zad01/src/server.c:224-267 | for the bytes a receive keeps of a datagram, the relay sends something exactly when the datagram on the wire had at least a frame's length |
| EvictingRelay.Registry.constructor | zad01/src/server.c:99-104 | the server starts with an empty registry of capacity zero |
| EvictingRelay.Registry.Grow | zad01/src/server.c:114-120 | when full, the four arrays are replaced by larger copies, capacity follows the doubling rule, and no record changes |
| EvictingRelay.Registry.Fill | zad01/src/server.c:122-127 | the new record goes into slot clientIterator and the count goes up by one |
| EvictingRelay.Registry.AddClient | zad01/src/server.c:113-128 | appends exactly one record with the current time, keeps earlier records, count+1, count <= capacity, capacity by the growth rule |
| EvictingRelay.Registry.ClientPresent | zad01/src/server.c:130-138 | the loop returns what Lookup specifies: the first live matching slot or -1 |
| EvictingRelay.Registry.Sweep | zad01/src/server.c:248-264 | the loop leaves the registry as Swept and emits, in index order, one send per slot that Served selects |
| EvictingRelay.Registry.HandleDatagram | zad01/src/server.c:234-267 | one datagram leaves the registry and the sends exactly as Relay specifies, keeping the registry invariant; each array is either the old one or a fresh copy |
| EvictingRelay.Registry.Serve | zad01/src/server.c:209-273 | the receive loop handles each datagram in arrival order, with its own clock reading, and leaves the registry and the sends as Run specifies |
| EvictingRelay.LookupIs | zad01/src/server.c:130-138 | the scan answers i whenever slot i is the first live slot holding the address |
| EvictingRelay.RegisterResolves | zad01/src/server.c:234-240 | a known sender's slot only has its time refreshed; an unknown or evicted sender is appended with the current time; either way it then resolves to that slot and no other slot changes |
| EvictingRelay.RegisterTwice | zad01/src/server.c:234-240 | a second datagram from the same address resolves to the same slot and adds none |
| EvictingRelay.HeartbeatOnlyRegisters | zad01/src/server.c:243-267 | a datagram that is not a full frame produces no send and evicts no one |
| EvictingRelay.ServedExactly | zad01/src/server.c:249-264 | the sweep serves slot j exactly when now minus its last-heard time is at most TIMEOUT_SEC, each once, in increasing order |
| EvictingRelay.SweptEvictsExpired | zad01/src/server.c:253-258 | the sweep tombstones exactly the slots silent for more than TIMEOUT_SEC and changes nothing else |
| EvictingRelay.SweepServesFresh | zad01/src/server.c:249-264 | a slot heard of at the sweep's own time is served and keeps resolving for its address |
| EvictingRelay.SenderEchoed | zad01/src/server.c:234-264 | a chat message is sent back to its own sender, whose slot survives the sweep |
| EvictingRelay.RegisterKeepsSlots | zad01/src/server.c:113-128 | registering never removes a slot, keeps every slot's size and descriptor, and leaves its address as it was or a tombstone |
| EvictingRelay.RelayKeepsSlots | zad01/src/server.c:234-264 | after one datagram every earlier slot keeps its size and descriptor and its address or a tombstone |
| EvictingRelay.RunKeepsSlots | zad01/src/server.c:234-264 | over any run the count never drops, indices are stable and a tombstone is never reused |
| EvictingRelay.UniqueLookup | zad01/src/server.c:130-138 | when no two live slots hold the same address, the slot holding an address is the one the scan finds |
| EvictingRelay.RegisterKeepsUnique | zad01/src/server.c:234-240 | registering never gives an address a second live slot |
| EvictingRelay.RelayKeepsUnique | zad01/src/server.c:234-264 | one datagram never gives an address a second live slot |
| EvictingRelay.RunKeepsUnique | zad01/src/server.c:234-264 | no run gives an address a second live slot |
| EvictingRelay.RegisterKeepsStale | zad01/src/server.c:234-240 | with a later clock, every tombstone still belongs to an expired client after registering |
| EvictingRelay.SweepAvoidsTombstones | zad01/src/server.c:248-264 | when every tombstone is expired, the sweep sends only to live addresses and leaves only expired tombstones |
| EvictingRelay.RelayNeverSendsToTombstone | zad01/src/server.c:234-264 | a datagram no earlier than the last one sends to no NULL address and keeps the tombstones expired |
| EvictingRelay.RunNeverSendsToTombstone | zad01/src/server.c:234-264 | under a clock that never goes back, no send of a run goes to a NULL address, and every tombstone at its end is expired at the last datagram's time |
| EvictingRelay.MonotoneClockNeverSendsToTombstone | zad01/src/server.c:248-264 | from the empty registry, a non-decreasing clock means no send ever goes to a NULL address |
| EvictingRelay.ClockStepBackSendsToTombstone | zad01/src/server.c:248-264 | when the clock steps back, a chat message is sent to the NULL address of a client evicted earlier |
| EvictingRelay.StepBackFirst | zad01/src/server.c:234-240 | a first heartbeat registers its sender and sends nothing |
| EvictingRelay.StepBackSecond | zad01/src/server.c:248-264 | a chat message 100 seconds later evicts the silent client and reaches only its sender |
| EvictingRelay.StepBackThird | zad01/src/server.c:248-264 | a chat message at an earlier time serves the tombstoned slot again, with a NULL address |
| PlainRelay.Registry.constructor | zad02/src/server.c:38-42 | the server starts with an empty registry of capacity zero |
| PlainRelay.Registry.Grow | zad02/src/server.c:45-50 | when full, the three arrays are replaced by larger copies, capacity follows the doubling rule, and no record changes |
| PlainRelay.Registry.Fill | zad02/src/server.c:52-55 | the new record goes into slot clientIterator and the count goes up by one |
| PlainRelay.Registry.AddClient | zad02/src/server.c:44-56 | appends exactly one record, keeps earlier records, count+1, count <= capacity, capacity by the growth rule |
| PlainRelay.Registry.ClientPresent | zad02/src/server.c:58-66 | returns 1 exactly when some registered slot holds the address, 0 otherwise |
| PlainRelay.Registry.FanOut | zad02/src/server.c:170-178 | the loop sends the received bytes once to each registered slot, in index order |
| PlainRelay.Registry.HandleDatagram | zad02/src/server.c:163-178 | one datagram leaves the registry and the sends exactly as Relay specifies, keeping the registry invariant; each array is either the old one or a fresh copy |
| PlainRelay.Registry.Serve | zad02/src/server.c:138-183 | the receive loop handles each datagram in arrival order and leaves the registry and the sends as Run specifies |
| PlainRelay.Register | zad02/src/server.c:163-165 | registering only appends, and adds one slot exactly when the sender is unknown (RegisterAdmits gives the slot's contents) |
| PlainRelay.SendAll | zad02/src/server.c:170-178 | the fan-out makes one send per slot (SendAllCounts says to whom) |
| PlainRelay.Relay | zad02/src/server.c:163-178 | one datagram makes exactly as many sends as there are slots once its sender is registered (RelayReachesEachOnce says to whom) |
| PlainRelay.RegisterAdmits | zad02/src/server.c:163-165 | after registering the sender is known; the registry grew by one slot exactly when it was unknown, that slot holds the sender's address, address length and descriptor, and the old slots are kept |
| PlainRelay.RegisterIdempotent | zad02/src/server.c:163-165 | a second datagram from the same address leaves the registry unchanged |
| PlainRelay.SendAllCounts | zad02/src/server.c:170-178 | the fan-out sends to an address once per slot holding it |
| PlainRelay.UniqueOccurrences | zad02/src/server.c:58-66 | in a registry without duplicates an address occupies one slot when known and none otherwise |
| PlainRelay.RelayKeepsUnique | zad02/src/server.c:163-165 | register-if-absent never creates a duplicate address |
| PlainRelay.RelayReachesEachOnce | zad02/src/server.c:163-178 | in a registry with no duplicate address, which every run from the empty registry keeps (RunKeepsUnique), a datagram of any length reaches every registered client exactly once, no one else, always with the received bytes |
| PlainRelay.SenderEchoed | zad02/src/server.c:163-178 | the sender always gets its own datagram back |
| PlainRelay.RunOnlyAppends | zad02/src/server.c:44-56 | no datagram removes or overwrites a client: the registry before a run is a prefix of the one after it |
| PlainRelay.RunKeepsUnique | zad02/src/server.c:163-165 | no run creates a duplicate address |
| PlainRelay.SenderStaysKnown | zad02/src/server.c:163-178 | every sender of a run is still registered at its end |
| PlainRelay.RunRegistersEverySender | zad02/src/server.c:152-178 | from the empty registry, every address ever heard from occupies exactly one slot |

## Left out

- `main` outside the per-datagram body, as plumbing. This covers socket creation, `bind`, `setsockopt`, `unlink`, `poll` and its timeout, the EINTR retries, the SIGINT handler, `close`, and argument parsing (`process_application_arguments`). The receive loop is `Serve`, which takes the datagrams already in arrival order, each one a call of `HandleDatagram`; the order in which the endpoints are drained within one `poll` is not modelled.
- The `exit(1)` on a failing `recvfrom` or `sendto`: there is no error path in the model, and every send is recorded. A send whose destination is `None` is the call that the C makes with a NULL address (zad01/src/server.c:259). On an unconnected datagram socket such a `sendto` fails, so the C would take its `exit(1)` branch there (lines 259-261); the model records the send instead and shows where it happens.
- Console output (`printf`, `perror`) and the message fields printed. The relay never looks inside a frame.
- Memory management. The `calloc` of an address buffer per datagram is not modelled, and neither is its leak when the sender is already known. The same goes for the `free` of an evicted address and a `realloc` returning NULL, which the C does not check.
- `sockaddr_cmp`: its source is not part of this model. Net.SockaddrEqual assumes it compares family and contents and nothing else.
- `TIMEOUT_SEC` comes from `config.h`, which is not part of this model; it is set to 10 here. The proofs use only that it is at least 0, except the concrete step-back scenario, which also needs it below 100.
- EvictingRelay.Registry.HandleDatagram: reads the clock once per datagram (`now`). The C reads it separately in `addClient` or the refresh and again for the sweep's reference time, which can differ by a second. The proved echo to the sender of a chat message rests on this single reading: with the C's two readings the sender is still served unless the second reading is more than `TIMEOUT_SEC` after the first (a second boundary when `TIMEOUT_SEC` is 0, a forward clock step, or a stall such as the `printf` at line 245); a clock set back between the readings cannot evict it.
- Integer widths are unbounded. The model does not wrap `long` timestamps, `int` counts or the doubling of `clientCapacity`, and `socklen_t` lengths are naturals.
- The client program in `zad01/src/main.c`: only its `message` layout (lines 132-136) is used, to fix the frame size at 2*(16+1)+128+1 bytes.
