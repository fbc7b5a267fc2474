/** Transport identities of peers, what the relay receives and what it sends. */
module Net {
  import opened Frame

  datatype Option<+T> = None | Some(value: T)

  /** A peer address: a network address (port and host bytes) or a local
      socket path. */
  datatype Addr = Inet(port: nat, host: seq<byte>) | Local(path: string)

  /** The identity comparison the relay delegates to sockaddr_cmp (a result
      of 0 there): same family and, field by field, the same contents. */
  function SockaddrEqual(a: Addr, b: Addr): (r: bool)
    ensures r <==> a == b
  {
    match (a, b)
    case (Inet(p, h), Inet(q, g)) => p == q && h == g
    case (Local(s), Local(t)) => s == t
    case _ => false
  }

  /** One received datagram: the sender's address and its length as the
      receive reported it, the descriptor of the endpoint it arrived on, and
      the bytes received. */
  datatype Datagram = Datagram(from: Addr, fromLen: nat, desc: int, data: seq<byte>)

  /** One sendto call: descriptor, destination address (None when the slot
      it was read from is NULL), address length, and the bytes sent. */
  datatype Send = Send(desc: int, to: Option<Addr>, toLen: nat, data: seq<byte>)
}
