/** Sockets as values. A TCP socket is seen from the reading end as the sequence of
    events its `recv` calls will meet; a UDP socket as the sequence of datagrams (or
    quiet periods) its `recvfrom` calls will meet. Nothing here touches the network. */
module Sockets {
  import opened Outcomes

  /** One thing a TCP `recv` can run into: a chunk of bytes the peer's writes put in the
      receive buffer, a read timeout (`socket.timeout`), or any other socket error
      (a reset connection). An exhausted sequence is a peer that closed the connection. */
  datatype Arrival = Chunk(data: string) | Stall | Fault

  /** What a single `recv(n)` gives back. */
  datatype Read = Bytes(data: string) | TimedOut | Failed

  datatype RecvStep = RecvStep(read: Read, rest: seq<Arrival>)

  function Weight(a: Arrival): nat
  {
    if a.Chunk? then |a.data| + 1 else 1
  }

  /** A bound on how many more reads can make progress on a stream. */
  function Measure(stream: seq<Arrival>): nat
  {
    if stream == [] then 0 else Weight(stream[0]) + Measure(stream[1..])
  }

  /** The bytes still in flight on a stream, in order. */
  function Pending(stream: seq<Arrival>): string
  {
    if stream == [] then ""
    else (if stream[0].Chunk? then stream[0].data else "") + Pending(stream[1..])
  }

  /** `sock.recv(n)`: a negative size is a `ValueError`; a closed peer gives `b''`;
      `recv(0)` gives `b''` at once; otherwise at most `n` bytes of the chunk at the head,
      leaving the remainder of that chunk for the next call. */
  function Recv(stream: seq<Arrival>, n: int): (r: RecvStep)
    ensures n < 0 ==> r.read == Failed && r.rest == stream
    ensures n >= 0 && stream == [] ==> r.read == Bytes("") && r.rest == []
    ensures r.read.Bytes? ==> n >= 0 && |r.read.data| <= n
    ensures r.read.Bytes? ==> Pending(stream) == r.read.data + Pending(r.rest)
    ensures Measure(r.rest) <= Measure(stream)
    ensures r.read.Bytes? && r.read.data != "" ==> Measure(r.rest) < Measure(stream)
    ensures !r.read.Bytes? && n >= 0 ==> r.rest == stream[1..]
  {
    if n < 0 then RecvStep(Failed, stream)
    else if stream == [] then RecvStep(Bytes(""), [])
    else match stream[0]
      case Stall => RecvStep(TimedOut, stream[1..])
      case Fault => RecvStep(Failed, stream[1..])
      case Chunk(d) =>
        if n == 0 then RecvStep(Bytes(""), stream)
        else if n >= |d| then RecvStep(Bytes(d), stream[1..])
        else
          var rest := [Chunk(d[n..])] + stream[1..];
          assert rest[1..] == stream[1..];
          assert d[..n] + d[n..] == d;
          RecvStep(Bytes(d[..n]), rest)
  }

  /** What a loopback connection delivers for a sequence of `sendall` writes: each
      non-empty write arrives as one chunk (an empty write puts nothing on the wire). */
  function ArrivalsOf(writes: seq<string>): (s: seq<Arrival>)
    ensures Pending(s) == Flatten(writes)
  {
    if writes == [] then []
    else if writes[0] == "" then ArrivalsOf(writes[1..])
    else [Chunk(writes[0])] + ArrivalsOf(writes[1..])
  }

  function Flatten(ss: seq<string>): string
  {
    if ss == [] then "" else ss[0] + Flatten(ss[1..])
  }

  /** A UDP endpoint: an IP address and a port, compared as a pair like Python's tuples. */
  datatype Addr = Addr(ip: string, port: int)

  datatype Datagram = Datagram(data: string, addr: Addr)

  /** One thing a UDP `recvfrom` can run into: a datagram, or a quiet period that ends
      in `socket.timeout`. An exhausted sequence is quiet from then on. */
  datatype Delivery = Packet(dgram: Datagram) | Quiet

  predicate IsPrefix(p: string, s: string) { |p| <= |s| && s[..|p|] == p }

  /** What is left of a datagram read into a buffer of `n` bytes. */
  function Cut(data: string, n: nat): (r: string)
    ensures |r| <= n && IsPrefix(r, data)
    ensures |data| <= n ==> r == data
  {
    if |data| <= n then data else data[..n]
  }

  /** `sock.recvfrom(n)` with n >= 0: the next datagram, cut to its first `n` bytes (the
      rest of a longer datagram is discarded), or `None` on a timeout. */
  function RecvFrom(inbox: seq<Delivery>, n: nat): (r: (Option<Datagram>, seq<Delivery>))
    ensures inbox == [] ==> r == (None, [])
    ensures inbox != [] ==> r.1 == inbox[1..]
    ensures r.0.Some? ==> inbox != [] && inbox[0].Packet?
    ensures r.0.Some? ==> r.0.value.addr == inbox[0].dgram.addr
    ensures r.0.Some? ==>
      var (got, sent) := (r.0.value.data, inbox[0].dgram.data);
      IsPrefix(got, sent) && |got| == (if |sent| <= n then |sent| else n)
    ensures inbox != [] && inbox[0].Packet? ==> r.0.Some?
  {
    if inbox == [] then (None, [])
    else match inbox[0]
      case Quiet => (None, inbox[1..])
      case Packet(Datagram(data, addr)) =>
        (Some(Datagram(Cut(data, n), addr)), inbox[1..])
  }
}
