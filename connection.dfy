/** lan/connection.py: one TCP connection and the length-prefixed framing on top of it.
    A frame is a 16-character header `!DYNAMIC!(` + length left-aligned in 5 columns + `)`
    followed by the payload; the payload `!CON!` is a liveness probe that the receiver
    drops. The socket is the abstract stream of module Sockets. */
module Connections {
  import opened Outcomes
  import opened Text
  import opened Sockets

  /** Payloads that belong to the protocol and are never handed to the application. */
  const SpecialCaseMsgs: seq<string> := ["!CON!"]

  /** The widest header; its length is the size of every header read. */
  const DynamicHeader: string := "!DYNAMIC!(99999)"
  const DynamicHeaderBytes: nat := |DynamicHeader|

  /** `DYNAMIC_HEADER[:9]`: the text a received header must contain. */
  const DynamicTag: string := DynamicHeader[..9]

  /** The header `dynamic_send` writes before a payload of `len` characters. */
  function FrameHeader(len: nat): (h: string)
    ensures |h| >= DynamicHeaderBytes && h[..10] == "!DYNAMIC!(" && h[|h| - 1] == ')'
  {
    "!DYNAMIC!(" + PadRight(NatToString(len), 5) + ")"
  }

  /** A payload the receiver keeps: not empty and not a protocol message. */
  predicate Deliverable(m: string)
  {
    m != "" && m !in SpecialCaseMsgs
  }

  function DropLast(s: seq<string>): seq<string>
    requires s != []
  {
    s[..|s| - 1]
  }

  /** For every length below 100000 the header has the fixed size, carries the tag, and
      its characters 10 to 14 read back as the length. */
  lemma FrameHeaderShape(len: nat)
    requires len < 100000
    ensures |FrameHeader(len)| == DynamicHeaderBytes
    ensures Contains(FrameHeader(len), DynamicTag)
    ensures ParseInt(PySlice(FrameHeader(len), 10, 15)) == Some(len)
  {
    var digits := PadRight(NatToString(len), 5);
    assert Pow10(5) == 100000;
    NatToStringLength(len, 5);
    var h := FrameHeader(len);
    assert DynamicTag == "!DYNAMIC!";
    assert h == DynamicTag + h[9..];
    ContainsPrefix(DynamicTag, h[9..]);
    assert h[10..15] == digits;
    ParseIntOfPadded(len, 5);
  }

  // ---------------------------------------------------------------------------
  // What the receiving side will find on its stream.

  /** The next arrival is one whole header that `dynamic_receive` accepts. */
  ghost predicate HeaderAhead(s: seq<Arrival>)
  {
    && |s| >= 1 && s[0].Chunk? && |s[0].data| == DynamicHeaderBytes
    && Contains(s[0].data, DynamicTag)
    && ParseInt(PySlice(s[0].data, 10, 15)).Some?
  }

  /** The payload length that the header at the head of the stream announces. */
  ghost function AnnouncedLen(s: seq<Arrival>): int
    requires HeaderAhead(s)
  {
    ParseInt(PySlice(s[0].data, 10, 15)).value
  }

  /** A whole frame with a non-empty payload is next: its header, then its payload. */
  ghost predicate FrameAhead(s: seq<Arrival>)
  {
    HeaderAhead(s) && AnnouncedLen(s) > 0 && |s| >= 2 && s[1].Chunk? && |s[1].data| == AnnouncedLen(s)
  }

  /** The stream once every leading whole frame that carries a protocol payload is gone. */
  ghost function SkipProbes(s: seq<Arrival>): seq<Arrival>
    decreases |s|
  {
    if FrameAhead(s) && s[1].data in SpecialCaseMsgs then SkipProbes(s[2..]) else s
  }

  /** A header is next, and reading the payload it announces gives nothing. */
  ghost predicate PayloadLost(s: seq<Arrival>)
  {
    HeaderAhead(s) && !(Recv(s[1..], AnnouncedLen(s)).read.Bytes? && Recv(s[1..], AnnouncedLen(s)).read.data != "")
  }

  lemma {:induction false} SkipProbesStops(s: seq<Arrival>)
    ensures FrameAhead(SkipProbes(s)) ==> SkipProbes(s)[1].data !in SpecialCaseMsgs
    ensures SkipProbes(SkipProbes(s)) == SkipProbes(s)
    decreases |s|
  {
    if FrameAhead(s) && s[1].data in SpecialCaseMsgs {
      SkipProbesStops(s[2..]);
    }
  }

  /** Reading a header's worth takes exactly the header arrival off the stream. */
  lemma ReadHeader(s: seq<Arrival>)
    requires HeaderAhead(s)
    ensures Recv(s, DynamicHeaderBytes) == RecvStep(Bytes(s[0].data), s[1..])
    ensures s[0].data != ""
  {
  }

  /** Reading the announced length after a header takes exactly the payload arrival. */
  lemma ReadPayload(s: seq<Arrival>)
    requires FrameAhead(s)
    ensures Recv(s[1..], AnnouncedLen(s)) == RecvStep(Bytes(s[1].data), s[2..])
    ensures s[1].data != ""
  {
    assert s[1..][1..] == s[2..];
  }

  /** A header written by `dynamic_send` is accepted and announces its payload's length. */
  lemma HeaderOnWire(len: nat, tail: seq<Arrival>)
    requires len < 100000
    ensures HeaderAhead([Chunk(FrameHeader(len))] + tail)
    ensures AnnouncedLen([Chunk(FrameHeader(len))] + tail) == len
    ensures ([Chunk(FrameHeader(len))] + tail)[1..] == tail
  {
    FrameHeaderShape(len);
  }

  /** A wire-level frame written by `dynamic_send` for a non-empty payload. */
  lemma FrameOnWire(m: string, tail: seq<Arrival>)
    requires 0 < |m| < 100000
    ensures FrameAhead([Chunk(FrameHeader(|m|)), Chunk(m)] + tail)
    ensures ([Chunk(FrameHeader(|m|)), Chunk(m)] + tail)[2..] == tail
  {
    HeaderOnWire(|m|, [Chunk(m)] + tail);
    assert [Chunk(FrameHeader(|m|)), Chunk(m)] + tail == [Chunk(FrameHeader(|m|))] + ([Chunk(m)] + tail);
  }

  // ---------------------------------------------------------------------------
  // `dynamic_receive` and `receive_tcp_all` as functions of what a connection with a
  // socket will read (`s`) and of its FIFO (`q`). The methods of `Connection` follow them.

  /** A first read that `dynamic_receive` takes for a header: bytes containing the tag. */
  predicate Tagged(r: Read)
  {
    r.Bytes? && r.data != "" && Contains(r.data, DynamicTag)
  }

  /** After the header read: the announced length, if any, and the outcome so far. */
  datatype HeaderRead = HeaderRead(len: Option<int>, st: Status, inbound: seq<Arrival>, recvd: seq<string>)

  /** After one pass of the loop; `again` is the source's `is_special_case`. */
  datatype FrameRead = FrameRead(again: bool, st: Status, inbound: seq<Arrival>, recvd: seq<string>)

  /** After a whole `dynamic_receive`. */
  datatype Received = Received(st: Status, inbound: seq<Arrival>, recvd: seq<string>)

  /** After `receive_tcp_all`; `got` are the messages its successful calls delivered. */
  datatype Drain = Drain(st: Status, got: seq<string>, inbound: seq<Arrival>, recvd: seq<string>)

  /** Lines 188-200: read a header's worth. A read that is not a header is taken back off
      the FIFO and fails the call; an accepted header stays queued, and its length field
      either parses or is a `ValueError`. */
  function HeaderStep(s: seq<Arrival>, q: seq<string>): (h: HeaderRead)
    ensures h.inbound == Recv(s, DynamicHeaderBytes).rest
    ensures var r := Recv(s, DynamicHeaderBytes).read;
      && (h.st == Returned(false) <==> !Tagged(r))
      && (h.st == Raised(ValueError) <==> Tagged(r) && ParseInt(PySlice(r.data, 10, 15)).None?)
      && (h.len.Some? <==> h.st == Returned(true))
      && (!Tagged(r) ==> h.len.None? && h.recvd == q)
      && (Tagged(r) ==> h.recvd == q + [r.data] && h.len == ParseInt(PySlice(r.data, 10, 15)))
    ensures HeaderAhead(s) ==> h.len == Some(AnnouncedLen(s)) && h.recvd == q + [s[0].data]
  {
    var step := Recv(s, DynamicHeaderBytes);
    if !(step.read.Bytes? && step.read.data != "") then HeaderRead(None, Returned(false), step.rest, q)
    else if !Contains(step.read.data, DynamicTag) then HeaderRead(None, Returned(false), step.rest, q)
    else
      var len := ParseInt(PySlice(step.read.data, 10, 15));
      HeaderRead(len, if len.None? then Raised(ValueError) else Returned(true), step.rest, q + [step.read.data])
  }

  /** Lines 202-213, with the header last on the FIFO `q`: the payload takes the header's
      place, or is dropped when it is a protocol message; a failed payload read pops twice. */
  function PayloadStep(s: seq<Arrival>, q: seq<string>, len: int): FrameRead
    requires q != []
  {
    var step := Recv(s, len);
    if step.read.Bytes? && step.read.data != "" then
      var again := step.read.data in SpecialCaseMsgs;
      FrameRead(again, Returned(true), step.rest, DropLast(q) + (if again then [] else [step.read.data]))
    else if |q| == 1 then FrameRead(false, Raised(IndexError), step.rest, [])
    else FrameRead(false, Returned(false), step.rest, DropLast(DropLast(q)))
  }

  /** One pass of the loop of `dynamic_receive`. A probe leaves the FIFO as it was and
      consumes input; a payload for the application is appended; a failed payload read
      loses the message queued before the call, or raises `IndexError` when there was
      none. On a stream holding a whole frame, exactly that frame is consumed. */
  function FrameStep(s: seq<Arrival>, q: seq<string>): (f: FrameRead)
    ensures Measure(f.inbound) <= Measure(s)
    ensures f.again ==> f.st == Returned(true) && f.recvd == q && Measure(f.inbound) < Measure(s)
    ensures !f.again && f.st == Returned(true) ==>
      && |f.recvd| == |q| + 1 && f.recvd[..|q|] == q && Deliverable(f.recvd[|q|])
      && Measure(f.inbound) < Measure(s)
    ensures f.st == Returned(false) ==> f.recvd == q || (q != [] && f.recvd == DropLast(q))
    ensures f.st == Raised(IndexError) ==> q == [] && f.recvd == []
    ensures f.st == Raised(ValueError) <==> HeaderStep(s, q).st == Raised(ValueError)
    ensures f.st == Raised(ValueError) ==> !f.again && f.inbound == HeaderStep(s, q).inbound && f.recvd == HeaderStep(s, q).recvd
    ensures !Tagged(Recv(s, DynamicHeaderBytes).read) ==>
      f == FrameRead(false, Returned(false), Recv(s, DynamicHeaderBytes).rest, q)
    ensures FrameAhead(s) ==>
      && f.inbound == s[2..]
      && f.again == (s[1].data in SpecialCaseMsgs)
      && (!f.again ==> f.st == Returned(true) && f.recvd == q + [s[1].data])
    ensures PayloadLost(s) ==>
      && !f.again
      && if q == [] then f.st == Raised(IndexError) else f.st == Returned(false) && f.recvd == DropLast(q)
  {
    var h := HeaderStep(s, q);
    if h.len.None? then FrameRead(false, h.st, h.inbound, h.recvd)
    else
      assert DropLast(h.recvd) == q;
      assert FrameAhead(s) ==> Recv(s[1..], AnnouncedLen(s)) == RecvStep(Bytes(s[1].data), s[2..]) by {
        if FrameAhead(s) {
          ReadPayload(s);
        }
      }
      PayloadStep(h.inbound, h.recvd, h.len.value)
  }

  /** `dynamic_receive()`: passes until one is not a probe. A True result appends exactly
      one payload for the application; a first read that is not a header fails with the
      FIFO as it was; a malformed first header is a `ValueError`; after any number of
      whole probe frames, a whole frame is delivered and a lost payload read pops. */
  function DynRecv(s: seq<Arrival>, q: seq<string>): (r: Received)
    ensures Measure(r.inbound) <= Measure(s)
    ensures r.st == Returned(true) ==>
      && |r.recvd| == |q| + 1 && r.recvd[..|q|] == q && Deliverable(r.recvd[|q|])
      && Measure(r.inbound) < Measure(s)
    ensures r.st == Returned(false) ==> r.recvd == q || (q != [] && r.recvd == DropLast(q))
    ensures r.st == Raised(IndexError) ==> q == [] && r.recvd == []
    ensures r.st == Raised(ValueError) ==> |r.recvd| == |q| + 1 && r.recvd[..|q|] == q
    decreases Measure(s)
  {
    var f := FrameStep(s, q);
    if f.again then DynRecv(f.inbound, f.recvd) else Received(f.st, f.inbound, f.recvd)
  }

  /** A first read that is not a header fails `dynamic_receive` with the FIFO as it was;
      a malformed first header is a `ValueError` with that header left queued. */
  lemma DynRecvFirstRead(s: seq<Arrival>, q: seq<string>)
    ensures !Tagged(Recv(s, DynamicHeaderBytes).read) ==>
      DynRecv(s, q) == Received(Returned(false), Recv(s, DynamicHeaderBytes).rest, q)
    ensures HeaderStep(s, q).st == Raised(ValueError) ==>
      DynRecv(s, q) == Received(Raised(ValueError), HeaderStep(s, q).inbound, HeaderStep(s, q).recvd)
  {
    var f := FrameStep(s, q);
    assert !f.again ==> DynRecv(s, q) == Received(f.st, f.inbound, f.recvd);
  }

  /** After any number of whole probe frames, a whole frame is delivered, and a lost
      payload read pops the message queued before the call or raises `IndexError`. */
  lemma {:induction false} DynRecvSkipsProbes(s: seq<Arrival>, q: seq<string>)
    ensures FrameAhead(SkipProbes(s)) ==>
      DynRecv(s, q) == Received(Returned(true), SkipProbes(s)[2..], q + [SkipProbes(s)[1].data])
    ensures PayloadLost(SkipProbes(s)) ==>
      var r := DynRecv(s, q);
      if q == [] then r.st == Raised(IndexError) else r.st == Returned(false) && r.recvd == DropLast(q)
    decreases |s|
  {
    var f := FrameStep(s, q);
    if FrameAhead(s) && s[1].data in SpecialCaseMsgs {
      assert DynRecv(s, q) == DynRecv(s[2..], q);
      DynRecvSkipsProbes(s[2..], q);
    } else {
      assert SkipProbes(s) == s;
      assert !f.again ==> DynRecv(s, q) == Received(f.st, f.inbound, f.recvd);
    }
  }

  /** `ReceivePayload` as evidently intended: a failed payload read pops only the header. */
  function PayloadStepFixed(s: seq<Arrival>, q: seq<string>, len: int): FrameRead
    requires q != []
  {
    var step := Recv(s, len);
    if step.read.Bytes? && step.read.data != "" then
      var again := step.read.data in SpecialCaseMsgs;
      FrameRead(again, Returned(true), step.rest, DropLast(q) + (if again then [] else [step.read.data]))
    else FrameRead(false, Returned(false), step.rest, DropLast(q))
  }

  /** The corrected pass: the same as `FrameStep` except that a failure leaves the FIFO as
      it was and `IndexError` cannot arise. */
  function FrameStepFixed(s: seq<Arrival>, q: seq<string>): (f: FrameRead)
    ensures Measure(f.inbound) <= Measure(s)
    ensures f.again ==> f.st == Returned(true) && f.recvd == q && Measure(f.inbound) < Measure(s)
    ensures !f.again && f.st == Returned(true) ==>
      && |f.recvd| == |q| + 1 && f.recvd[..|q|] == q && Deliverable(f.recvd[|q|])
      && Measure(f.inbound) < Measure(s)
    ensures f.st == Returned(false) ==> f.recvd == q
    ensures f.st != Raised(IndexError)
    ensures f.st == Raised(ValueError) <==> HeaderStep(s, q).st == Raised(ValueError)
    ensures f.st == Raised(ValueError) ==> !f.again && f.inbound == HeaderStep(s, q).inbound && f.recvd == HeaderStep(s, q).recvd
    ensures !Tagged(Recv(s, DynamicHeaderBytes).read) ==>
      f == FrameRead(false, Returned(false), Recv(s, DynamicHeaderBytes).rest, q)
    ensures FrameAhead(s) ==>
      && f.inbound == s[2..]
      && f.again == (s[1].data in SpecialCaseMsgs)
      && (!f.again ==> f.st == Returned(true) && f.recvd == q + [s[1].data])
    ensures PayloadLost(s) ==> !f.again && f.st == Returned(false)
  {
    var h := HeaderStep(s, q);
    if h.len.None? then FrameRead(false, h.st, h.inbound, h.recvd)
    else
      assert DropLast(h.recvd) == q;
      assert FrameAhead(s) ==> Recv(s[1..], AnnouncedLen(s)) == RecvStep(Bytes(s[1].data), s[2..]) by {
        if FrameAhead(s) {
          ReadPayload(s);
        }
      }
      PayloadStepFixed(h.inbound, h.recvd, h.len.value)
  }

  /** `dynamic_receive()` with the single pop: a False result never disturbs the messages
      already queued, and `IndexError` cannot happen. */
  function DynRecvFixed(s: seq<Arrival>, q: seq<string>): (r: Received)
    ensures Measure(r.inbound) <= Measure(s)
    ensures r.st == Returned(true) ==>
      && |r.recvd| == |q| + 1 && r.recvd[..|q|] == q && Deliverable(r.recvd[|q|])
      && Measure(r.inbound) < Measure(s)
    ensures r.st == Returned(false) ==> r.recvd == q
    ensures r.st != Raised(IndexError)
    ensures r.st == Raised(ValueError) ==> |r.recvd| == |q| + 1 && r.recvd[..|q|] == q
    ensures !Tagged(Recv(s, DynamicHeaderBytes).read) ==>
      r == Received(Returned(false), Recv(s, DynamicHeaderBytes).rest, q)
    ensures FrameAhead(SkipProbes(s)) ==>
      r == Received(Returned(true), SkipProbes(s)[2..], q + [SkipProbes(s)[1].data])
    ensures PayloadLost(SkipProbes(s)) ==> r.st == Returned(false)
    decreases Measure(s)
  {
    var f := FrameStepFixed(s, q);
    if f.again then DynRecvFixed(f.inbound, f.recvd) else Received(f.st, f.inbound, f.recvd)
  }

  /** How a drain `d` that started from the FIFO `q` can end: never with True; every
      message it delivered is one for the application; the FIFO is the old one plus the
      delivered messages, less the last one when the final failing call took it back off
      (the double pop of `DynRecv`); `IndexError` only when nothing was queued or
      delivered; a `ValueError` leaves one header queued after them. */
  predicate DrainOutcome(q: seq<string>, d: Drain)
  {
    && d.st != Returned(true)
    && (forall k :: 0 <= k < |d.got| ==> Deliverable(d.got[k]))
    && (d.st == Returned(false) ==>
          d.recvd == q + d.got || (q + d.got != [] && d.recvd == DropLast(q + d.got)))
    && (d.st == Raised(IndexError) ==> q + d.got == [] && d.recvd == [])
    && (d.st == Raised(ValueError) ==>
          |d.recvd| == |q| + |d.got| + 1 && d.recvd[..|q| + |d.got|] == q + d.got)
  }

  /** `receive_tcp_all()`: `dynamic_receive` until it does not return True, ending as
      `DrainOutcome` says. */
  function DrainAll(s: seq<Arrival>, q: seq<string>): (d: Drain)
    ensures Measure(d.inbound) <= Measure(s)
    ensures DrainOutcome(q, d)
    decreases Measure(s)
  {
    var r := DynRecv(s, q);
    if r.st == Returned(true) then
      var m := r.recvd[|q|];
      SplitLast(r.recvd, q);
      var d := DrainAll(r.inbound, r.recvd);
      DrainPrepend(q, m, d);
      Drain(d.st, [m] + d.got, d.inbound, d.recvd)
    else Drain(r.st, [], r.inbound, r.recvd)
  }

  /** A drain that delivered `m` first and then went on as `d` did from `q + [m]`. */
  lemma DrainPrepend(q: seq<string>, m: string, d: Drain)
    requires Deliverable(m) && DrainOutcome(q + [m], d)
    ensures DrainOutcome(q, Drain(d.st, [m] + d.got, d.inbound, d.recvd))
  {
    AppendOne(q, m, d.got);
  }

  lemma AppendOne(q: seq<string>, m: string, rest: seq<string>)
    ensures q + ([m] + rest) == (q + [m]) + rest
    ensures forall k :: 1 <= k < 1 + |rest| ==> ([m] + rest)[k] == rest[k - 1]
  {
  }

  lemma SplitLast(r: seq<string>, q: seq<string>)
    requires |r| == |q| + 1 && r[..|q|] == q
    ensures r == q + [r[|q|]]
  {
  }

  /** One call of `dynamic_receive` inside `receive_tcp_all`. */
  lemma DrainAllStep(s: seq<Arrival>, q: seq<string>)
    ensures var r := DynRecv(s, q);
      && (r.st != Returned(true) ==> DrainAll(s, q) == Drain(r.st, [], r.inbound, r.recvd))
      && (r.st == Returned(true) ==>
            var d := DrainAll(r.inbound, r.recvd);
            DrainAll(s, q) == Drain(d.st, [r.recvd[|q|]] + d.got, d.inbound, d.recvd))
  {
  }

  /** The loop of `receive_tcp_all` after one more delivered message: the drain that
      remained from `(s, q)`, with `got` delivered before it, goes on from the stream `s1`
      and the FIFO `q1` that `dynamic_receive` left. */
  lemma DrainResume(s: seq<Arrival>, q: seq<string>, got: seq<string>, total: Drain, s1: seq<Arrival>, q1: seq<string>)
    requires var d := DrainAll(s, q); total == Drain(d.st, got + d.got, d.inbound, d.recvd)
    requires DynRecv(s, q) == Received(Returned(true), s1, q1) && |q1| == |q| + 1
    ensures var d := DrainAll(s1, q1); total == Drain(d.st, (got + [q1[|q|]]) + d.got, d.inbound, d.recvd)
  {
    var m, d := q1[|q|], DrainAll(s1, q1);
    assert DrainAll(s, q) == Drain(d.st, [m] + d.got, d.inbound, d.recvd) by {
      DrainAllStep(s, q);
    }
    AppendOne(got, m, d.got);
  }

  /** A call of `dynamic_receive` that returns True makes the stream shorter. */
  lemma DeliveredShortens(s: seq<Arrival>, q: seq<string>, s1: seq<Arrival>, q1: seq<string>)
    requires DynRecv(s, q) == Received(Returned(true), s1, q1)
    ensures Measure(s1) < Measure(s)
  {
  }

  /** A call of `dynamic_receive` that returns True appends one message to the FIFO. */
  lemma DeliveredAppends(s: seq<Arrival>, q: seq<string>, s1: seq<Arrival>, q1: seq<string>)
    requires DynRecv(s, q) == Received(Returned(true), s1, q1)
    ensures |q1| == |q| + 1 && q1[..|q|] == q
  {
  }

  /** The loop of `receive_tcp_all` when `dynamic_receive` does not return True: the
      drain ends with that call. */
  lemma DrainStop(s: seq<Arrival>, q: seq<string>, got: seq<string>, total: Drain, st: Status, s1: seq<Arrival>, q1: seq<string>)
    requires var d := DrainAll(s, q); total == Drain(d.st, got + d.got, d.inbound, d.recvd)
    requires DynRecv(s, q) == Received(st, s1, q1) && st != Returned(true)
    ensures total == Drain(st, got, s1, q1)
  {
    DrainAllStep(s, q);
    assert got + [] == got;
  }

  /** `receive_tcp_all()` on a connection with or without a socket. */
  function ReceiveAll(hasSocket: bool, s: seq<Arrival>, q: seq<string>): Drain
  {
    if hasSocket then DrainAll(s, q) else Drain(Returned(false), [], s, q)
  }

  class Connection {
    var ip: Option<string>
    var port: Option<int>
    /** Whether a socket object exists (`self._socket is not None`). */
    var hasSocket: bool
    /** What the peer has sent that this socket's reads will meet. */
    var inbound: seq<Arrival>
    /** Everything this socket `sendall`-ed, one entry per call. */
    var wire: seq<string>
    /** `_msgs`: messages attached by discovery. */
    var msgs: seq<string>
    /** `_recvd_msgs`: the FIFO of received messages. */
    var recvd: seq<string>
    var saveSentMsgs: bool
    /** `_saved_smsgs`: the copy of sent messages kept when `saveSentMsgs` is set. */
    var savedSent: seq<string>

    constructor (ip: Option<string>, port: Option<int>, hasSocket: bool, inbound: seq<Arrival>, saveSentMsgs: bool)
      ensures this.ip == ip && this.port == port && this.hasSocket == hasSocket
      ensures this.inbound == inbound && this.saveSentMsgs == saveSentMsgs
      ensures wire == [] && msgs == [] && recvd == [] && savedSent == []
    {
      this.ip := ip;
      this.port := port;
      this.hasSocket := hasSocket;
      this.inbound := inbound;
      this.saveSentMsgs := saveSentMsgs;
      wire, msgs, recvd, savedSent := [], [], [], [];
    }

    /** `Connection.interrupted_server()`: the marker a discovery round returns when two
        hosts' replies interleaved; no socket, and the IP `'interrupted'`. */
    constructor Interrupted()
      ensures ip == Some("interrupted") && port == None && !hasSocket && inbound == []
      ensures !saveSentMsgs && wire == [] && msgs == [] && recvd == [] && savedSent == []
    {
      ip, port, hasSocket, inbound, saveSentMsgs := Some("interrupted"), None, false, [], false;
      wire, msgs, recvd, savedSent := [], [], [], [];
    }

    method AddMessage(m: string)
      modifies this`msgs
      ensures msgs == old(msgs) + [m]
    {
      msgs := msgs + [m];
    }

    // -------------------------------------------------------------------------
    // Receiving

    /** `receive_tcp(n)`: one `recv(n)`, appended to the FIFO; an empty read is taken
        back off, and a timeout or error happens before anything is appended. */
    method ReceiveTcp(n: int) returns (ok: bool)
      modifies this`recvd, this`inbound
      ensures !old(hasSocket) ==> !ok && inbound == old(inbound)
      ensures old(hasSocket) ==> inbound == Recv(old(inbound), n).rest
      ensures ok <==> hasSocket && Recv(old(inbound), n).read.Bytes? && Recv(old(inbound), n).read.data != ""
      ensures ok ==> recvd == old(recvd) + [Recv(old(inbound), n).read.data]
      ensures !ok ==> recvd == old(recvd)
    {
      if !hasSocket {
        return false;
      }
      var step := Recv(inbound, n);
      inbound := step.rest;
      match step.read {
        case TimedOut => return false;
        case Failed => return false;
        case Bytes(data) =>
          recvd := recvd + [data];
          if |recvd[|recvd| - 1]| == 0 {
            recvd := recvd[..|recvd| - 1];
            return false;
          }
          return true;
      }
    }

    /** Lines 188-200 of `dynamic_receive()`: read a header's worth and parse the length
        it announces. `len` is present exactly when the header is accepted, and then the
        header is the last entry of the FIFO; a rejected read leaves the FIFO as it was,
        and a length field `int()` refuses is a `ValueError` with the header left queued. */
    /** Lines 188-200 of `dynamic_receive()`: exactly `HeaderStep`; nothing at all
        without a socket. */
    method ReceiveHeader() returns (len: Option<int>, st: Status)
      modifies this`recvd, this`inbound
      ensures !old(hasSocket) ==> len.None? && st == Returned(false) && recvd == old(recvd) && inbound == old(inbound)
      ensures old(hasSocket) ==> HeaderRead(len, st, inbound, recvd) == HeaderStep(old(inbound), old(recvd))
    {
      var msg1Success := ReceiveTcp(DynamicHeaderBytes);
      if !msg1Success {
        return None, Returned(false);
      }
      var msg1 := recvd[|recvd| - 1];
      if !Contains(msg1, DynamicTag) {
        recvd := recvd[..|recvd| - 1];
        return None, Returned(false);
      }
      len := ParseInt(PySlice(msg1, 10, 15));
      st := if len.None? then Raised(ValueError) else Returned(true);
    }

    /** Lines 202-213 of `dynamic_receive()`, with the header last on the FIFO: exactly
        `PayloadStep`, double pop included. */
    method ReceivePayload(len: int) returns (again: bool, st: Status)
      requires hasSocket && recvd != []
      modifies this`recvd, this`inbound
      ensures FrameRead(again, st, inbound, recvd) == PayloadStep(old(inbound), old(recvd), len)
    {
      var msg2Success := ReceiveTcp(len);
      again := false;
      if !msg2Success {
        recvd := recvd[..|recvd| - 1];
        if recvd == [] {
          return false, Raised(IndexError);
        }
        recvd := recvd[..|recvd| - 1];
        return false, Returned(false);
      }
      recvd := recvd[..|recvd| - 2] + [recvd[|recvd| - 1]];
      again := recvd[|recvd| - 1] in SpecialCaseMsgs;
      if again {
        recvd := recvd[..|recvd| - 1];
      }
      st := Returned(true);
    }

    /** One pass of the loop in `dynamic_receive()`: exactly `FrameStep`. */
    method ReceiveFrame() returns (again: bool, st: Status)
      modifies this`recvd, this`inbound
      ensures !old(hasSocket) ==> !again && st == Returned(false) && recvd == old(recvd) && inbound == old(inbound)
      ensures old(hasSocket) ==> FrameRead(again, st, inbound, recvd) == FrameStep(old(inbound), old(recvd))
    {
      var len;
      len, st := ReceiveHeader();
      if len.None? {
        return false, st;
      }
      again, st := ReceivePayload(len.value);
    }

    /** `dynamic_receive()`: exactly `DynRecv`; False at once without a socket. */
    method DynamicReceive() returns (st: Status)
      modifies this`recvd, this`inbound
      ensures !old(hasSocket) ==> st == Returned(false) && recvd == old(recvd) && inbound == old(inbound)
      ensures old(hasSocket) ==> Received(st, inbound, recvd) == DynRecv(old(inbound), old(recvd))
    {
      var isSpecialCase := true;
      st := Returned(true);
      while isSpecialCase
        invariant !old(hasSocket) ==> isSpecialCase && recvd == old(recvd) && inbound == old(inbound)
        invariant old(hasSocket) && isSpecialCase ==> DynRecv(inbound, recvd) == DynRecv(old(inbound), old(recvd))
        invariant old(hasSocket) && !isSpecialCase ==>
          Received(Returned(true), inbound, recvd) == DynRecv(old(inbound), old(recvd))
        invariant st == Returned(true)
        decreases Measure(inbound), isSpecialCase
      {
        var outcome;
        isSpecialCase, outcome := ReceiveFrame();
        if !isSpecialCase && outcome != Returned(true) {
          return outcome;
        }
      }
    }

    /** `ReceivePayload` as evidently intended: exactly `PayloadStepFixed`. */
    method ReceivePayloadFixed(len: int) returns (again: bool, st: Status)
      requires hasSocket && recvd != []
      modifies this`recvd, this`inbound
      ensures FrameRead(again, st, inbound, recvd) == PayloadStepFixed(old(inbound), old(recvd), len)
    {
      var msg2Success := ReceiveTcp(len);
      again := false;
      if !msg2Success {
        recvd := recvd[..|recvd| - 1];
        return false, Returned(false);
      }
      recvd := recvd[..|recvd| - 2] + [recvd[|recvd| - 1]];
      again := recvd[|recvd| - 1] in SpecialCaseMsgs;
      if again {
        recvd := recvd[..|recvd| - 1];
      }
      st := Returned(true);
    }

    /** One pass of the corrected loop: exactly `FrameStepFixed`. */
    method ReceiveFrameFixed() returns (again: bool, st: Status)
      modifies this`recvd, this`inbound
      ensures !old(hasSocket) ==> !again && st == Returned(false) && recvd == old(recvd) && inbound == old(inbound)
      ensures old(hasSocket) ==> FrameRead(again, st, inbound, recvd) == FrameStepFixed(old(inbound), old(recvd))
    {
      var len;
      len, st := ReceiveHeader();
      if len.None? {
        return false, st;
      }
      again, st := ReceivePayloadFixed(len.value);
    }

    /** `dynamic_receive()` with the single pop: exactly `DynRecvFixed`. */
    method DynamicReceiveFixed() returns (st: Status)
      modifies this`recvd, this`inbound
      ensures !old(hasSocket) ==> st == Returned(false) && recvd == old(recvd) && inbound == old(inbound)
      ensures old(hasSocket) ==> Received(st, inbound, recvd) == DynRecvFixed(old(inbound), old(recvd))
    {
      var isSpecialCase := true;
      st := Returned(true);
      while isSpecialCase
        invariant !old(hasSocket) ==> isSpecialCase && recvd == old(recvd) && inbound == old(inbound)
        invariant old(hasSocket) && isSpecialCase ==> DynRecvFixed(inbound, recvd) == DynRecvFixed(old(inbound), old(recvd))
        invariant old(hasSocket) && !isSpecialCase ==>
          Received(Returned(true), inbound, recvd) == DynRecvFixed(old(inbound), old(recvd))
        invariant st == Returned(true)
        decreases Measure(inbound), isSpecialCase
      {
        var outcome;
        isSpecialCase, outcome := ReceiveFrameFixed();
        if !isSpecialCase && outcome != Returned(true) {
          return outcome;
        }
      }
    }

    /** `receive_tcp_all()`: exactly `ReceiveAll`; `got` are the messages delivered. */
    method ReceiveTcpAll() returns (st: Status, ghost got: seq<string>)
      modifies this`recvd, this`inbound
      ensures Drain(st, got, inbound, recvd) == ReceiveAll(old(hasSocket), old(inbound), old(recvd))
    {
      got := [];
      ghost var total := DrainAll(inbound, recvd);
      assert total == Drain(total.st, [] + total.got, total.inbound, total.recvd);
      while true
        invariant !hasSocket ==> got == [] && inbound == old(inbound) && recvd == old(recvd)
        invariant hasSocket ==>
          var d := DrainAll(inbound, recvd);
          total == Drain(d.st, got + d.got, d.inbound, d.recvd)
        decreases Measure(inbound)
      {
        ghost var here, held := inbound, recvd;
        st := DynamicReceive();
        if st != Returned(true) {
          if hasSocket {
            DrainStop(here, held, got, total, st, inbound, recvd);
          }
          return;
        }
        DeliveredShortens(here, held, inbound, recvd);
        DeliveredAppends(here, held, inbound, recvd);
        DrainResume(here, held, got, total, inbound, recvd);
        got := got + [recvd[|held|]];
      }
    }

    method ClearRecvdMessages()
      modifies this`recvd
      ensures recvd == []
    {
      recvd := [];
    }

    /** `remove_first_recvd_message()`: `pop(0)`; on an empty FIFO Python raises
        `IndexError`, here `None`. */
    method RemoveFirstRecvdMessage() returns (m: Option<string>)
      modifies this`recvd
      ensures old(recvd) == [] ==> m == None && recvd == []
      ensures old(recvd) != [] ==> m == Some(old(recvd)[0]) && recvd == old(recvd)[1..]
    {
      if recvd == [] {
        return None;
      }
      m := Some(recvd[0]);
      recvd := recvd[1..];
    }

    // -------------------------------------------------------------------------
    // Sending

    /** `send_tcp(message)`: one `sendall` when a socket exists. */
    method SendTcp(message: string) returns (ok: bool)
      modifies this`wire, this`savedSent
      ensures ok == hasSocket
      ensures wire == old(wire) + (if ok then [message] else [])
      ensures savedSent == old(savedSent) + (if ok && saveSentMsgs then [message] else [])
    {
      if hasSocket {
        wire := wire + [message];
        if saveSentMsgs {
          savedSent := savedSent + [message];
        }
        return true;
      }
      return false;
    }

    /** `dynamic_send(msg)`: the header, then the payload; nothing at all without a socket. */
    method DynamicSend(msg: string) returns (ok: bool)
      modifies this`wire, this`savedSent
      ensures ok == hasSocket
      ensures wire == old(wire) + (if ok then [FrameHeader(|msg|), msg] else [])
      ensures savedSent == old(savedSent) + (if ok && saveSentMsgs then [FrameHeader(|msg|), msg] else [])
    {
      var msg1 := FrameHeader(|msg|);
      var msg2 := msg;
      var sent := SendTcp(msg1);
      if sent {
        var _ := SendTcp(msg2);
        return true;
      }
      return false;
    }

    method ClearSavedSentMessages()
      modifies this`savedSent
      ensures savedSent == []
    {
      savedSent := [];
    }
  }
  // ---------------------------------------------------------------------------
  // Two connections joined back to back: what one side writes, the other reads.

  /** The writes of `dynamic_send(p)` for each `p` of `ps` in turn. */
  function Framed(ps: seq<string>): seq<string>
  {
    if ps == [] then [] else [FrameHeader(|ps[0]|), ps[0]] + Framed(ps[1..])
  }

  /** The entries of `ps` that are not protocol messages, in order. */
  function Payloads(ps: seq<string>): seq<string>
  {
    if ps == [] then [] else (if ps[0] in SpecialCaseMsgs then [] else [ps[0]]) + Payloads(ps[1..])
  }

  lemma ArrivalsOfCons(w: string, rest: seq<string>)
    requires w != ""
    ensures ArrivalsOf([w] + rest) == [Chunk(w)] + ArrivalsOf(rest)
  {
    assert ([w] + rest)[1..] == rest;
  }

  lemma ArrivalsOfFramed(ps: seq<string>)
    requires ps != [] && ps[0] != ""
    ensures ArrivalsOf(Framed(ps)) == [Chunk(FrameHeader(|ps[0]|)), Chunk(ps[0])] + ArrivalsOf(Framed(ps[1..]))
  {
    var h, rest := FrameHeader(|ps[0]|), Framed(ps[1..]);
    assert Framed(ps) == [h] + ([ps[0]] + rest) by {
      assert [h, ps[0]] + rest == [h] + ([ps[0]] + rest);
    }
    ArrivalsOfCons(h, [ps[0]] + rest);
    ArrivalsOfCons(ps[0], rest);
    var a := ArrivalsOf(rest);
    assert [Chunk(h)] + ([Chunk(ps[0])] + a) == [Chunk(h), Chunk(ps[0])] + a;
  }

  /** `receive_tcp_all` on a closed connection reads nothing and changes nothing. */
  lemma DrainClosed(q: seq<string>)
    ensures DrainAll([], q) == Drain(Returned(false), [], [], q)
  {
    DrainAllStep([], q);
    DynRecvFirstRead([], q);
  }

  /** `receive_tcp_all` meeting one whole frame: a probe is skipped, a payload is
      appended and counted as delivered. */
  lemma DrainAfterFrame(p: string, t: seq<Arrival>, q: seq<string>)
    requires 0 < |p| < 100000
    ensures var s := [Chunk(FrameHeader(|p|)), Chunk(p)] + t;
      if p in SpecialCaseMsgs then DrainAll(s, q) == DrainAll(t, q)
      else
        var d := DrainAll(t, q + [p]);
        DrainAll(s, q) == Drain(d.st, [p] + d.got, d.inbound, d.recvd)
  {
    var s := [Chunk(FrameHeader(|p|)), Chunk(p)] + t;
    FrameOnWire(p, t);
    DrainAllStep(s, q);
    if p in SpecialCaseMsgs {
      assert DynRecv(s, q) == DynRecv(t, q);
      DrainAllStep(t, q);
    } else {
      assert DynRecv(s, q) == Received(Returned(true), t, q + [p]);
    }
  }

  /** `receive_tcp_all` on a connection whose peer `dynamic_send`-ed each of `ps` in turn
      and then closed: exactly the payloads meant for the application are appended, in
      order, they are what it reports as delivered, and the stream is used up. */
  lemma {:induction false} DrainFramed(ps: seq<string>, q: seq<string>)
    requires forall k :: 0 <= k < |ps| ==> 0 < |ps[k]| < 100000
    ensures DrainAll(ArrivalsOf(Framed(ps)), q) == Drain(Returned(false), Payloads(ps), [], q + Payloads(ps))
    decreases |ps|
  {
    if ps == [] {
      DrainClosed(q);
      assert q + [] == q;
    } else if ps[0] in SpecialCaseMsgs {
      DrainFramed(ps[1..], q);
      DrainFramedProbe(ps, q);
    } else {
      DrainFramed(ps[1..], q + [ps[0]]);
      DrainFramedPayload(ps, q);
    }
  }

  /** The step of `DrainFramed` for a probe: it is skipped. */
  lemma DrainFramedProbe(ps: seq<string>, q: seq<string>)
    requires ps != [] && 0 < |ps[0]| < 100000 && ps[0] in SpecialCaseMsgs
    requires var later := Payloads(ps[1..]);
      DrainAll(ArrivalsOf(Framed(ps[1..])), q) == Drain(Returned(false), later, [], q + later)
    ensures DrainAll(ArrivalsOf(Framed(ps)), q) == Drain(Returned(false), Payloads(ps), [], q + Payloads(ps))
  {
    var p, t := ps[0], ArrivalsOf(Framed(ps[1..]));
    ArrivalsOfFramed(ps);
    DrainAfterFrame(p, t, q);
    PayloadsCons(ps);
    assert [] + Payloads(ps[1..]) == Payloads(ps[1..]);
  }

  /** The step of `DrainFramed` for a payload: it is delivered first. */
  lemma DrainFramedPayload(ps: seq<string>, q: seq<string>)
    requires ps != [] && 0 < |ps[0]| < 100000 && ps[0] !in SpecialCaseMsgs
    requires var later := Payloads(ps[1..]);
      DrainAll(ArrivalsOf(Framed(ps[1..])), q + [ps[0]]) == Drain(Returned(false), later, [], q + [ps[0]] + later)
    ensures DrainAll(ArrivalsOf(Framed(ps)), q) == Drain(Returned(false), Payloads(ps), [], q + Payloads(ps))
  {
    var p, t, later := ps[0], ArrivalsOf(Framed(ps[1..])), Payloads(ps[1..]);
    ArrivalsOfFramed(ps);
    DrainAfterFrame(p, t, q);
    PayloadsCons(ps);
    assert q + [p] + later == q + ([p] + later);
  }

  lemma PayloadsCons(ps: seq<string>)
    requires ps != []
    ensures Payloads(ps) == (if ps[0] in SpecialCaseMsgs then [] else [ps[0]]) + Payloads(ps[1..])
  {
  }

  /** The wire after `dynamic_send('!CON!')` and `dynamic_send(p)`, as the receiver sees it. */
  lemma ProbeThenFrame(p: string)
    requires 0 < |p| < 100000 && p !in SpecialCaseMsgs
    ensures SkipProbes(ArrivalsOf([FrameHeader(5), "!CON!", FrameHeader(|p|), p]))
              == [Chunk(FrameHeader(|p|)), Chunk(p)]
    ensures FrameAhead([Chunk(FrameHeader(|p|)), Chunk(p)])
  {
    var f := [Chunk(FrameHeader(|p|)), Chunk(p)];
    ArrivalsOfTwoFrames(p);
    FrameOnWire("!CON!", f);
    FrameOnWire(p, []);
    assert f + [] == f;
  }

  /** The chunks of a probe frame followed by a frame for `p`. */
  lemma ArrivalsOfTwoFrames(p: string)
    requires p != ""
    ensures ArrivalsOf([FrameHeader(5), "!CON!", FrameHeader(|p|), p])
              == [Chunk(FrameHeader(5)), Chunk("!CON!")] + [Chunk(FrameHeader(|p|)), Chunk(p)]
  {
    var w := [FrameHeader(5), "!CON!", FrameHeader(|p|), p];
    var f := [Chunk(FrameHeader(|p|)), Chunk(p)];
    assert ArrivalsOf(w[2..]) == f by {
      assert w[2..][1..] == [p] && [p][1..] == [];
      assert ArrivalsOf([p]) == [Chunk(p)];
    }
    assert w[1..][1..] == w[2..];
    assert ArrivalsOf(w[1..]) == [Chunk("!CON!")] + f;
  }

  /** A liveness probe followed by a payload, sent by one side, leaves exactly that
      payload behind whatever the receiver had queued before. */
  method Loopback(payload: string, queued: seq<string>) returns (st: Status, left: seq<string>)
    requires 0 < |payload| < 100000 && payload !in SpecialCaseMsgs
    ensures st == Returned(true) && left == queued + [payload]
  {
    var sender := new Connection(Some("127.0.0.1"), Some(5000), true, [], false);
    var _ := sender.DynamicSend("!CON!");
    var _ := sender.DynamicSend(payload);
    assert sender.wire == [FrameHeader(5), "!CON!", FrameHeader(|payload|), payload];
    var receiver := new Connection(Some("127.0.0.1"), Some(5000), true, ArrivalsOf(sender.wire), false);
    receiver.recvd := queued;
    ReadProbeThenFrame(payload, queued);
    st := receiver.DynamicReceive();
    left := receiver.recvd;
  }

  /** `dynamic_receive` on the chunks of a probe frame and a frame for `p`. */
  lemma ReadProbeThenFrame(p: string, q: seq<string>)
    requires 0 < |p| < 100000 && p !in SpecialCaseMsgs
    ensures DynRecv(ArrivalsOf([FrameHeader(5), "!CON!", FrameHeader(|p|), p]), q)
              == Received(Returned(true), [], q + [p])
  {
    var s := ArrivalsOf([FrameHeader(5), "!CON!", FrameHeader(|p|), p]);
    var f := [Chunk(FrameHeader(|p|)), Chunk(p)];
    ProbeThenFrame(p);
    DynRecvSkipsProbes(s, q);
    assert f[2..] == [] && f[1].data == p;
  }

  /** A header announcing five bytes whose payload never comes, read by a receiver that
      already holds `queued`. */
  method TruncatedFrameAsWritten(queued: seq<string>) returns (st: Status, left: seq<string>)
    ensures queued == [] ==> st == Raised(IndexError) && left == []
    ensures queued != [] ==> st == Returned(false) && left == DropLast(queued)
  {
    var receiver := new Connection(Some("127.0.0.1"), Some(5000), true, [Chunk(FrameHeader(5)), Stall], false);
    receiver.recvd := queued;
    ReadTruncatedFrame(queued);
    st := receiver.DynamicReceive();
    left := receiver.recvd;
  }

  /** `dynamic_receive` on a header announcing five bytes followed by a timeout. */
  lemma ReadTruncatedFrame(q: seq<string>)
    ensures var r := DynRecv([Chunk(FrameHeader(5)), Stall], q);
      && (q == [] ==> r.st == Raised(IndexError) && r.recvd == [])
      && (q != [] ==> r.st == Returned(false) && r.recvd == DropLast(q))
  {
    var s := [Chunk(FrameHeader(5)), Stall];
    HeaderOnWire(5, [Stall]);
    assert s == [Chunk(FrameHeader(5))] + [Stall];
    assert PayloadLost(s);
    assert SkipProbes(s) == s;
    DynRecvSkipsProbes(s, q);
  }

  /** The same stream read by the corrected receive: the queued messages stay. */
  method TruncatedFrameFixed(queued: seq<string>) returns (st: Status, left: seq<string>)
    ensures st == Returned(false) && left == queued
  {
    FrameOnWire("hello", []);
    var receiver := new Connection(Some("127.0.0.1"), Some(5000), true, [Chunk(FrameHeader(5)), Stall], false);
    receiver.recvd := queued;
    st := receiver.DynamicReceiveFixed();
    left := receiver.recvd;
  }

  /** `dynamic_send('')`: a header announcing no bytes and then an empty write, which puts
      nothing on the wire. The receiver's `recv(0)` gives `b''`, so the same double pop
      follows, and an empty message costs the receiver the message queued before it. */
  method EmptyPayloadAsWritten(queued: seq<string>) returns (st: Status, left: seq<string>)
    ensures queued == [] ==> st == Raised(IndexError) && left == []
    ensures queued != [] ==> st == Returned(false) && left == DropLast(queued)
  {
    var sender := new Connection(Some("127.0.0.1"), Some(5000), true, [], false);
    var _ := sender.DynamicSend("");
    assert sender.wire == [FrameHeader(0)] + [""];
    ArrivalsOfCons(FrameHeader(0), [""]);
    assert ArrivalsOf([""]) == [] by {
      assert [""][1..] == [];
    }
    var receiver := new Connection(Some("127.0.0.1"), Some(5000), true, ArrivalsOf(sender.wire), false);
    receiver.recvd := queued;
    HeaderOnWire(0, []);
    assert receiver.inbound == [Chunk(FrameHeader(0))] + [];
    assert PayloadLost(receiver.inbound);
    assert SkipProbes(receiver.inbound) == receiver.inbound;
    DynRecvSkipsProbes(receiver.inbound, queued);
    st := receiver.DynamicReceive();
    left := receiver.recvd;
  }

  /** The same empty message read by the corrected receive: the queued messages stay. */
  method EmptyPayloadFixed(queued: seq<string>) returns (st: Status, left: seq<string>)
    ensures st == Returned(false) && left == queued
  {
    var sender := new Connection(Some("127.0.0.1"), Some(5000), true, [], false);
    var _ := sender.DynamicSend("");
    assert sender.wire == [FrameHeader(0)] + [""];
    ArrivalsOfCons(FrameHeader(0), [""]);
    assert ArrivalsOf([""]) == [] by {
      assert [""][1..] == [];
    }
    var receiver := new Connection(Some("127.0.0.1"), Some(5000), true, ArrivalsOf(sender.wire), false);
    receiver.recvd := queued;
    HeaderOnWire(0, []);
    assert receiver.inbound == [Chunk(FrameHeader(0))] + [];
    assert PayloadLost(receiver.inbound);
    assert SkipProbes(receiver.inbound) == receiver.inbound;
    st := receiver.DynamicReceiveFixed();
    left := receiver.recvd;
  }
}
