/** lan/lan.py: the client side of LAN discovery. `check_lan_servers(port)` broadcasts
    three probes, then reads replies until a read times out. A reply is a pair of
    datagrams from one host: a 27-byte header `PYMULT_SERVER_RESPONSE(` + size + `)`,
    then a payload of that size. The receiving socket is the datagram sequence of module
    Sockets; an empty sequence, or a quiet period, is the timeout that ends the scan. */
module Discovery {
  import opened Outcomes
  import opened Text
  import opened Sockets
  import opened Connections
  import Responder

  const BroadcastIp: string := "255.255.255.255"
  const ProbeCount: nat := 3

  /** The read size of a reply header. */
  const ReplyHeaderBytes: nat := 27

  /** What the scan found: a host at an IP with the payload it sent, or the marker that two
      hosts' replies interleaved. */
  datatype Host = Found(ip: string, payload: string) | Interrupted

  /** A scan ends with the hosts found, or with the `ValueError` that escapes when a header's
      size field is not a number or is negative. */
  datatype Scan = Hosts(hosts: seq<Host>) | ScanFailed

  /** The test a first datagram must pass. */
  predicate ValidHeader(msg: string)
  {
    |msg| == ReplyHeaderBytes && Contains(msg, Responder.ResponseTag)
  }

  function Prepend(h: Host, r: Scan): Scan
  {
    if r.Hosts? then Hosts([h] + r.hosts) else r
  }

  function Join(found: seq<Host>, r: Scan): Scan
  {
    if r.Hosts? then Hosts(found + r.hosts) else r
  }

  /** The scan over what the receiving socket will meet: the reference for the loop in
      `check_lan_servers`. */
  function ScanReplies(inbox: seq<Delivery>): (r: Scan)
    ensures r.Hosts? ==> 2 * |r.hosts| <= |inbox|
    decreases |inbox|
  {
    var (d1, rest) := RecvFrom(inbox, ReplyHeaderBytes);
    if d1.None? then Hosts([])
    else if !ValidHeader(d1.value.data) then ScanReplies(rest)
    else
      var size := ParseInt(PySlice(d1.value.data, 23, 26));
      if size.None? || size.value < 0 then ScanFailed
      else
        var (d2, rest2) := RecvFrom(rest, size.value);
        if d2.None? then Hosts([])
        else if d1.value.addr != d2.value.addr then Hosts([Interrupted])
        else Prepend(Found(d1.value.addr.ip, d2.value.data), ScanReplies(rest2))
  }

  // ---------------------------------------------------------------------------
  // What the scan promises.

  /** The interleaving marker, when present, is the last host, and there is one at most. */
  lemma {:induction false} ScanSentinelLast(inbox: seq<Delivery>)
    ensures ScanReplies(inbox).Hosts? ==>
      forall k :: 0 <= k < |ScanReplies(inbox).hosts| - 1 ==> ScanReplies(inbox).hosts[k].Found?
    decreases |inbox|
  {
    var (d1, rest) := RecvFrom(inbox, ReplyHeaderBytes);
    if d1.Some? {
      if !ValidHeader(d1.value.data) {
        ScanSentinelLast(rest);
      } else {
        var size := ParseInt(PySlice(d1.value.data, 23, 26));
        if size.Some? && size.value >= 0 {
          var (d2, rest2) := RecvFrom(rest, size.value);
          if d2.Some? && d1.value.addr == d2.value.addr {
            ScanSentinelLast(rest2);
            var tail := ScanReplies(rest2);
            if tail.Hosts? {
              var hs := [Found(d1.value.addr.ip, d2.value.data)] + tail.hosts;
              assert ScanReplies(inbox).hosts == hs;
              forall k | 0 <= k < |hs| - 1 ensures hs[k].Found? {
                if k > 0 { assert hs[k] == tail.hosts[k - 1]; }
              }
            }
          }
        }
      }
    }
  }

  /** A host's reply, both datagrams from one address, is found with its payload, the
      size header being the one a responder writes. */
  lemma ScanFindsReply(a: Addr, payload: string, tail: seq<Delivery>)
    requires |payload| < 1000
    ensures ScanReplies([Packet(Datagram(Responder.ReplyHeader(|payload|), a)), Packet(Datagram(payload, a))] + tail)
            == Prepend(Found(a.ip, payload), ScanReplies(tail))
  {
    var h := Responder.ReplyHeader(|payload|);
    Responder.ReplyHeaderShape(|payload|);
    var inbox := [Packet(Datagram(h, a)), Packet(Datagram(payload, a))] + tail;
    var rest := [Packet(Datagram(payload, a))] + tail;
    assert RecvFrom(inbox, ReplyHeaderBytes) == (Some(Datagram(h, a)), rest) by {
      assert inbox[0] == Packet(Datagram(h, a)) && inbox[1..] == rest;
      assert Cut(h, ReplyHeaderBytes) == h;
    }
    assert ValidHeader(h);
    assert RecvFrom(rest, |payload|) == (Some(Datagram(payload, a)), tail) by {
      assert rest[1..] == tail;
      assert Cut(payload, |payload|) == payload;
    }
  }

  /** A header datagram followed by a datagram from another address ends the scan with
      the interleaving marker. */
  lemma ScanInterleaved(h: Datagram, other: Datagram, tail: seq<Delivery>)
    requires ValidHeader(h.data)
    requires ParseInt(PySlice(h.data, 23, 26)).Some? && ParseInt(PySlice(h.data, 23, 26)).value >= 0
    requires other.addr != h.addr
    ensures ScanReplies([Packet(h), Packet(other)] + tail) == Hosts([Interrupted])
  {
    var inbox := [Packet(h), Packet(other)] + tail;
    assert inbox[1..] == [Packet(other)] + tail;
  }

  /** A first datagram that fails the header test is skipped; nothing else is read for it. */
  lemma ScanSkipsInvalid(d: Datagram, tail: seq<Delivery>)
    requires !ValidHeader(Cut(d.data, ReplyHeaderBytes))
    ensures ScanReplies([Packet(d)] + tail) == ScanReplies(tail)
  {
    assert ([Packet(d)] + tail)[1..] == tail;
  }

  /** A timeout, including one right after a header, ends the scan with nothing more. */
  lemma ScanStopsOnTimeout(h: Datagram, tail: seq<Delivery>)
    requires ValidHeader(h.data)
    requires ParseInt(PySlice(h.data, 23, 26)).Some? && ParseInt(PySlice(h.data, 23, 26)).value >= 0
    ensures ScanReplies([Quiet] + tail) == Hosts([])
    ensures ScanReplies([Packet(h)]) == Hosts([]) && ScanReplies([Packet(h), Quiet] + tail) == Hosts([])
  {
    assert ([Packet(h), Quiet] + tail)[1..] == [Quiet] + tail;
  }

  /** A size field that `int()` refuses makes the scan fail, whatever was found before. */
  lemma ScanFailsOnBadSize(a: Addr, payload: string, bad: Datagram, tail: seq<Delivery>)
    requires |payload| < 1000
    requires ValidHeader(bad.data)
    requires ParseInt(PySlice(bad.data, 23, 26)).None?
    ensures ScanReplies([Packet(Datagram(Responder.ReplyHeader(|payload|), a)), Packet(Datagram(payload, a)), Packet(bad)] + tail)
            == ScanFailed
  {
    ScanFindsReply(a, payload, [Packet(bad)] + tail);
    assert [Packet(Datagram(Responder.ReplyHeader(|payload|), a)), Packet(Datagram(payload, a)), Packet(bad)] + tail
        == [Packet(Datagram(Responder.ReplyHeader(|payload|), a)), Packet(Datagram(payload, a))] + ([Packet(bad)] + tail);
    assert ([Packet(bad)] + tail)[1..] == tail;
  }

  /** One round of the receive loop, read off the definition of the scan. */
  lemma ScanStep(rest: seq<Delivery>)
    ensures var (d1, rest1) := RecvFrom(rest, ReplyHeaderBytes);
      if d1.None? then ScanReplies(rest) == Hosts([])
      else if !ValidHeader(d1.value.data) then ScanReplies(rest) == ScanReplies(rest1)
      else
        var size := ParseInt(PySlice(d1.value.data, 23, 26));
        if size.None? || size.value < 0 then ScanReplies(rest) == ScanFailed
        else
          var (d2, rest2) := RecvFrom(rest1, size.value);
          if d2.None? then ScanReplies(rest) == Hosts([])
          else if d1.value.addr != d2.value.addr then ScanReplies(rest) == Hosts([Interrupted])
          else ScanReplies(rest) == Prepend(Found(d1.value.addr.ip, d2.value.data), ScanReplies(rest2))
  {
  }

  lemma JoinPrepend(found: seq<Host>, h: Host, r: Scan)
    ensures Join(found, Prepend(h, r)) == Join(found + [h], r)
  {
    if r.Hosts? {
      assert found + ([h] + r.hosts) == (found + [h]) + r.hosts;
    }
  }

  // ---------------------------------------------------------------------------

  /** The connection object the scan builds for a host. */
  predicate Describes(c: Connection, h: Host, port: int)
    reads c
  {
    && !c.hasSocket && c.inbound == [] && c.recvd == [] && c.wire == [] && c.savedSent == [] && !c.saveSentMsgs
    && match h
       case Found(ip, payload) => c.ip == Some(ip) && c.port == Some(port) && c.msgs == [payload]
       case Interrupted => c.ip == Some("interrupted") && c.port == None && c.msgs == []
  }

  /** `Connection(ip=addr1[0], port=port)` and then `add_message(msg2)`: the connection
      kept for a host that replied. */
  method HostConnection(ip: string, port: int, payload: string) returns (c: Connection)
    ensures fresh(c) && Describes(c, Found(ip, payload), port)
  {
    c := new Connection(Some(ip), Some(port), false, [], false);
    c.AddMessage(payload);
  }

  /** `check_lan_servers(port)`: the three probes, then the receive loop. `raised` is the
      `ValueError` of a bad size field, which escapes and discards what was found. */
  method CheckLanServers(port: int, inbox: seq<Delivery>) returns (probes: seq<Datagram>, conns: seq<Connection>, raised: bool)
    ensures probes == seq(ProbeCount, _ => Datagram(Responder.BroadcastProbe, Addr(BroadcastIp, port)))
    ensures raised <==> ScanReplies(inbox).ScanFailed?
    ensures !raised ==> |conns| == |ScanReplies(inbox).hosts|
    ensures !raised ==> forall k :: 0 <= k < |conns| ==> fresh(conns[k]) && Describes(conns[k], ScanReplies(inbox).hosts[k], port)
  {
    probes := [];
    for i := 0 to ProbeCount
      invariant probes == seq(i, _ => Datagram(Responder.BroadcastProbe, Addr(BroadcastIp, port)))
    {
      probes := probes + [Datagram(Responder.BroadcastProbe, Addr(BroadcastIp, port))];
    }
    conns := [];
    raised := false;
    var rest := inbox;
    ghost var found: seq<Host> := [];
    while true
      invariant ScanReplies(inbox) == Join(found, ScanReplies(rest))
      invariant |conns| == |found|
      invariant forall k :: 0 <= k < |conns| ==> fresh(conns[k]) && Describes(conns[k], found[k], port)
      decreases |rest|
    {
      ScanStep(rest);
      var got1 := RecvFrom(rest, ReplyHeaderBytes);
      rest := got1.1;
      if got1.0.None? {
        break;
      }
      var msg1, addr1 := got1.0.value.data, got1.0.value.addr;
      if !(|msg1| == ReplyHeaderBytes && Contains(msg1, Responder.ResponseTag)) {
        continue;
      }
      var msg2Size := ParseInt(PySlice(msg1, 23, 26));
      if msg2Size.None? || msg2Size.value < 0 {
        return probes, conns, true;
      }
      var got2 := RecvFrom(rest, msg2Size.value);
      rest := got2.1;
      if got2.0.None? {
        break;
      }
      if addr1 != got2.0.value.addr {
        var c := new Connection.Interrupted();
        conns := conns + [c];
        found := found + [Interrupted];
        break;
      }
      JoinPrepend(found, Found(addr1.ip, got2.0.value.data), ScanReplies(rest));
      var c := HostConnection(addr1.ip, port, got2.0.value.data);
      conns := conns + [c];
      found := found + [Found(addr1.ip, got2.0.value.data)];
    }
  }
}
