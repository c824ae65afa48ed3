/** lan/client_handler.py: the host's registry of connected clients. It accepts the
    clients waiting on the listening socket, fans a framed send out to each of them, and
    drains what each one sent into a single queue. The listening socket is the finite
    sequence of peers waiting to be accepted; when it is exhausted, `accept` times out. */
module Clients {
  import opened Outcomes
  import opened Sockets
  import opened Connections

  /** A peer waiting in the listen backlog: its address and what it will send. */
  datatype Peer = Peer(ip: string, port: int, inbound: seq<Arrival>)

  function Concat(ss: seq<seq<string>>): seq<string>
  {
    if ss == [] then [] else ss[0] + Concat(ss[1..])
  }

  lemma {:induction false} ConcatAppend(ss: seq<seq<string>>, s: seq<string>)
    ensures Concat(ss + [s]) == Concat(ss) + s
    decreases |ss|
  {
    if ss == [] {
      assert [] + [s] == [s];
    } else {
      assert (ss + [s])[1..] == ss[1..] + [s];
      ConcatAppend(ss[1..], s);
    }
  }

  /** Sequence concatenation is associative (used for the handler's FIFO). */
  lemma Associate(a: seq<string>, b: seq<string>, c: seq<string>)
    ensures (a + b) + c == a + (b + c)
  {
  }

  /** What a client's FIFO can hold after `receive_tcp_all` has returned: everything it
      held before followed by what it read, or that less its last entry (the double pop of
      a failed payload read). */
  predicate Drained(before: seq<string>, after: seq<string>)
  {
    (|before| <= |after| && after[..|before|] == before)
    || (before != [] && |before| - 1 <= |after| && after[..|before| - 1] == DropLast(before))
  }

  /** The FIFO left by `receive_tcp_all` in each of the ways it can return. */
  lemma DrainedAfterReceiveAll(before: seq<string>, got: seq<string>, after: seq<string>)
    requires after == before + got || (before + got != [] && after == DropLast(before + got))
    ensures Drained(before, after)
  {
    if after != before + got && got != [] {
      assert after[..|before|] == before;
    }
  }

  /** How `receive_tcp_all_clients` leaves a client it has drained, given the client's
      socket, stream and FIFO `(h, s, q)` before: `receive_tcp_all` returned; `held`,
      everything the client's FIFO then held, is what the handler takes; the client is
      left with the stream `s1` that `receive_tcp_all` left and the empty FIFO `q1`. */
  predicate Emptied(h: bool, s: seq<Arrival>, q: seq<string>, held: seq<string>, s1: seq<Arrival>, q1: seq<string>)
  {
    var d := ReceiveAll(h, s, q);
    && d.st.Returned? && held == d.recvd && s1 == d.inbound && q1 == []
    && Drained(q, held)
  }

  /** How an exception from `receive_tcp_all` leaves the client: exactly as
      `receive_tcp_all` left it. */
  predicate Raising(h: bool, s: seq<Arrival>, q: seq<string>, s1: seq<Arrival>, q1: seq<string>)
  {
    var d := ReceiveAll(h, s, q);
    d.st.Raised? && s1 == d.inbound && q1 == d.recvd
  }

  /** The connection the handler makes for an accepted peer. */
  predicate Accepted(c: Connection, p: Peer)
    reads c
  {
    && c.ip == Some(p.ip) && c.port == Some(p.port) && c.hasSocket && c.inbound == p.inbound
    && c.recvd == [] && c.wire == [] && c.msgs == [] && !c.saveSentMsgs && c.savedSent == []
  }

  class ClientHandler {
    var port: int
    /** `_clients`, in accept order. */
    var clients: seq<Connection>
    /** `_recvd_msgs` of the handler itself: every client's messages, drained. */
    var recvd: seq<string>
    /** The peers the listening socket has yet to accept. */
    var pending: seq<Peer>

    /** Every client is its own connection object. */
    predicate Valid()
      reads this
    {
      forall i, j :: 0 <= i < j < |clients| ==> clients[i] != clients[j]
    }

    constructor (port: int, pending: seq<Peer>)
      ensures this.port == port && this.pending == pending && clients == [] && recvd == []
      ensures Valid()
    {
      this.port := port;
      this.pending := pending;
      clients, recvd := [], [];
    }

    /** `has_clients()`. */
    predicate HasClients()
      reads this
      ensures HasClients() <==> clients != []
    {
      |clients| > 0
    }

    /** `accept_clients()`: accept until the backlog is empty (the timeout), one new
        connection per peer in accept order; `n` is how many. */
    method AcceptClients() returns (n: nat)
      requires Valid()
      modifies this`clients, this`pending
      ensures Valid()
      ensures n == |old(pending)| && pending == []
      ensures |clients| == |old(clients)| + n && clients[..|old(clients)|] == old(clients)
      ensures forall k :: |old(clients)| <= k < |clients| ==> fresh(clients[k])
      ensures forall k :: 0 <= k < n ==> Accepted(clients[|old(clients)| + k], old(pending)[k])
      ensures HasClients() <==> old(HasClients()) || n > 0
    {
      n := 0;
      while pending != []
        invariant Valid()
        invariant n + |pending| == |old(pending)| && pending == old(pending)[n..]
        invariant |clients| == |old(clients)| + n && clients[..|old(clients)|] == old(clients)
        invariant forall k :: |old(clients)| <= k < |clients| ==> fresh(clients[k])
        invariant forall k :: 0 <= k < n ==> Accepted(clients[|old(clients)| + k], old(pending)[k])
        decreases |pending|
      {
        var peer := pending[0];
        pending := pending[1..];
        var client := new Connection(Some(peer.ip), Some(peer.port), true, peer.inbound, false);
        assert peer == old(pending)[n];
        clients := clients + [client];
        n := n + 1;
      }
    }

    /** The inner loop of `receive_tcp_all_clients`: append each message in turn. */
    method AppendAll(msgs: seq<string>)
      modifies this`recvd
      ensures recvd == old(recvd) + msgs
    {
      for j := 0 to |msgs|
        invariant recvd == old(recvd) + msgs[..j]
      {
        recvd := recvd + [msgs[j]];
      }
      assert msgs[..|msgs|] == msgs;
    }

    /** The body of the loop of `receive_tcp_all_clients` for one client: the client is
        drained exactly as `receive_tcp_all` does it; when that returns, everything the
        client then holds is appended to the handler's FIFO and the client's is cleared;
        when it raises, the exception escapes with the handler's FIFO untouched. */
    method DrainClient(client: Connection) returns (st: Status, ghost msgs: seq<string>)
      modifies this`recvd, client`recvd, client`inbound
      ensures st == ReceiveAll(old(client.hasSocket), old(client.inbound), old(client.recvd)).st
      ensures st.Returned? ==>
        && Emptied(old(client.hasSocket), old(client.inbound), old(client.recvd), msgs, client.inbound, client.recvd)
        && recvd == old(recvd) + msgs
      ensures st.Raised? ==>
        && Raising(old(client.hasSocket), old(client.inbound), old(client.recvd), client.inbound, client.recvd)
        && recvd == old(recvd)
    {
      var r, got := client.ReceiveTcpAll();
      if r.Raised? {
        return r, [];
      }
      var held := client.recvd;
      msgs := held;
      assert old(client.recvd) + [] == old(client.recvd);
      DrainedAfterReceiveAll(old(client.recvd), got, held);
      AppendAll(held);
      client.ClearRecvdMessages();
      st := r;
    }

    /** `receive_tcp_all_clients()`: drain every client into the handler's FIFO, in client
        order, clearing each client's own FIFO; the result says whether the FIFO grew. An
        exception from a client's `receive_tcp_all` escapes at once, leaving that client as
        the exception found it and the later ones untouched. `drained[k]` is what client
        `k` held once drained. */
    method ReceiveTcpAllClients() returns (st: Status, ghost drained: seq<seq<string>>)
      requires Valid()
      modifies this`recvd, clients`recvd, clients`inbound
      ensures |drained| <= |clients| && recvd == old(recvd) + Concat(drained)
      ensures forall k :: 0 <= k < |drained| ==>
        Emptied(old(clients[k].hasSocket), old(clients[k].inbound), old(clients[k].recvd),
                drained[k], clients[k].inbound, clients[k].recvd)
      ensures st.Returned? ==> |drained| == |clients| && (st.value <==> |recvd| > |old(recvd)|)
      ensures st.Raised? ==>
        && |drained| < |clients|
        && var c := clients[|drained|];
           && st == ReceiveAll(old(c.hasSocket), old(c.inbound), old(c.recvd)).st
           && Raising(old(c.hasSocket), old(c.inbound), old(c.recvd), c.inbound, c.recvd)
      ensures forall k :: |drained| < k < |clients| ==>
        clients[k].recvd == old(clients[k].recvd) && clients[k].inbound == old(clients[k].inbound)
    {
      var lenBefore := |recvd|;
      drained := [];
      var i := 0;
      while i < |clients|
        invariant Valid()
        invariant 0 <= i <= |clients| && |drained| == i
        invariant recvd == old(recvd) + Concat(drained)
        invariant forall k :: 0 <= k < i ==>
          Emptied(old(clients[k].hasSocket), old(clients[k].inbound), old(clients[k].recvd),
                  drained[k], clients[k].inbound, clients[k].recvd)
        invariant forall k :: i <= k < |clients| ==>
          clients[k].recvd == old(clients[k].recvd) && clients[k].inbound == old(clients[k].inbound)
      {
        var client := clients[i];
        assert forall k :: 0 <= k < |clients| && k != i ==> clients[k] != client;
        ghost var h0, s0, q0 := old(client.hasSocket), client.inbound, client.recvd;
        assert s0 == old(client.inbound) && q0 == old(client.recvd);
        ghost var before := recvd;
        label Before:
        var r, msgs := DrainClient(client);
        assert forall k :: 0 <= k < |clients| && k != i ==>
          clients[k].recvd == old@Before(clients[k].recvd) && clients[k].inbound == old@Before(clients[k].inbound);
        if r.Raised? {
          assert Raising(h0, s0, q0, client.inbound, client.recvd);
          forall k | 0 <= k < i
            ensures Emptied(old(clients[k].hasSocket), old(clients[k].inbound), old(clients[k].recvd),
                            drained[k], clients[k].inbound, clients[k].recvd)
          {
            assert clients[k].recvd == old@Before(clients[k].recvd) && clients[k].inbound == old@Before(clients[k].inbound);
          }
          return r, drained;
        }
        assert Emptied(h0, s0, q0, msgs, client.inbound, client.recvd);
        ConcatAppend(drained, msgs);
        Associate(old(recvd), Concat(drained), msgs);
        assert recvd == before + msgs;
        drained := drained + [msgs];
        i := i + 1;
      }
      st := Returned(|recvd| > lenBefore);
    }

    /** `send_tcp_all_clients(msg)`: one `dynamic_send(msg)` per client in list order; a
        client with a socket gets the header and the payload on its wire (and in its saved
        copy when it keeps one), a client without one gets nothing. */
    method SendTcpAllClients(msg: string)
      requires Valid()
      modifies clients`wire, clients`savedSent
      ensures forall k :: 0 <= k < |clients| ==>
        && clients[k].wire == old(clients[k].wire) + (if old(clients[k].hasSocket) then [FrameHeader(|msg|), msg] else [])
        && clients[k].savedSent == old(clients[k].savedSent)
             + (if old(clients[k].hasSocket) && old(clients[k].saveSentMsgs) then [FrameHeader(|msg|), msg] else [])
    {
      for i := 0 to |clients|
        invariant forall k :: 0 <= k < i ==>
          && clients[k].wire == old(clients[k].wire) + (if clients[k].hasSocket then [FrameHeader(|msg|), msg] else [])
          && clients[k].savedSent == old(clients[k].savedSent)
               + (if clients[k].hasSocket && clients[k].saveSentMsgs then [FrameHeader(|msg|), msg] else [])
        invariant forall k :: i <= k < |clients| ==>
          clients[k].wire == old(clients[k].wire) && clients[k].savedSent == old(clients[k].savedSent)
      {
        assert forall k :: 0 <= k < |clients| && k != i ==> clients[k] != clients[i];
        var _ := clients[i].DynamicSend(msg);
      }
    }
  }
}
