/** lan/broadcast_responder.py: the host side of LAN discovery. A host polls a UDP socket
    for the probe `PYMULT_BROADCAST` and answers it with two datagrams, a header naming
    the size of its payload and the payload itself. A list of the IPs that probed
    recently, with the time of each probe, stops one client from being answered again
    and again. Time is the parameter `now`, in seconds. */
module Responder {
  import opened Outcomes
  import opened Text
  import opened Sockets

  /** `_recent_request_limit`: an entry older than this many seconds has expired. */
  const RecentRequestLimit: real := 1.5

  /** The only probe that is answered. It is as long as the read size of the poll. */
  const BroadcastProbe: string := "PYMULT_BROADCAST"
  const ProbeBytes: nat := 16

  /** The text every reply header starts with. */
  const ResponseTag: string := "PYMULT_SERVER_RESPONSE"

  /** One `[ip, time]` pair of `_recent_request_addrs`. */
  datatype Entry = Entry(ip: string, time: real)

  predicate Expired(e: Entry, now: real)
  {
    now - e.time > RecentRequestLimit
  }

  /** The invariant of the recent list: one entry per IP. */
  predicate NoDupIps(s: seq<Entry>)
  {
    forall i, j :: 0 <= i < j < |s| ==> s[i].ip != s[j].ip
  }

  predicate NoneExpired(s: seq<Entry>, now: real)
  {
    forall k :: 0 <= k < |s| ==> !Expired(s[k], now)
  }

  /** The header datagram of a reply, `PYMULT_SERVER_RESPONSE(` + size in 3 columns + `)`. */
  function ReplyHeader(len: nat): string
  {
    ResponseTag + "(" + PadRight(NatToString(len), 3) + ")"
  }

  /** The two datagrams of a reply to `ip`, both sent to the port after the probed one. */
  function Reply(message: string, ip: string, port: int): seq<Datagram>
  {
    [Datagram(ReplyHeader(|message|), Addr(ip, port + 1)), Datagram(message, Addr(ip, port + 1))]
  }

  /** For a payload size below 1000 the header has 27 characters, carries the tag, and
      its characters 23 to 25 read back as the size. */
  lemma ReplyHeaderShape(len: nat)
    requires len < 1000
    ensures |ReplyHeader(len)| == 27
    ensures Contains(ReplyHeader(len), ResponseTag)
    ensures ParseInt(PySlice(ReplyHeader(len), 23, 26)) == Some(len)
  {
    var digits := PadRight(NatToString(len), 3);
    assert Pow10(3) == 1000;
    NatToStringLength(len, 3);
    var h := ReplyHeader(len);
    assert h == ResponseTag + h[22..];
    ContainsPrefix(ResponseTag, h[22..]);
    assert h[23..26] == digits;
    ParseIntOfPadded(len, 3);
  }

  // ---------------------------------------------------------------------------
  // `_update_recent_request_addrs`: the sweep before each poll.

  /** The sweep as written: it pops entries from the list it is enumerating, so after
      each removal the entry that slides into the removed one's place is never looked at. */
  function SweepAsWritten(s: seq<Entry>, now: real): (r: seq<Entry>)
    ensures |r| <= |s|
    ensures forall e :: e in r ==> e in s
    decreases |s|
  {
    if s == [] then []
    else if Expired(s[0], now) then
      if |s| == 1 then [] else [s[1]] + SweepAsWritten(s[2..], now)
    else [s[0]] + SweepAsWritten(s[1..], now)
  }

  /** The sweep as intended: every expired entry goes. */
  function SweepAll(s: seq<Entry>, now: real): (r: seq<Entry>)
    ensures |r| <= |s|
    ensures forall e :: e in r ==> e in s && !Expired(e, now)
    decreases |s|
  {
    if s == [] then []
    else if Expired(s[0], now) then SweepAll(s[1..], now)
    else [s[0]] + SweepAll(s[1..], now)
  }

  /** `t` is `s` with some expired entries taken out, the others kept in their order. */
  predicate DropsOnlyExpired(s: seq<Entry>, t: seq<Entry>, now: real)
    decreases |s|
  {
    if s == [] then t == []
    else
      (t != [] && t[0] == s[0] && DropsOnlyExpired(s[1..], t[1..], now))
      || (Expired(s[0], now) && DropsOnlyExpired(s[1..], t, now))
  }

  lemma {:induction false} DropsOnlyExpiredSubset(s: seq<Entry>, t: seq<Entry>, now: real)
    requires DropsOnlyExpired(s, t, now)
    ensures forall x :: x in t ==> x in s
    decreases |s|
  {
    if s != [] {
      if t != [] && t[0] == s[0] && DropsOnlyExpired(s[1..], t[1..], now) {
        DropsOnlyExpiredSubset(s[1..], t[1..], now);
        assert t == [t[0]] + t[1..];
      } else {
        DropsOnlyExpiredSubset(s[1..], t, now);
      }
    }
  }

  /** Taking entries out cannot create two entries for one IP. */
  lemma {:induction false} DropsOnlyExpiredNoDup(s: seq<Entry>, t: seq<Entry>, now: real)
    requires DropsOnlyExpired(s, t, now) && NoDupIps(s)
    ensures NoDupIps(t)
    decreases |s|
  {
    if s != [] {
      assert NoDupIps(s[1..]) by {
        forall i, j | 0 <= i < j < |s[1..]| ensures s[1..][i].ip != s[1..][j].ip {
          assert s[1..][i] == s[i + 1] && s[1..][j] == s[j + 1];
        }
      }
      if t != [] && t[0] == s[0] && DropsOnlyExpired(s[1..], t[1..], now) {
        DropsOnlyExpiredNoDup(s[1..], t[1..], now);
        DropsOnlyExpiredSubset(s[1..], t[1..], now);
        forall i, j | 0 <= i < j < |t| ensures t[i].ip != t[j].ip {
          if i == 0 {
            assert t[j] == t[1..][j - 1];
            assert t[j] in s[1..];
            var k :| 0 <= k < |s[1..]| && s[1..][k] == t[j];
            assert s[k + 1] == t[j];
          } else {
            assert t[i] == t[1..][i - 1] && t[j] == t[1..][j - 1];
          }
        }
      } else {
        DropsOnlyExpiredNoDup(s[1..], t, now);
      }
    }
  }

  /** The sweep as written keeps the survivors in order and removes only expired entries. */
  lemma {:induction false} SweepAsWrittenDropsOnlyExpired(s: seq<Entry>, now: real)
    ensures DropsOnlyExpired(s, SweepAsWritten(s, now), now)
    decreases |s|
  {
    if s != [] {
      var r := SweepAsWritten(s, now);
      if Expired(s[0], now) {
        if |s| > 1 {
          SweepAsWrittenDropsOnlyExpired(s[2..], now);
          assert s[1..][1..] == s[2..];
          assert r[1..] == SweepAsWritten(s[2..], now);
          assert DropsOnlyExpired(s[1..], r, now);
        }
      } else {
        SweepAsWrittenDropsOnlyExpired(s[1..], now);
        assert r[1..] == SweepAsWritten(s[1..], now);
      }
    }
  }

  /** The corrected sweep keeps the survivors in order and leaves no expired entry. */
  lemma {:induction false} SweepAllDropsEveryExpired(s: seq<Entry>, now: real)
    ensures DropsOnlyExpired(s, SweepAll(s, now), now)
    ensures NoneExpired(SweepAll(s, now), now)
    ensures forall x :: x in s && !Expired(x, now) ==> x in SweepAll(s, now)
    decreases |s|
  {
    if s != [] {
      SweepAllDropsEveryExpired(s[1..], now);
      var r := SweepAll(s, now);
      if !Expired(s[0], now) {
        assert r[1..] == SweepAll(s[1..], now);
        forall k | 0 <= k < |r| ensures !Expired(r[k], now) {
          if k > 0 { assert r[k] == r[1..][k - 1]; }
        }
      }
      forall x | x in s && !Expired(x, now) ensures x in r {
        if x != s[0] { assert x in s[1..]; }
      }
    }
  }

  /** Both sweeps keep the recent list free of duplicate IPs. */
  lemma SweepsKeepNoDup(s: seq<Entry>, now: real)
    requires NoDupIps(s)
    ensures NoDupIps(SweepAsWritten(s, now)) && NoDupIps(SweepAll(s, now))
  {
    SweepAsWrittenDropsOnlyExpired(s, now);
    DropsOnlyExpiredNoDup(s, SweepAsWritten(s, now), now);
    SweepAllDropsEveryExpired(s, now);
    DropsOnlyExpiredNoDup(s, SweepAll(s, now), now);
  }

  /** Two expired entries: the sweep as written removes the first and steps over the second. */
  lemma SweepSkipsAfterRemoval()
    ensures var s := [Entry("10.0.0.1", 0.0), Entry("10.0.0.2", 0.0)];
      && SweepAsWritten(s, 10.0) == [Entry("10.0.0.2", 0.0)]
      && Expired(Entry("10.0.0.2", 0.0), 10.0)
      && SweepAll(s, 10.0) == []
  {
    var s := [Entry("10.0.0.1", 0.0), Entry("10.0.0.2", 0.0)];
    assert s[2..] == [];
    assert s[1..] == [Entry("10.0.0.2", 0.0)];
    assert s[1..][1..] == [];
  }

  // ---------------------------------------------------------------------------
  // `_check_recent_request_addrs`: the decision about one probe.

  /** How the check ends: an expired entry was removed and nothing else done; the IP had
      probed recently, its time is refreshed and `RecentRequestAddr` is raised; or the IP
      is recorded as new. */
  datatype Check = Purged | Repeat | Recorded

  function FirstExpired(s: seq<Entry>, now: real): (r: Option<nat>)
    ensures r.Some? ==> r.value < |s| && Expired(s[r.value], now)
    ensures r.Some? ==> forall k :: 0 <= k < r.value ==> !Expired(s[k], now)
    ensures r.None? <==> NoneExpired(s, now)
    decreases |s|
  {
    if s == [] then None
    else if Expired(s[0], now) then Some(0)
    else match FirstExpired(s[1..], now)
      case None => None
      case Some(i) => Some(i + 1)
  }

  function FindIp(s: seq<Entry>, ip: string): (r: Option<nat>)
    ensures r.Some? ==> r.value < |s| && s[r.value].ip == ip
    ensures r.Some? ==> forall k :: 0 <= k < r.value ==> s[k].ip != ip
    ensures r.None? <==> forall k :: 0 <= k < |s| ==> s[k].ip != ip
    decreases |s|
  {
    if s == [] then None
    else if s[0].ip == ip then Some(0)
    else match FindIp(s[1..], ip)
      case None => None
      case Some(i) => Some(i + 1)
  }

  /** The check as written: the first expired entry is removed and the check ends there,
      without looking for the IP and without recording it. Only when nothing has expired
      is the IP looked up, by IP alone, and refreshed or recorded. */
  function CheckRecent(s: seq<Entry>, ip: string, now: real): (r: (Check, seq<Entry>))
    ensures forall e :: e in r.1 ==> e in s || e == Entry(ip, now)
  {
    match FirstExpired(s, now)
    case Some(i) => (Purged, s[..i] + s[i + 1..])
    case None =>
      match FindIp(s, ip)
      case Some(j) => (Repeat, s[j := Entry(ip, now)])
      case None => (Recorded, s + [Entry(ip, now)])
  }

  /** The check as intended: first every expired entry goes, then the IP is refreshed
      (and rejected) or recorded. */
  function CheckRecentFixed(s: seq<Entry>, ip: string, now: real): (r: (Check, seq<Entry>))
    ensures forall e :: e in r.1 ==> e == Entry(ip, now) || (e in s && !Expired(e, now))
  {
    var t := SweepAll(s, now);
    match FindIp(t, ip)
    case Some(j) => (Repeat, t[j := Entry(ip, now)])
    case None => (Recorded, t + [Entry(ip, now)])
  }

  /** Each check changes the length of the list by -1, 0 or +1: -1 exactly when an
      expired entry was removed, +1 exactly when the IP was recorded. */
  lemma CheckRecentLength(s: seq<Entry>, ip: string, now: real)
    ensures var (c, t) := CheckRecent(s, ip, now);
      && (c == Purged <==> !NoneExpired(s, now))
      && (c == Purged ==> |t| == |s| - 1)
      && (c == Repeat ==> |t| == |s|)
      && (c == Recorded ==> |t| == |s| + 1)
  {
  }

  /** When nothing has expired, a probe is rejected exactly when its IP is on the list,
      whatever port it came from, and afterwards the IP's entry carries the time `now`. */
  lemma CheckRecentRejectsRepeat(s: seq<Entry>, ip: string, now: real)
    requires NoneExpired(s, now)
    ensures var (c, t) := CheckRecent(s, ip, now);
      && (c == Repeat <==> exists k :: 0 <= k < |s| && s[k].ip == ip)
      && c != Purged
      && Entry(ip, now) in t
  {
    var (c, t) := CheckRecent(s, ip, now);
    match FindIp(s, ip)
    case Some(j) => assert t[j] == Entry(ip, now);
    case None => assert t[|s|] == Entry(ip, now);
  }

  /** The check keeps the recent list free of duplicate IPs. */
  lemma CheckRecentKeepsNoDup(s: seq<Entry>, ip: string, now: real)
    requires NoDupIps(s)
    ensures NoDupIps(CheckRecent(s, ip, now).1)
  {
    var t := CheckRecent(s, ip, now).1;
    match FirstExpired(s, now)
    case Some(i) =>
      forall a, b | 0 <= a < b < |t| ensures t[a].ip != t[b].ip {
        var a' := if a < i then a else a + 1;
        var b' := if b < i then b else b + 1;
        assert t[a] == s[a'] && t[b] == s[b'];
      }
    case None =>
  }

  /** The corrected check also keeps the list free of duplicates, leaves no expired entry,
      and always leaves the probing IP on the list with the time `now`. */
  lemma CheckRecentFixedKeepsNoDup(s: seq<Entry>, ip: string, now: real)
    requires NoDupIps(s)
    ensures var (c, t) := CheckRecentFixed(s, ip, now);
      && NoDupIps(t) && c != Purged && Entry(ip, now) in t
      && (c == Repeat <==> exists x :: x in s && x.ip == ip && !Expired(x, now))
  {
    SweepsKeepNoDup(s, now);
    SweepAllDropsEveryExpired(s, now);
    var u := SweepAll(s, now);
    var (c, t) := CheckRecentFixed(s, ip, now);
    DropsOnlyExpiredSubset(s, u, now);
    match FindIp(u, ip)
    case Some(j) =>
      assert t[j] == Entry(ip, now);
      assert u[j] in s && !Expired(u[j], now);
    case None =>
      assert t[|u|] == Entry(ip, now);
      forall x | x in s && x.ip == ip ensures Expired(x, now) {
      }
  }

  /** With the corrected check, a second probe from the same IP within the limit is
      always rejected. */
  lemma {:induction false} CheckRecentFixedRejectsRepeat(s: seq<Entry>, ip: string, now: real, later: real)
    requires NoDupIps(s) && now <= later <= now + RecentRequestLimit
    ensures CheckRecentFixed(CheckRecentFixed(s, ip, now).1, ip, later).0 == Repeat
  {
    CheckRecentFixedKeepsNoDup(s, ip, now);
    var t := CheckRecentFixed(s, ip, now).1;
    assert Entry(ip, now) in t && !Expired(Entry(ip, now), later);
    CheckRecentFixedKeepsNoDup(t, ip, later);
  }

  /** The decision one poll of `respond_to_broadcast` takes about a probe from `ip`: the
      sweep, then the check. The probe is answered unless the check rejects it. */
  function Poll(s: seq<Entry>, ip: string, now: real): (Check, seq<Entry>)
  {
    CheckRecent(SweepAsWritten(s, now), ip, now)
  }

  function PollFixed(s: seq<Entry>, ip: string, now: real): (Check, seq<Entry>)
  {
    CheckRecentFixed(SweepAll(s, now), ip, now)
  }

  /** As written, a prober is answered again 0.7 s after its last probe. Starting from an
      empty list, probes from A at 0.0, B at 0.1 and C at 1.0 are each recorded. When C
      probes again at 1.7, A and B have both expired: the sweep removes A and steps over
      B, and the check removes B and stops before it looks for C. */
  lemma PollAnswersRepeat()
    ensures
      var (a, b, c) := ("10.0.0.1", "10.0.0.2", "10.0.0.3");
      var s1 := Poll([], a, 0.0).1;
      var s2 := Poll(s1, b, 0.1).1;
      var s3 := Poll(s2, c, 1.0).1;
      && Poll([], a, 0.0).0 == Recorded && Poll(s1, b, 0.1).0 == Recorded && Poll(s2, c, 1.0).0 == Recorded
      && s3 == [Entry(a, 0.0), Entry(b, 0.1), Entry(c, 1.0)]
      && Poll(s3, c, 1.7) == (Purged, [Entry(c, 1.0)])
      && !Expired(Entry(c, 1.0), 1.7)
  {
    var (a, b, c) := ("10.0.0.1", "10.0.0.2", "10.0.0.3");
    var s1 := [Entry(a, 0.0)];
    assert FirstExpired([], 0.0) == None && FindIp([], a) == None;
    assert [] + s1 == s1;
    assert Poll([], a, 0.0) == (Recorded, s1);
    var s2 := s1 + [Entry(b, 0.1)];
    assert SweepAsWritten(s1, 0.1) == s1 by {
      assert s1[1..] == [];
    }
    assert FindIp(s1, b) == None;
    assert Poll(s1, b, 0.1) == (Recorded, s2);
    var s3 := s2 + [Entry(c, 1.0)];
    assert SweepAsWritten(s2, 1.0) == s2 by {
      assert s2[1..] == [Entry(b, 0.1)];
      assert s2[1..][1..] == [];
    }
    assert FindIp(s2, c) == None;
    assert Poll(s2, c, 1.0) == (Recorded, s3);
    assert s3[2..] == [Entry(c, 1.0)];
    assert s3[2..][1..] == [];
    assert SweepAsWritten(s3[2..], 1.7) == [Entry(c, 1.0)];
    var w := SweepAsWritten(s3, 1.7);
    assert w == [Entry(b, 0.1), Entry(c, 1.0)];
    assert FirstExpired(w, 1.7) == Some(0);
    assert w[..0] + w[1..] == [Entry(c, 1.0)];
  }

  /** Corrected, the same poll rejects the repeat and refreshes the IP's entry. */
  lemma PollFixedRejectsRepeat(s: seq<Entry>, ip: string, t: real, now: real)
    requires NoDupIps(s) && Entry(ip, t) in s && !Expired(Entry(ip, t), now)
    ensures PollFixed(s, ip, now).0 == Repeat
    ensures Entry(ip, now) in PollFixed(s, ip, now).1
  {
    SweepAllDropsEveryExpired(s, now);
    SweepsKeepNoDup(s, now);
    var u := SweepAll(s, now);
    assert Entry(ip, t) in u;
    SweepAllDropsEveryExpired(u, now);
    CheckRecentFixedKeepsNoDup(u, ip, now);
  }

  // ---------------------------------------------------------------------------

  /** One step of the enumerate loop: the prefix before index `i` is final, and what the
      sweep makes of the rest is unchanged by looking at entry `i`. */
  lemma SweepStep(s: seq<Entry>, i: nat, now: real)
    requires i < |s|
    ensures Expired(s[i], now) && i + 1 < |s| ==>
      var t := s[..i] + s[i + 1..];
      t[..i + 1] + SweepAsWritten(t[i + 1..], now) == s[..i] + SweepAsWritten(s[i..], now)
    ensures Expired(s[i], now) && i + 1 == |s| ==> s[..i] == s[..i] + SweepAsWritten(s[i..], now)
    ensures !Expired(s[i], now) ==>
      s[..i + 1] + SweepAsWritten(s[i + 1..], now) == s[..i] + SweepAsWritten(s[i..], now)
  {
    var r := s[i..];
    if Expired(s[i], now) {
      if i + 1 < |s| {
        var t := s[..i] + s[i + 1..];
        assert r[1] == t[i] && r[2..] == t[i + 1..];
        assert t[..i + 1] == s[..i] + [t[i]];
      } else {
        assert r == [s[i]];
      }
    } else {
      assert r[1..] == s[i + 1..];
      assert s[..i + 1] == s[..i] + [s[i]];
    }
  }

  class BroadcastResponder {
    /** `_port`: the port probes arrive on; replies go to the next one. */
    var port: int
    /** `_recent_request_addrs`. */
    var recent: seq<Entry>
    /** What the listening socket's `recvfrom` calls will meet. */
    var inbox: seq<Delivery>
    /** Everything `_sender_socket` sent, with its destination. */
    var outbox: seq<Datagram>

    constructor (port: int, inbox: seq<Delivery>)
      ensures this.port == port && this.inbox == inbox && recent == [] && outbox == []
    {
      this.port := port;
      this.inbox := inbox;
      recent, outbox := [], [];
    }

    /** `_update_recent_request_addrs()`: the enumerate loop that pops as it goes. */
    method UpdateRecentRequestAddrs(now: real)
      modifies this`recent
      ensures recent == SweepAsWritten(old(recent), now)
    {
      var i := 0;
      while i < |recent|
        invariant i <= |recent| + 1
        invariant i <= |recent| ==> SweepAsWritten(old(recent), now) == recent[..i] + SweepAsWritten(recent[i..], now)
        invariant i > |recent| ==> SweepAsWritten(old(recent), now) == recent
        decreases |recent| - i + 1
      {
        SweepStep(recent, i, now);
        if now - recent[i].time > RecentRequestLimit {
          recent := recent[..i] + recent[i + 1..];
        }
        i := i + 1;
      }
      if i <= |recent| {
        assert recent[i..] == [];
        assert recent[..i] == recent;
      }
    }

    /** `_check_recent_request_addrs(addr)`: `raised` is `RecentRequestAddr`. Only the IP
        of `addr` is compared. */
    method CheckRecentRequestAddrs(addr: Addr, now: real) returns (raised: bool)
      modifies this`recent
      ensures raised <==> CheckRecent(old(recent), addr.ip, now).0 == Repeat
      ensures recent == CheckRecent(old(recent), addr.ip, now).1
    {
      var i := 0;
      while i < |recent|
        invariant 0 <= i <= |recent| && recent == old(recent)
        invariant forall k :: 0 <= k < i ==> !Expired(recent[k], now)
      {
        if now - recent[i].time > RecentRequestLimit {
          recent := recent[..i] + recent[i + 1..];
          return false;
        }
        i := i + 1;
      }
      i := 0;
      while i < |recent|
        invariant 0 <= i <= |recent| && recent == old(recent)
        invariant forall k :: 0 <= k < i ==> recent[k].ip != addr.ip
      {
        if recent[i].ip == addr.ip {
          // `list.index`: the first entry equal to the one found.
          var j := 0;
          while recent[j] != recent[i]
            invariant 0 <= j <= i
            decreases i - j
          {
            j := j + 1;
          }
          recent := recent[j := Entry(recent[j].ip, now)];
          return true;
        }
        i := i + 1;
      }
      recent := recent + [Entry(addr.ip, now)];
      return false;
    }

    /** `respond_to_broadcast(message)`: sweep, wait for one datagram (16 bytes at most),
        run the check on its sender, and answer only a genuine probe that the check did
        not reject. The check runs before the probe is validated, so any datagram from a
        new IP is recorded. */
    method RespondToBroadcast(message: string, now: real) returns (answered: bool)
      modifies this`recent, this`inbox, this`outbox
      ensures inbox == RecvFrom(old(inbox), ProbeBytes).1
      ensures
        var swept := SweepAsWritten(old(recent), now);
        var d := RecvFrom(old(inbox), ProbeBytes).0;
        if d.None? then !answered && recent == swept && outbox == old(outbox)
        else
          var (c, t) := CheckRecent(swept, d.value.addr.ip, now);
          && recent == t
          && (answered <==> c != Repeat && d.value.data == BroadcastProbe)
          && outbox == old(outbox) + (if answered then Reply(message, d.value.addr.ip, port) else [])
      ensures NoDupIps(old(recent)) ==> NoDupIps(recent)
    {
      if NoDupIps(recent) {
        SweepsKeepNoDup(recent, now);
      }
      UpdateRecentRequestAddrs(now);
      var got := RecvFrom(inbox, ProbeBytes);
      inbox := got.1;
      if got.0.None? {
        return false;
      }
      var msg, addr := got.0.value.data, got.0.value.addr;
      if NoDupIps(recent) {
        CheckRecentKeepsNoDup(recent, addr.ip, now);
      }
      var raised := CheckRecentRequestAddrs(addr, now);
      if raised {
        return false;
      }
      var ip := addr.ip;
      if msg != BroadcastProbe {
        return false;
      }
      var identifier := ReplyHeader(|message|);
      outbox := outbox + [Datagram(identifier, Addr(ip, port + 1))];
      outbox := outbox + [Datagram(message, Addr(ip, port + 1))];
      return true;
    }
  }
}
