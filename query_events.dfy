/** The consumer halves of FindPeer and FindProviders: each drains the
    query events of its operation and forwards, in order, the addresses of
    FinalPeer events or the peer identities of Provider events, until the
    events run out or the operation's context is cancelled. */
module QueryEvents {
  import opened Types

  /** The kinds of notif.QueryEvent. */
  datatype EventType =
    | SendingQuery | PeerResponse | FinalPeer | QueryError
    | Provider | Value | AddingPeer | DialingPeer

  /** A query event: its kind, the peer records it carries and, for an
      error, the error text. */
  datatype QueryEvent = QueryEvent(kind: EventType, responses: seq<PeerInfo>, extra: string)

  /** The addresses of a list of peer records, record by record. */
  function InfoAddrs(rs: seq<PeerInfo>): seq<Addr>
  {
    if rs == [] then [] else rs[0].addrs + InfoAddrs(rs[1..])
  }

  /** The identities of a list of peer records. */
  function InfoIds(rs: seq<PeerInfo>): seq<PeerId>
  {
    if rs == [] then [] else [rs[0].id] + InfoIds(rs[1..])
  }

  /** What one event contributes to FindPeer's output. */
  function EventAddrs(e: QueryEvent): seq<Addr>
  {
    if e.kind == FinalPeer then InfoAddrs(e.responses) else []
  }

  /** What one event contributes to FindProviders' output. */
  function EventIds(e: QueryEvent): seq<PeerId>
  {
    if e.kind == Provider then InfoIds(e.responses) else []
  }

  /** FindPeer's output for events when it is never cancelled. */
  function PeerAddrs(events: seq<QueryEvent>): seq<Addr>
  {
    if events == [] then [] else EventAddrs(events[0]) + PeerAddrs(events[1..])
  }

  /** FindProviders' output for events when it is never cancelled. */
  function ProviderIds(events: seq<QueryEvent>): seq<PeerId>
  {
    if events == [] then [] else EventIds(events[0]) + ProviderIds(events[1..])
  }

  /** The output under cancellation: cancel is the number of results the
      caller receives before the context is cancelled, or None when it is
      never cancelled. */
  function Truncate<T>(s: seq<T>, cancel: Option<nat>): (r: seq<T>)
    ensures r <= s
    ensures cancel.None? ==> r == s
    ensures cancel.Some? ==> |r| == if cancel.value < |s| then cancel.value else |s|
  {
    match cancel
    case None => s
    case Some(n) => if n < |s| then s[..n] else s
  }

  /** sendAddrs: send each address of each record after the results
      already sent, unless the context is cancelled first; cancelled tells
      which. */
  method SendAddrs(responses: seq<PeerInfo>, sent: seq<Addr>, cancel: Option<nat>)
    returns (out: seq<Addr>, cancelled: bool)
    requires cancel.Some? ==> |sent| <= cancel.value
    ensures !cancelled ==> out == sent + InfoAddrs(responses)
    ensures !cancelled && cancel.Some? ==> |out| <= cancel.value
    ensures cancelled ==> cancel.Some? && |out| == cancel.value && out <= sent + InfoAddrs(responses)
                          && |out| < |sent + InfoAddrs(responses)|
  {
    ghost var target := sent + InfoAddrs(responses);
    out := sent;
    var j := 0;
    while j < |responses|
      invariant 0 <= j <= |responses|
      invariant out + InfoAddrs(responses[j..]) == target
      invariant cancel.Some? ==> |out| <= cancel.value
    {
      var addrs := responses[j].addrs;
      ghost var later := InfoAddrs(responses[j + 1..]);
      assert InfoAddrs(responses[j..]) == addrs + later by {
        assert responses[j..][1..] == responses[j + 1..];
      }
      var k := 0;
      while k < |addrs|
        invariant 0 <= k <= |addrs|
        invariant out + (addrs[k..] + later) == target
        invariant cancel.Some? ==> |out| <= cancel.value
      {
        if cancel.Some? && |out| == cancel.value {
          return out, true;
        }
        assert addrs[k..] + later == [addrs[k]] + (addrs[k + 1..] + later);
        out := out + [addrs[k]];
        k := k + 1;
      }
      assert addrs[k..] + later == later;
      j := j + 1;
    }
    assert responses[j..] == [];
    return out, false;
  }

  /** The FindPeer consumer: for each FinalPeer event, send its addresses;
      stop when the context is cancelled. */
  method DrainFinalPeers(events: seq<QueryEvent>, cancel: Option<nat>) returns (out: seq<Addr>)
    ensures out == Truncate(PeerAddrs(events), cancel)
  {
    out := [];
    var i := 0;
    while i < |events|
      invariant 0 <= i <= |events|
      invariant out == PeerAddrs(events[..i])
      invariant cancel.Some? ==> |out| <= cancel.value
    {
      PeerAddrsSnoc(events, i);
      if events[i].kind == FinalPeer {
        var cancelled;
        out, cancelled := SendAddrs(events[i].responses, out, cancel);
        if cancelled {
          PeerAddrsPrefix(events, i + 1);
          CancelledWithin(out, PeerAddrs(events[..i + 1]), PeerAddrs(events), cancel.value);
          return;
        }
      }
      i := i + 1;
    }
    assert events[..i] == events;
    Uncancelled(out, PeerAddrs(events), cancel);
  }

  /** sendProviders: send the identity of each record after the results
      already sent, unless the context is cancelled first. */
  method SendProviders(responses: seq<PeerInfo>, sent: seq<PeerId>, cancel: Option<nat>)
    returns (out: seq<PeerId>, cancelled: bool)
    requires cancel.Some? ==> |sent| <= cancel.value
    ensures !cancelled ==> out == sent + InfoIds(responses)
    ensures !cancelled && cancel.Some? ==> |out| <= cancel.value
    ensures cancelled ==> cancel.Some? && |out| == cancel.value && out <= sent + InfoIds(responses)
                          && |out| < |sent + InfoIds(responses)|
  {
    ghost var target := sent + InfoIds(responses);
    out := sent;
    var j := 0;
    while j < |responses|
      invariant 0 <= j <= |responses|
      invariant out + InfoIds(responses[j..]) == target
      invariant cancel.Some? ==> |out| <= cancel.value
    {
      if cancel.Some? && |out| == cancel.value {
        return out, true;
      }
      assert InfoIds(responses[j..]) == [responses[j].id] + InfoIds(responses[j + 1..]) by {
        assert responses[j..][1..] == responses[j + 1..];
      }
      out := out + [responses[j].id];
      j := j + 1;
    }
    assert responses[j..] == [];
    return out, false;
  }

  /** The FindProviders consumer: for each Provider event, send the
      identities of its records; stop when the context is cancelled. */
  method DrainProviders(events: seq<QueryEvent>, cancel: Option<nat>) returns (out: seq<PeerId>)
    ensures out == Truncate(ProviderIds(events), cancel)
  {
    out := [];
    var i := 0;
    while i < |events|
      invariant 0 <= i <= |events|
      invariant out == ProviderIds(events[..i])
      invariant cancel.Some? ==> |out| <= cancel.value
    {
      ProviderIdsSnoc(events, i);
      if events[i].kind == Provider {
        var cancelled;
        out, cancelled := SendProviders(events[i].responses, out, cancel);
        if cancelled {
          ProviderIdsPrefix(events, i + 1);
          CancelledWithin(out, ProviderIds(events[..i + 1]), ProviderIds(events), cancel.value);
          return;
        }
      }
      i := i + 1;
    }
    assert events[..i] == events;
    Uncancelled(out, ProviderIds(events), cancel);
  }

  /** A consumer cancelled after n results, having sent a prefix of what
      it had to send so far, has sent the first n results. */
  lemma CancelledWithin<T>(out: seq<T>, sofar: seq<T>, full: seq<T>, n: nat)
    requires out <= sofar && sofar <= full && |out| == n
    ensures out == Truncate(full, Some(n))
  {
  }

  /** A consumer that sent everything within its budget was not cut short. */
  lemma Uncancelled<T>(out: seq<T>, full: seq<T>, cancel: Option<nat>)
    requires out == full
    requires cancel.Some? ==> |out| <= cancel.value
    ensures out == Truncate(full, cancel)
  {
  }

  /** FindPeer's output grows event by event. */
  lemma PeerAddrsSnoc(events: seq<QueryEvent>, i: nat)
    requires i < |events|
    ensures PeerAddrs(events[..i + 1]) == PeerAddrs(events[..i]) + EventAddrs(events[i])
  {
    assert events[..i + 1] == events[..i] + [events[i]];
    PeerAddrsAppend(events[..i], [events[i]]);
    assert [events[i]][1..] == [];
    assert EventAddrs(events[i]) + [] == EventAddrs(events[i]);
  }

  lemma ProviderIdsSnoc(events: seq<QueryEvent>, i: nat)
    requires i < |events|
    ensures ProviderIds(events[..i + 1]) == ProviderIds(events[..i]) + EventIds(events[i])
  {
    assert events[..i + 1] == events[..i] + [events[i]];
    ProviderIdsAppend(events[..i], [events[i]]);
    assert [events[i]][1..] == [];
    assert EventIds(events[i]) + [] == EventIds(events[i]);
  }

  /** The output for a prefix of the events is a prefix of the output. */
  lemma PeerAddrsPrefix(events: seq<QueryEvent>, k: nat)
    requires k <= |events|
    ensures PeerAddrs(events[..k]) <= PeerAddrs(events)
  {
    assert events == events[..k] + events[k..];
    PeerAddrsAppend(events[..k], events[k..]);
  }

  lemma ProviderIdsPrefix(events: seq<QueryEvent>, k: nat)
    requires k <= |events|
    ensures ProviderIds(events[..k]) <= ProviderIds(events)
  {
    assert events == events[..k] + events[k..];
    ProviderIdsAppend(events[..k], events[k..]);
  }

  /** FindPeer's output is the in-order concatenation of what each event
      contributes. */
  lemma {:induction false} PeerAddrsAppend(a: seq<QueryEvent>, b: seq<QueryEvent>)
    ensures PeerAddrs(a + b) == PeerAddrs(a) + PeerAddrs(b)
  {
    if a != [] {
      assert (a + b)[0] == a[0];
      assert (a + b)[1..] == a[1..] + b;
      PeerAddrsAppend(a[1..], b);
    } else {
      assert a + b == b;
    }
  }

  /** FindProviders' output is the in-order concatenation of what each event
      contributes. */
  lemma {:induction false} ProviderIdsAppend(a: seq<QueryEvent>, b: seq<QueryEvent>)
    ensures ProviderIds(a + b) == ProviderIds(a) + ProviderIds(b)
  {
    if a != [] {
      assert (a + b)[0] == a[0];
      assert (a + b)[1..] == a[1..] + b;
      ProviderIdsAppend(a[1..], b);
    } else {
      assert a + b == b;
    }
  }

  /** An event other than FinalPeer, a QueryError among them, changes
      nothing in FindPeer's output wherever it occurs. */
  lemma PeerAddrsSkips(a: seq<QueryEvent>, e: QueryEvent, b: seq<QueryEvent>)
    requires e.kind != FinalPeer
    ensures PeerAddrs(a + [e] + b) == PeerAddrs(a + b)
  {
    PeerAddrsAppend(a + [e], b);
    PeerAddrsAppend(a, [e]);
    PeerAddrsAppend(a, b);
    assert [e][1..] == [];
    assert PeerAddrs([e]) == [];
    assert PeerAddrs(a + [e]) == PeerAddrs(a);
  }

  /** An event other than Provider changes nothing in FindProviders'
      output wherever it occurs. */
  lemma ProviderIdsSkips(a: seq<QueryEvent>, e: QueryEvent, b: seq<QueryEvent>)
    requires e.kind != Provider
    ensures ProviderIds(a + [e] + b) == ProviderIds(a + b)
  {
    ProviderIdsAppend(a + [e], b);
    ProviderIdsAppend(a, [e]);
    ProviderIdsAppend(a, b);
    assert [e][1..] == [];
    assert ProviderIds([e]) == [];
    assert ProviderIds(a + [e]) == ProviderIds(a);
  }

  /** An address is in a record list's addresses exactly when some record
      lists it. */
  lemma {:induction false} InfoAddrsHas(rs: seq<PeerInfo>, x: Addr)
    ensures x in InfoAddrs(rs) <==> exists j :: 0 <= j < |rs| && x in rs[j].addrs
  {
    if rs != [] {
      InfoAddrsHas(rs[1..], x);
      if exists j :: 0 <= j < |rs| && x in rs[j].addrs {
        var j :| 0 <= j < |rs| && x in rs[j].addrs;
        if j > 0 {
          assert rs[1..][j - 1] == rs[j];
        }
      }
      if exists j :: 0 <= j < |rs| - 1 && x in rs[1..][j].addrs {
        var j :| 0 <= j < |rs| - 1 && x in rs[1..][j].addrs;
        assert rs[j + 1] == rs[1..][j];
      }
    }
  }

  /** A peer is among a record list's identities exactly when some record
      has it. */
  lemma {:induction false} InfoIdsHas(rs: seq<PeerInfo>, p: PeerId)
    ensures p in InfoIds(rs) <==> exists j :: 0 <= j < |rs| && rs[j].id == p
  {
    if rs != [] {
      InfoIdsHas(rs[1..], p);
      if exists j :: 0 <= j < |rs| && rs[j].id == p {
        var j :| 0 <= j < |rs| && rs[j].id == p;
        if j > 0 {
          assert rs[1..][j - 1] == rs[j];
        }
      }
      if exists j :: 0 <= j < |rs| - 1 && rs[1..][j].id == p {
        var j :| 0 <= j < |rs| - 1 && rs[1..][j].id == p;
        assert rs[j + 1] == rs[1..][j];
      }
    }
  }

  /** Only FinalPeer events contribute to FindPeer's output: an address is
      in it exactly when a record of some FinalPeer event lists it. */
  lemma {:induction false} PeerAddrsHas(events: seq<QueryEvent>, x: Addr)
    ensures x in PeerAddrs(events) <==>
      exists i, j :: 0 <= i < |events| && events[i].kind == FinalPeer
                     && 0 <= j < |events[i].responses| && x in events[i].responses[j].addrs
  {
    if events != [] {
      PeerAddrsHas(events[1..], x);
      InfoAddrsHas(events[0].responses, x);
      if exists i, j :: 0 <= i < |events| && events[i].kind == FinalPeer
                        && 0 <= j < |events[i].responses| && x in events[i].responses[j].addrs {
        var i, j :| 0 <= i < |events| && events[i].kind == FinalPeer
                    && 0 <= j < |events[i].responses| && x in events[i].responses[j].addrs;
        if i > 0 {
          assert events[1..][i - 1] == events[i];
        }
      }
      if exists i, j :: 0 <= i < |events| - 1 && events[1..][i].kind == FinalPeer
                        && 0 <= j < |events[1..][i].responses| && x in events[1..][i].responses[j].addrs {
        var i, j :| 0 <= i < |events| - 1 && events[1..][i].kind == FinalPeer
                    && 0 <= j < |events[1..][i].responses| && x in events[1..][i].responses[j].addrs;
        assert events[i + 1] == events[1..][i];
      }
    }
  }

  /** Only Provider events contribute to FindProviders' output: a peer is in
      it exactly when it is the identity of a record of some Provider event. */
  lemma {:induction false} ProviderIdsHas(events: seq<QueryEvent>, p: PeerId)
    ensures p in ProviderIds(events) <==>
      exists i, j :: 0 <= i < |events| && events[i].kind == Provider
                     && 0 <= j < |events[i].responses| && events[i].responses[j].id == p
  {
    if events != [] {
      ProviderIdsHas(events[1..], p);
      InfoIdsHas(events[0].responses, p);
      if exists i, j :: 0 <= i < |events| && events[i].kind == Provider
                        && 0 <= j < |events[i].responses| && events[i].responses[j].id == p {
        var i, j :| 0 <= i < |events| && events[i].kind == Provider
                    && 0 <= j < |events[i].responses| && events[i].responses[j].id == p;
        if i > 0 {
          assert events[1..][i - 1] == events[i];
        }
      }
      if exists i, j :: 0 <= i < |events| - 1 && events[1..][i].kind == Provider
                        && 0 <= j < |events[1..][i].responses| && events[1..][i].responses[j].id == p {
        var i, j :| 0 <= i < |events| - 1 && events[1..][i].kind == Provider
                    && 0 <= j < |events[1..][i].responses| && events[1..][i].responses[j].id == p;
        assert events[i + 1] == events[1..][i];
      }
    }
  }
}
