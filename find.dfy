/** DhtAPI.FindPeer and DhtAPI.FindProviders: the checks made before any
    stream is handed out, the events each operation's driver publishes, and
    the stream the consumer produces from them. */
module Find {
  import opened Types
  import opened QueryEvents

  /** The events FindPeer's registration delivers: those the DHT lookup
      publishes while it runs, then the driver's own event, a FinalPeer
      event with the found record or a QueryError event with the error. */
  function FindPeerEvents(during: seq<QueryEvent>, lookup: Result<PeerInfo, string>): seq<QueryEvent>
  {
    match lookup
    case Ok(pi) => during + [QueryEvent(FinalPeer, [pi], "")]
    case Err(msg) => during + [QueryEvent(QueryError, [], msg)]
  }

  /** A stream of events without a FinalPeer event yields no addresses. */
  lemma {:induction false} NoFinalPeerNoAddrs(events: seq<QueryEvent>)
    requires forall i :: 0 <= i < |events| ==> events[i].kind != FinalPeer
    ensures PeerAddrs(events) == []
  {
    if events != [] {
      assert forall i :: 0 <= i < |events| - 1 ==> events[1..][i] == events[i + 1];
      NoFinalPeerNoAddrs(events[1..]);
    }
  }

  /** The driver's own event adds the found peer's addresses to the
      addresses of the lookup's events, or nothing when the lookup fails. */
  lemma FindPeerEventsAddrs(during: seq<QueryEvent>, lookup: Result<PeerInfo, string>)
    ensures PeerAddrs(FindPeerEvents(during, lookup)) ==
      PeerAddrs(during) + (if lookup.Ok? then lookup.value.addrs else [])
  {
    var last := match lookup
      case Ok(pi) => QueryEvent(FinalPeer, [pi], "")
      case Err(msg) => QueryEvent(QueryError, [], msg);
    assert FindPeerEvents(during, lookup) == during + [last];
    PeerAddrsAppend(during, [last]);
    assert [last][1..] == [];
    if lookup.Ok? {
      assert [lookup.value][1..] == [];
      assert InfoAddrs([lookup.value]) == lookup.value.addrs;
    }
  }

  /** When the lookup itself publishes no FinalPeer event, FindPeer streams
      the found peer's addresses, or nothing when the lookup fails. */
  lemma FindPeerOutcome(during: seq<QueryEvent>, lookup: Result<PeerInfo, string>)
    requires forall i :: 0 <= i < |during| ==> during[i].kind != FinalPeer
    ensures PeerAddrs(FindPeerEvents(during, lookup)) == if lookup.Ok? then lookup.value.addrs else []
  {
    FindPeerEventsAddrs(during, lookup);
    NoFinalPeerNoAddrs(during);
  }

  /** FindPeer: fails with ErrNotDHT unless the routing service is the DHT;
      otherwise streams the addresses of every FinalPeer event of the
      lookup, in order, cut short when the context is cancelled. */
  method FindPeer(routing: Routing, during: seq<QueryEvent>, lookup: Result<PeerInfo, string>, cancel: Option<nat>)
    returns (r: Result<seq<Addr>, Error>)
    ensures routing != Dht ==> r == Err(NotDHT)
    ensures routing == Dht ==> r.Ok? && r.value == Truncate(PeerAddrs(FindPeerEvents(during, lookup)), cancel)
    ensures routing == Dht && (forall i :: 0 <= i < |during| ==> during[i].kind != FinalPeer) ==>
      r.value == Truncate(if lookup.Ok? then lookup.value.addrs else [], cancel)
  {
    if routing != Dht {
      return Err(NotDHT);
    }
    var events := FindPeerEvents(during, lookup);
    var out := DrainFinalPeers(events, cancel);
    if forall i :: 0 <= i < |during| ==> during[i].kind != FinalPeer {
      FindPeerOutcome(during, lookup);
    }
    return Ok(out);
  }

  /** The parsed options of FindProviders. */
  datatype FindProvidersSettings = FindProvidersSettings(numProviders: int)

  /** The checks of FindProviders, in the code's order: the options parse,
      the routing service is the DHT, the path resolves, and at least one
      provider is asked for. The result is the key and the provider count. */
  function FindProvidersGuard(settings: Result<FindProvidersSettings, string>, routing: Routing, resolved: Result<Cid, string>)
    : (r: Result<(Cid, nat), Error>)
    ensures settings.Err? <==> r.Err? && r.error.BadOptions?
    ensures settings.Err? ==> r == Err(BadOptions(settings.error))
    ensures r == Err(NotDHT) <==> settings.Ok? && routing != Dht
    ensures r.Err? && r.error.ResolveFailed? <==> settings.Ok? && routing == Dht && resolved.Err?
    ensures r.Err? && r.error.ResolveFailed? ==> resolved == Err(r.error.msg)
    ensures r == Err(BadNumProviders) <==>
      settings.Ok? && routing == Dht && resolved.Ok? && settings.value.numProviders < 1
    ensures r.Ok? <==> settings.Ok? && routing == Dht && resolved.Ok? && settings.value.numProviders >= 1
    ensures r.Ok? ==> r.value.0 == resolved.value && r.value.1 == settings.value.numProviders && r.value.1 >= 1
  {
    if settings.Err? then Err(BadOptions(settings.error))
    else if routing != Dht then Err(NotDHT)
    else if resolved.Err? then Err(ResolveFailed(resolved.error))
    else if settings.value.numProviders < 1 then Err(BadNumProviders)
    else Ok((resolved.value, settings.value.numProviders as nat))
  }

  /** The events FindProviders' driver publishes: one Provider event per
      record read from the DHT's provider stream. */
  function ProviderEvents(found: seq<PeerInfo>): seq<QueryEvent>
  {
    seq(|found|, i requires 0 <= i < |found| => QueryEvent(Provider, [found[i]], ""))
  }

  /** The identities streamed from the driver's events are those of the
      provider stream, in order. */
  lemma {:induction false} ProviderEventsIds(found: seq<PeerInfo>)
    ensures ProviderIds(ProviderEvents(found)) == InfoIds(found)
  {
    if found != [] {
      var events := ProviderEvents(found);
      assert events[1..] == ProviderEvents(found[1..]);
      ProviderEventsIds(found[1..]);
      assert [found[0]][1..] == [];
      assert InfoIds([found[0]]) == [found[0].id];
    }
  }

  /** Each record gives exactly one identity, so the provider stream's
      count bounds the output. */
  lemma {:induction false} InfoIdsLength(rs: seq<PeerInfo>)
    ensures |InfoIds(rs)| == |rs|
  {
    if rs != [] {
      InfoIdsLength(rs[1..]);
    }
  }

  /** FindProviders: the checks, then a stream of the identities of the
      providers the DHT finds for the key, bounded by the requested count,
      cut short when the context is cancelled. findProvidersAsync stands for
      the DHT's provider stream for a key and a count. */
  method FindProviders(settings: Result<FindProvidersSettings, string>, routing: Routing, resolved: Result<Cid, string>,
                       findProvidersAsync: (Cid, nat) -> seq<PeerInfo>, cancel: Option<nat>)
    returns (r: Result<seq<PeerId>, Error>)
    ensures FindProvidersGuard(settings, routing, resolved).Err? ==>
      r == Err(FindProvidersGuard(settings, routing, resolved).error)
    ensures FindProvidersGuard(settings, routing, resolved).Ok? ==>
      var (c, n) := FindProvidersGuard(settings, routing, resolved).value;
      && r.Ok?
      && r.value == Truncate(InfoIds(findProvidersAsync(c, n)), cancel)
      && (|findProvidersAsync(c, n)| <= n ==> |r.value| <= n)
  {
    var guard := FindProvidersGuard(settings, routing, resolved);
    if guard.Err? {
      return Err(guard.error);
    }
    var (c, n) := guard.value;
    var found := findProvidersAsync(c, n);
    var out := DrainProviders(ProviderEvents(found), cancel);
    ProviderEventsIds(found);
    InfoIdsLength(found);
    return Ok(out);
  }
}
