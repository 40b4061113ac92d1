# Content routing of the core API: a verified model

This project models the content-routing half of the core API of an IPFS
node, `DhtAPI` in `core/coreapi/dht.go`. It covers three operations:

- **Provide** announces to the routing service that the node can serve a
  block. With the recursive option it announces every block reachable from
  that block.
- **FindPeer** streams the addresses the DHT finds for a peer.
- **FindProviders** streams the identities of the peers that the DHT
  reports as providers of a block.

The model has five modules:

- `Types` (`types.dfy`): identifiers, peer records, the API's errors, and
  the record of one announce call, `r.Provide(ctx, key, true)`.
- `DagWalk` (`dag_walk.dfy`): a sequential worklist walk over the child map
  of the local object graph. It stands in for the key enumeration of
  recursive provide (`dag.EnumerateChildrenAsync` visiting into a `cid.Set`).
  The walk yields the keys in insertion order, each once, or the first key
  whose links cannot be fetched.
- `Provide` (`provide.dfy`): the precondition chain of `Provide`, the two
  announce loops `provideKeys` and `provideKeysRec`, and the dispatch
  between them.
  - The announce loops are imperative methods proved against specification
    functions. `Plan` gives the announce order of `provideKeysRec`.
  - The router is an oracle. It decides whether each call succeeds, given
    the calls made before it.
  - Each method returns its call log, and every property is stated about
    that log.
- `QueryEvents` (`query_events.dfy`): the consumer loops of FindPeer and
  FindProviders over the event stream, proved against the pure filters
  `PeerAddrs` and `ProviderIds`. Cancellation is modelled as the number of
  results delivered before the context is done.
- `Find` (`find.dfy`): the guards of FindPeer and FindProviders, and what
  the events each operation's driver publishes add to the consumer's output.

The following are parameters of the operations:

- the parsed options;
- what `ResolvePath` returns;
- the routing service's kind (none, a non-DHT router, or the DHT, which
  stands for the `*ipdht.IpfsDHT` type assertion);
- the number of peer connections;
- `Blockstore.Has`;
- the object graph;
- the announce oracle;
- the events the DHT lookup publishes;
- the provider stream.

The model follows the code's order of checks:

- `Provide` checks the options parse before anything else.
- `FindProviders` resolves the path before it checks `numProviders`.

## Model

| member | source | states |
|---|---|---|
| DagWalk.WalkOk | core/coreapi/dht.go:224-229 | a successful walk keeps the visited keys as a prefix, never repeats a key, visits everything queued, and yields only fetchable keys whose children are all visited |
| DagWalk.WalkLeast | core/coreapi/dht.go:224-229 | every key a walk yields, and the key it fails on, lies in any child-closed set holding the start; the failing key has no links |
| DagWalk.EnumerateOk | core/coreapi/dht.go:224-229 | a successful enumeration starts at the root, has no duplicate, and yields a child-closed set of fetchable keys |
| DagWalk.EnumerateLeast | core/coreapi/dht.go:224-229 | the enumerated keys lie inside every child-closed set containing the root, so the enumeration is exactly the keys reachable from the root |
| Provide.ProvideGuard | core/coreapi/dht.go:151-179 | the checks in code order: options, offline, no connected peers, resolve error, Has error, block absent; each error holds exactly when the earlier checks pass and this one fails; the option parser's, `ResolvePath`'s and `Has`'s errors are passed on with their own message, and the block-absent error names the resolved key; otherwise the resolved key |
| Provide.AnnouncedDeterministic | core/coreapi/dht.go:211-219 | for a router and a plan, at most one call log and outcome fit the announce-in-order description |
| Provide.ProvideKeys | core/coreapi/dht.go:211-219 | announces the keys in input order with the network flag set; stops at the first refused announce and returns its error; keys after it are never announced; every earlier call was accepted |
| Provide.PlanKeysFresh | core/coreapi/dht.go:231-241 | one root's loop announces exactly the enumerated keys not yet provided, each once |
| Provide.PlanFresh | core/coreapi/dht.go:221-242 | across all roots the plan never repeats a key, never announces a key already provided, and announces exactly the enumerated keys not yet provided |
| Provide.PlanComplete | core/coreapi/dht.go:223-242 | when every root enumerates, the plan runs to the end without a links error |
| Provide.PlanAbort | core/coreapi/dht.go:226-229 | when root i is the first whose enumeration fails, the plan keeps the earlier roots' keys, announces none of root i's keys, and stops at root i's failing key |
| Provide.EnumeratedAll | core/coreapi/dht.go:222-242 | when all roots enumerate, a key is in the enumerated union exactly when some root's enumeration yields it |
| Provide.AnnounceFresh | core/coreapi/dht.go:231-241 | the inner loop over one root's keys: skips provided keys, announces the others in order, adds a key to `provided` only after its announce succeeds, and stops at the first refusal; on a refusal `provided` is exactly the starting set plus the keys whose announces succeeded, so the refused key stays out |
| Provide.ProvideKeysRec | core/coreapi/dht.go:221-245 | (through `RecOutcome`) the call log is the plan's announce order up to the first refused announce; the error is that announce's, or a links error exactly when the plan stops; no key is announced twice; on success the announced keys are the union of all enumerated sets |
| Provide.Provide | core/coreapi/dht.go:151-209 | a failing precondition returns its error with no announce; non-recursive announces the resolved key once with the flag set and fails exactly when that announce is refused; recursive satisfies `RecOutcome` for the single root: its log is the plan's announce order up to the first refused announce, whose error is returned; it announces each key enumerated from the resolved key once; a failing enumeration gives its links error with no announce |
| Provide.RecursiveProvideOutcome | core/coreapi/dht.go:199-200 | the recursive outcome in terms of the single root's enumeration: on success the announced keys are the enumerated ones; a failing enumeration gives no announce and its links error |
| Provide.AcceptingRouterProvides | core/coreapi/dht.go:199-200 | with a router that accepts every announce, recursive provide of a root that enumerates returns no error and announces every enumerated key |
| Provide.DiamondScenario | core/coreapi/dht.go:221-245 | a root with two children sharing one grandchild gives four announces, each key once, and completes |
| QueryEvents.Truncate | core/coreapi/dht.go:45-48 | the cancelled output is a prefix of the full output, of the delivered length, and the whole output when never cancelled |
| QueryEvents.SendAddrs | core/coreapi/dht.go:42-53 | sends every address of every record in order after those already sent, or, when the context is cancelled with addresses still unsent, stops after exactly the budget |
| QueryEvents.DrainFinalPeers | core/coreapi/dht.go:55-62 | the FindPeer consumer delivers the addresses of the FinalPeer events in order, cut to a prefix on cancellation |
| QueryEvents.SendProviders | core/coreapi/dht.go:116-125 | sends every record's identity in order after those already sent, or, when the context is cancelled with identities still unsent, stops after exactly the budget |
| QueryEvents.DrainProviders | core/coreapi/dht.go:127-134 | the FindProviders consumer delivers the identities of the Provider events in order, cut to a prefix on cancellation |
| QueryEvents.PeerAddrsAppend | core/coreapi/dht.go:55-62 | FindPeer's output over concatenated event streams is the concatenation of the outputs |
| QueryEvents.ProviderIdsAppend | core/coreapi/dht.go:127-134 | FindProviders' output over concatenated event streams is the concatenation of the outputs |
| QueryEvents.PeerAddrsPrefix | core/coreapi/dht.go:55-62 | the addresses sent for a prefix of the events are a prefix of those sent for all of them |
| QueryEvents.ProviderIdsPrefix | core/coreapi/dht.go:127-134 | the identities sent for a prefix of the events are a prefix of those sent for all of them |
| QueryEvents.PeerAddrsSkips | core/coreapi/dht.go:56 | an event other than FinalPeer, a QueryError included, changes nothing in FindPeer's output wherever it occurs |
| QueryEvents.ProviderIdsSkips | core/coreapi/dht.go:128 | an event other than Provider changes nothing in FindProviders' output wherever it occurs |
| QueryEvents.InfoAddrsHas | core/coreapi/dht.go:43-44 | an address is sent for a record list exactly when some record lists it |
| QueryEvents.InfoIdsHas | core/coreapi/dht.go:117-119 | an identity is sent for a record list exactly when some record has it |
| QueryEvents.PeerAddrsHas | core/coreapi/dht.go:55-62 | an address is in FindPeer's output exactly when a record of some FinalPeer event lists it |
| QueryEvents.ProviderIdsHas | core/coreapi/dht.go:127-134 | a peer is in FindProviders' output exactly when it is the identity of a record of some Provider event |
| Find.FindPeerEventsAddrs | core/coreapi/dht.go:65-80 | the driver's own event adds the found peer's addresses to those of the lookup's events, or nothing when the lookup fails |
| Find.NoFinalPeerNoAddrs | core/coreapi/dht.go:55-62 | an event stream without a FinalPeer event yields no address |
| Find.FindPeerOutcome | core/coreapi/dht.go:65-80 | when the lookup publishes no FinalPeer event itself, FindPeer streams the found peer's addresses, or nothing when the lookup fails |
| Find.FindPeer | core/coreapi/dht.go:29-83 | fails with ErrNotDHT exactly when the router is not the DHT; otherwise streams the FinalPeer addresses in order, cut on cancellation, which are the found peer's addresses when the lookup publishes no FinalPeer event |
| Find.FindProvidersGuard | core/coreapi/dht.go:85-106 | the checks in code order: options, ErrNotDHT, resolve error, fewer than one provider asked for; each error holds exactly when the earlier checks pass and this one fails; the option parser's and `ResolvePath`'s errors are passed on with their own message; otherwise the key and a positive count |
| Find.ProviderEventsIds | core/coreapi/dht.go:137-146 | the identities taken from the driver's events are those of the provider stream, in order |
| Find.FindProviders | core/coreapi/dht.go:85-149 | a failing check returns its error; otherwise streams the identities of the provider stream in order, cut on cancellation, and no more than the requested count when the stream respects it |

## Left out

- Goroutines, channels, `defer close` and the `select` on `ctx.Done()`: the model keeps the sequential relation between the events and the output. Cancellation is a count of delivered results, not a race.
- The `notif` query-event registry (`RegisterForQueryEvents`, `PublishQueryEvent`): it is a foreign package. The events it would deliver are an input sequence.
- The routing service, the DHT lookups, `ResolvePath`, `Blockstore.Has` and the connection count: all are oracles or parameters. Their implementations are not part of this model.
- `dag.EnumerateChildrenAsync`, `dag.GetLinksDirect` and `cid.Set` are not part of this model. The enumeration is a sequential walk that includes the root. The order of `kset.Keys()` is taken to be insertion order, whereas Go leaves it unspecified. The properties are stated relative to whatever the walk yields.
- Option parsing (`caopts.DhtProvideOptions`, `caopts.DhtFindProvidersOptions`) is not part of this model. Its outcome is a parameter.
- Error messages: the API's own errors are constructors without their formatted text. The errors of the option parser, `ResolvePath` and `Blockstore.Has` keep their message as a string.
- Announce errors: the routing service's `Provide` error is returned unchanged by the source. The model returns `AnnounceFailed(k)` in its place, which names the refused key and carries no message. The router oracle gives only success or failure.
- Enumeration errors: the source returns the error of `EnumerateChildrenAsync` unchanged. The model returns `LinksFailed(k)` in its place, naming the key whose links could not be fetched. The walk fails only on a key missing from the child map, so an enumeration that fails for another reason, such as a cancelled context or a transient fetch error, is not represented.
- The commented-out code after the guards of `Provide` is dead code.
- `Find.FindProviders`: the bound on the number of providers is proved only when the provider stream respects the requested count, because the DHT enforces that bound.
- `Find.FindProviders`: events other than Provider events that the DHT may publish during the search are not modelled. By `QueryEvents.ProviderIdsSkips` they would not change the output.
- The Go `int` width of `numProviders` is not modelled. It is an unbounded integer.
- The write-through blockservice test is not part of this model. It tests a wrapper around a foreign blockstore.
