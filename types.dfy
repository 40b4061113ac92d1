/** Values shared by the content-routing core: identifiers, peer records,
    the errors the API returns and the record of one announce call. */
module Types {

  /** A content identifier. Only equality is used, as for cid.Cid. */
  type Cid = nat

  /** A peer identity (peer.ID). */
  type PeerId = nat

  /** A network address of a peer (ma.Multiaddr). */
  type Addr = nat

  datatype Option<T> = None | Some(value: T)

  datatype Result<T, E> = Ok(value: T) | Err(error: E)

  /** A peer identity with its known addresses (pstore.PeerInfo). */
  datatype PeerInfo = PeerInfo(id: PeerId, addrs: seq<Addr>)

  /** What the node's Routing field holds: nothing (offline), a routing
      service that is not the Kademlia DHT, or the DHT itself. */
  datatype Routing = NoRouting | OtherRouting | Dht

  /** The errors the DHT API can return. The errors of the option parser,
      ResolvePath and Blockstore.Has keep their message as a string; a
      refused announce and a failed enumeration are named by their key; the
      API's own errors carry no formatted message. */
  datatype Error =
    | BadOptions(msg: string)       // the option parser failed
    | NotDHT                        // ErrNotDHT
    | Offline                       // "cannot provide in offline mode"
    | NoConnectedPeers              // "cannot provide, no connected peers"
    | ResolveFailed(msg: string)    // ResolvePath failed
    | BlockstoreFailed(msg: string) // Blockstore.Has failed
    | BlockNotFound(c: Cid)         // "block ... not found locally, cannot provide"
    | BadNumProviders               // "number of providers must be greater than 0"
    | AnnounceFailed(c: Cid)        // the router's Provide failed for c
    | LinksFailed(c: Cid)           // the links of c could not be fetched

  /** One call r.Provide(ctx, key, announce). */
  datatype ProvideCall = ProvideCall(key: Cid, announce: bool)

  /** The routing service as an oracle: whether r.Provide succeeds for a
      call, given the calls made before it in the same operation. */
  type Router = (seq<ProvideCall>, ProvideCall) -> bool

  /** The child relation of the local object graph: the direct links of each
      node whose links can be fetched. A node without an entry cannot be
      fetched, and asking for its links fails. */
  type Dag = map<Cid, seq<Cid>>

  function Elems(s: seq<Cid>): set<Cid>
  {
    set x | x in s
  }

  ghost predicate NoDup<T>(s: seq<T>)
  {
    forall i, j :: 0 <= i < j < |s| ==> s[i] != s[j]
  }

  /** The keys of a log of announce calls, in call order. */
  function CallKeys(calls: seq<ProvideCall>): seq<Cid>
  {
    seq(|calls|, i requires 0 <= i < |calls| => calls[i].key)
  }
}
