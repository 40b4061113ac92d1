/** DhtAPI.Provide and the two announce loops behind it: provideKeys, which
    announces a list of keys in order, and provideKeysRec, which announces
    every key enumerated from each root, each key at most once. */
module Provide {
  import opened Types
  import opened DagWalk

  /** The parsed options of Provide. */
  datatype ProvideSettings = ProvideSettings(recursive: bool)

  /** What Provide reads from the node: its routing service, how many peer
      connections it has, its blockstore's Has, its object graph and the
      router's announce behaviour. */
  datatype Node = Node(
    routing: Routing,
    conns: nat,
    has: Cid -> Result<bool, string>,
    dag: Dag,
    router: Router)

  /** The precondition chain of Provide: the options parse, routing is
      configured, a peer is connected, the path resolves, Has does not fail
      and the block is present. The first failing check decides the error;
      otherwise the result is the resolved key. */
  function ProvideGuard(settings: Result<ProvideSettings, string>, node: Node, resolved: Result<Cid, string>): (r: Result<Cid, Error>)
    ensures settings.Err? <==> r.Err? && r.error.BadOptions?
    ensures settings.Err? ==> r == Err(BadOptions(settings.error))
    ensures r == Err(Offline) <==> settings.Ok? && node.routing == NoRouting
    ensures r == Err(NoConnectedPeers) <==> settings.Ok? && node.routing != NoRouting && node.conns == 0
    ensures r.Err? && r.error.ResolveFailed? <==>
      settings.Ok? && node.routing != NoRouting && node.conns > 0 && resolved.Err?
    ensures r.Err? && r.error.BlockstoreFailed? <==>
      settings.Ok? && node.routing != NoRouting && node.conns > 0 && resolved.Ok? && node.has(resolved.value).Err?
    ensures r.Err? && r.error.BlockNotFound? <==>
      settings.Ok? && node.routing != NoRouting && node.conns > 0 && resolved.Ok? && node.has(resolved.value) == Ok(false)
    ensures r.Ok? <==>
      settings.Ok? && node.routing != NoRouting && node.conns > 0 && resolved.Ok? && node.has(resolved.value) == Ok(true)
    ensures r.Ok? ==> r.value == resolved.value
    ensures r.Err? && r.error.ResolveFailed? ==> resolved == Err(r.error.msg)
    ensures r.Err? && r.error.BlockstoreFailed? ==> resolved.Ok? && node.has(resolved.value) == Err(r.error.msg)
    ensures r.Err? && r.error.BlockNotFound? ==> resolved == Ok(r.error.c)
  {
    if settings.Err? then Err(BadOptions(settings.error))
    else if node.routing == NoRouting then Err(Offline)
    else if node.conns == 0 then Err(NoConnectedPeers)
    else if resolved.Err? then Err(ResolveFailed(resolved.error))
    else
      var c := resolved.value;
      match node.has(c)
      case Err(msg) => Err(BlockstoreFailed(msg))
      case Ok(present) => if present then Ok(c) else Err(BlockNotFound(c))
  }

  /** calls is the announce log of a loop that walks plan in order, calling
      r.Provide(k, true) for each key, and stops at the first refusal: the
      router accepted every call but a failing last one, and the loop went
      through the whole plan unless it failed. */
  ghost predicate AnnouncedInOrder(router: Router, plan: seq<Cid>, calls: seq<ProvideCall>, failed: bool)
  {
    && |calls| <= |plan|
    && (forall i :: 0 <= i < |calls| ==> calls[i] == ProvideCall(plan[i], true))
    && (forall i :: 0 <= i < |calls| ==> (router(calls[..i], calls[i]) <==> !(failed && i == |calls| - 1)))
    && (if failed then |calls| > 0 else |calls| == |plan|)
  }

  /** For a given router and plan, at most one log and outcome satisfy
      AnnouncedInOrder: the predicate pins down the loop's behaviour. */
  lemma AnnouncedDeterministic(router: Router, plan: seq<Cid>,
                               calls1: seq<ProvideCall>, failed1: bool,
                               calls2: seq<ProvideCall>, failed2: bool)
    requires AnnouncedInOrder(router, plan, calls1, failed1)
    requires AnnouncedInOrder(router, plan, calls2, failed2)
    ensures calls1 == calls2 && failed1 == failed2
  {
    if |calls1| == |calls2| {
      assert calls1 == calls2;
      if |calls1| > 0 {
        var n := |calls1| - 1;
        assert router(calls1[..n], calls1[n]) <==> !failed1;
      }
    } else if |calls1| < |calls2| {
      SameVerdict(router, calls1, calls2, |calls1|);
    } else {
      SameVerdict(router, calls2, calls1, |calls2|);
    }
  }

  /** Two logs that agree on their first n calls get the same verdict on
      call n - 1. */
  lemma SameVerdict(router: Router, calls1: seq<ProvideCall>, calls2: seq<ProvideCall>, n: nat)
    requires n <= |calls1| && n <= |calls2|
    requires forall i :: 0 <= i < n ==> calls1[i] == calls2[i]
    ensures n > 0 ==> (router(calls1[..n - 1], calls1[n - 1]) <==> router(calls2[..n - 1], calls2[n - 1]))
  {
    if n > 0 {
      assert calls1[..n - 1] == calls2[..n - 1];
    }
  }

  /** provideKeys: announce each key of cids in turn with the network flag
      set, returning the first announce error. */
  method ProvideKeys(router: Router, cids: seq<Cid>) returns (calls: seq<ProvideCall>, err: Option<Error>)
    ensures AnnouncedInOrder(router, cids, calls, err.Some?)
    ensures err.Some? ==> err.value == AnnounceFailed(cids[|calls| - 1])
  {
    calls := [];
    var i := 0;
    while i < |cids|
      invariant 0 <= i <= |cids| && |calls| == i
      invariant forall j :: 0 <= j < i ==> calls[j] == ProvideCall(cids[j], true)
      invariant forall j :: 0 <= j < i ==> router(calls[..j], calls[j])
    {
      var call := ProvideCall(cids[i], true);
      var ok := router(calls, call);
      assert forall j :: 0 <= j < i ==> (calls + [call])[..j] == calls[..j];
      assert (calls + [call])[..i] == calls;
      calls := calls + [call];
      if !ok {
        return calls, Some(AnnounceFailed(cids[i]));
      }
      i := i + 1;
    }
    return calls, None;
  }

  /** What the announce loops of provideKeysRec announce if every announce
      succeeds, and where they stop when the links of a key cannot be
      fetched: `stop` is that key. */
  datatype PlanResult = PlanResult(keys: seq<Cid>, stop: Option<Cid>)

  /** The keys of one root's loop announced in turn from ks: a key already
      provided is skipped, any other is announced and becomes provided. */
  function PlanKeys(ks: seq<Cid>, provided: set<Cid>): seq<Cid>
  {
    if ks == [] then []
    else if ks[0] in provided then PlanKeys(ks[1..], provided)
    else [ks[0]] + PlanKeys(ks[1..], provided + {ks[0]})
  }

  /** The announce plan of provideKeysRec over roots, starting from the set
      of keys already provided. */
  function Plan(dag: Dag, roots: seq<Cid>, provided: set<Cid>): PlanResult
  {
    if roots == [] then PlanResult([], None)
    else
      match Enumerate(dag, roots[0])
      case Err(c) => PlanResult([], Some(c))
      case Ok(ks) =>
        var here := PlanKeys(ks, provided);
        var rest := Plan(dag, roots[1..], provided + Elems(here));
        PlanResult(here + rest.keys, rest.stop)
  }

  /** The union of the key sets enumerated from roots, up to the first root
      whose enumeration fails. */
  function Enumerated(dag: Dag, roots: seq<Cid>): set<Cid>
  {
    if roots == [] then {}
    else
      match Enumerate(dag, roots[0])
      case Err(_) => {}
      case Ok(ks) => Elems(ks) + Enumerated(dag, roots[1..])
  }

  /** One root's loop announces each key of ks that is not yet provided,
      once. */
  lemma {:induction false} PlanKeysFresh(ks: seq<Cid>, provided: set<Cid>)
    ensures NoDup(PlanKeys(ks, provided))
    ensures Elems(PlanKeys(ks, provided)) == Elems(ks) - provided
  {
    if ks != [] {
      if ks[0] in provided {
        PlanKeysFresh(ks[1..], provided);
        assert Elems(ks) == {ks[0]} + Elems(ks[1..]);
      } else {
        PlanKeysFresh(ks[1..], provided + {ks[0]});
        var rest := PlanKeys(ks[1..], provided + {ks[0]});
        assert ks[0] !in rest;
        assert Elems(ks) == {ks[0]} + Elems(ks[1..]);
        assert Elems(PlanKeys(ks, provided)) == {ks[0]} + Elems(rest);
      }
    }
  }

  /** Across all roots, the plan announces each key at most once, never a
      key already provided, and exactly the enumerated keys not yet
      provided. */
  lemma {:induction false} PlanFresh(dag: Dag, roots: seq<Cid>, provided: set<Cid>)
    ensures NoDup(Plan(dag, roots, provided).keys)
    ensures Elems(Plan(dag, roots, provided).keys) == Enumerated(dag, roots) - provided
    decreases |roots|
  {
    if roots != [] {
      match Enumerate(dag, roots[0])
      case Err(_) =>
      case Ok(ks) =>
        var here := PlanKeys(ks, provided);
        var provided' := provided + Elems(here);
        PlanKeysFresh(ks, provided);
        PlanFresh(dag, roots[1..], provided');
        var rest := Plan(dag, roots[1..], provided').keys;
        assert Plan(dag, roots, provided).keys == here + rest;
        forall i, j | 0 <= i < j < |here + rest| ensures (here + rest)[i] != (here + rest)[j] {
          if i < |here| && j >= |here| {
            assert (here + rest)[i] in provided';
            assert (here + rest)[j] in rest;
          }
        }
        assert Elems(here + rest) == Elems(here) + Elems(rest);
    }
  }

  /** When every root enumerates, the plan runs to the end. */
  lemma {:induction false} PlanComplete(dag: Dag, roots: seq<Cid>, provided: set<Cid>)
    requires forall i :: 0 <= i < |roots| ==> Enumerate(dag, roots[i]).Ok?
    ensures Plan(dag, roots, provided).stop == None
    decreases |roots|
  {
    if roots != [] {
      var ks := Enumerate(dag, roots[0]).value;
      PlanComplete(dag, roots[1..], provided + Elems(PlanKeys(ks, provided)));
    }
  }

  /** When root i is the first whose enumeration fails, the plan keeps what
      the roots before it announce, announces no key for root i, and stops
      at root i's failing key. */
  lemma {:induction false} PlanAbort(dag: Dag, roots: seq<Cid>, provided: set<Cid>, i: nat)
    requires i < |roots|
    requires forall j :: 0 <= j < i ==> Enumerate(dag, roots[j]).Ok?
    requires Enumerate(dag, roots[i]).Err?
    ensures Plan(dag, roots, provided) == PlanResult(Plan(dag, roots[..i], provided).keys, Some(Enumerate(dag, roots[i]).error))
    decreases i
  {
    if i > 0 {
      var ks := Enumerate(dag, roots[0]).value;
      var provided' := provided + Elems(PlanKeys(ks, provided));
      assert roots[..i][1..] == roots[1..][..i - 1];
      assert forall j :: 0 <= j < i - 1 ==> roots[1..][j] == roots[j + 1];
      PlanAbort(dag, roots[1..], provided', i - 1);
    }
  }

  /** The union of the enumerated key sets of roots that all enumerate. */
  lemma {:induction false} EnumeratedAll(dag: Dag, roots: seq<Cid>, k: Cid)
    requires forall i :: 0 <= i < |roots| ==> Enumerate(dag, roots[i]).Ok?
    ensures k in Enumerated(dag, roots) <==> exists i :: 0 <= i < |roots| && k in Enumerate(dag, roots[i]).value
    decreases |roots|
  {
    if roots != [] {
      EnumeratedAll(dag, roots[1..], k);
      if k in Enumerated(dag, roots[1..]) {
        var i :| 0 <= i < |roots| - 1 && k in Enumerate(dag, roots[1..][i]).value;
        assert roots[1..][i] == roots[i + 1];
      }
      if exists i :: 0 <= i < |roots| && k in Enumerate(dag, roots[i]).value {
        var i :| 0 <= i < |roots| && k in Enumerate(dag, roots[i]).value;
        if i > 0 {
          assert roots[1..][i - 1] == roots[i];
        }
      }
    }
  }

  /** The loop of provideKeysRec over one root's enumerated keys ks: each
      key not in `provided` is announced, and added to `provided` once the
      announce succeeds; the loop stops at the first failing announce. The
      calls are appended to the log calls0 of the operation so far. */
  method AnnounceFresh(router: Router, ks: seq<Cid>, calls0: seq<ProvideCall>, provided0: set<Cid>)
    returns (calls: seq<ProvideCall>, provided: set<Cid>, ok: bool)
    ensures calls0 <= calls
    ensures ok ==> CallKeys(calls) == CallKeys(calls0) + PlanKeys(ks, provided0)
    ensures ok ==> provided == provided0 + Elems(PlanKeys(ks, provided0))
    ensures !ok ==> |calls| > |calls0| && CallKeys(calls) <= CallKeys(calls0) + PlanKeys(ks, provided0)
    ensures !ok ==> provided0 <= provided && calls[|calls| - 1].key !in provided
    ensures !ok ==> provided == provided0 + Elems(CallKeys(calls[|calls0|..|calls| - 1]))
    ensures forall j :: |calls0| <= j < |calls| ==>
      calls[j].announce && (router(calls[..j], calls[j]) <==> !(!ok && j == |calls| - 1))
  {
    calls, provided := calls0, provided0;
    var j := 0;
    while j < |ks|
      invariant 0 <= j <= |ks|
      invariant calls0 <= calls
      invariant provided0 <= provided
      invariant provided == provided0 + Elems(CallKeys(calls[|calls0|..]))
      invariant CallKeys(calls) + PlanKeys(ks[j..], provided) == CallKeys(calls0) + PlanKeys(ks, provided0)
      invariant provided + Elems(PlanKeys(ks[j..], provided)) == provided0 + Elems(PlanKeys(ks, provided0))
      invariant forall i :: |calls0| <= i < |calls| ==> calls[i].announce && router(calls[..i], calls[i])
    {
      var k := ks[j];
      assert ks[j..][1..] == ks[j + 1..];
      if k in provided {
        j := j + 1;
        continue;
      }
      var rest := PlanKeys(ks[j + 1..], provided + {k});
      assert PlanKeys(ks[j..], provided) == [k] + rest;
      assert provided + Elems([k] + rest) == (provided + {k}) + Elems(rest);
      var call := ProvideCall(k, true);
      ok := router(calls, call);
      assert forall i :: 0 <= i < |calls| ==> (calls + [call])[..i] == calls[..i];
      assert (calls + [call])[..|calls|] == calls;
      assert CallKeys(calls + [call]) == CallKeys(calls) + [k];
      assert (calls + [call])[|calls0|..] == calls[|calls0|..] + [call];
      assert CallKeys(calls[|calls0|..] + [call]) == CallKeys(calls[|calls0|..]) + [k];
      ghost var before := calls[|calls0|..];
      calls := calls + [call];
      assert calls[|calls0|..|calls| - 1] == before;
      if !ok {
        assert CallKeys(calls) + rest == CallKeys(calls0) + PlanKeys(ks, provided0);
        return;
      }
      provided := provided + {k};
      j := j + 1;
    }
    assert ks[j..] == [];
    ok := true;
  }

  /** provideKeysRec: for each root, enumerate its keys into a fresh set,
      then announce each enumerated key that is not yet provided, adding it
      to `provided` once its announce succeeds. The call log is exactly the
      plan's, up to the first failing announce; on success every enumerated
      key was announced exactly once. */
  method ProvideKeysRec(router: Router, dag: Dag, cids: seq<Cid>) returns (calls: seq<ProvideCall>, err: Option<Error>)
    ensures RecOutcome(router, dag, cids, calls, err)
  {
    calls := [];
    var provided: set<Cid> := {};
    var i := 0;
    RecStart(router, dag, cids);
    while i < |cids|
      invariant RecProgress(router, dag, cids, i, calls, provided)
    {
      var e := Enumerate(dag, cids[i]);
      if e.Err? {
        err := Some(LinksFailed(e.error));
        RecLinksFailed(router, dag, cids, i, calls, provided);
        return;
      }
      ghost var calls0, provided0 := calls, provided;
      var ok;
      calls, provided, ok := AnnounceFresh(router, e.value, calls, provided);
      RecRootDone(router, dag, cids, i, calls0, provided0, calls, provided, ok);
      if !ok {
        err := Some(AnnounceFailed(calls[|calls| - 1].key));
        return;
      }
      i := i + 1;
    }
    err := None;
    RecFinished(router, dag, cids, calls, provided);
  }

  /** The invariant of provideKeysRec's outer loop before root i:
      `provided` holds the keys announced so far, the log followed by the
      plan of the remaining roots is the whole plan, and every call so far
      was accepted. */
  ghost predicate RecProgress(router: Router, dag: Dag, cids: seq<Cid>, i: nat, calls: seq<ProvideCall>, provided: set<Cid>)
  {
    && i <= |cids|
    && provided == Elems(CallKeys(calls))
    && CallKeys(calls) + Plan(dag, cids[i..], provided).keys == Plan(dag, cids, {}).keys
    && Plan(dag, cids[i..], provided).stop == Plan(dag, cids, {}).stop
    && (forall j :: 0 <= j < |calls| ==> calls[j].announce && router(calls[..j], calls[j]))
  }

  /** What provideKeysRec promises about its log calls and its error err:
      the log is the plan's announce order up to the first refused announce,
      whose error is returned; otherwise the error is the links error of
      the plan's stopping key, if any; no key is announced twice; and on
      success the announced keys are all the enumerated keys. */
  ghost predicate RecOutcome(router: Router, dag: Dag, cids: seq<Cid>, calls: seq<ProvideCall>, err: Option<Error>)
  {
    && AnnouncedInOrder(router, Plan(dag, cids, {}).keys, calls, err.Some? && err.value.AnnounceFailed?)
    && (err.Some? && err.value.AnnounceFailed? ==> |calls| > 0 && err.value == AnnounceFailed(calls[|calls| - 1].key))
    && (!(err.Some? && err.value.AnnounceFailed?) ==>
          err == match Plan(dag, cids, {}).stop
                 case None => None
                 case Some(c) => Some(LinksFailed(c)))
    && NoDup(CallKeys(calls))
    && (err.None? ==> Elems(CallKeys(calls)) == Enumerated(dag, cids))
  }

  lemma RecStart(router: Router, dag: Dag, cids: seq<Cid>)
    ensures RecProgress(router, dag, cids, 0, [], {})
  {
    assert cids[0..] == cids;
    assert CallKeys([]) == [];
  }

  /** Root i's enumeration fails: provideKeysRec stops with its links
      error, having made every planned call. */
  lemma RecLinksFailed(router: Router, dag: Dag, cids: seq<Cid>, i: nat, calls: seq<ProvideCall>, provided: set<Cid>)
    requires RecProgress(router, dag, cids, i, calls, provided)
    requires i < |cids| && Enumerate(dag, cids[i]).Err?
    ensures RecOutcome(router, dag, cids, calls, Some(LinksFailed(Enumerate(dag, cids[i]).error)))
  {
    assert cids[i..][0] == cids[i];
    assert Plan(dag, cids[i..], provided) == PlanResult([], Some(Enumerate(dag, cids[i]).error));
    ProvideKeysRecFinished(router, dag, cids, calls);
  }

  /** Every root was processed: provideKeysRec made every planned call. */
  lemma RecFinished(router: Router, dag: Dag, cids: seq<Cid>, calls: seq<ProvideCall>, provided: set<Cid>)
    requires RecProgress(router, dag, cids, |cids|, calls, provided)
    ensures RecOutcome(router, dag, cids, calls, None)
  {
    assert cids[|cids|..] == [];
    ProvideKeysRecFinished(router, dag, cids, calls);
  }

  /** After root i's announce loop: when it succeeded the invariant holds
      for root i + 1; when an announce was refused provideKeysRec stops with
      that announce's error. */
  lemma RecRootDone(router: Router, dag: Dag, cids: seq<Cid>, i: nat,
                    calls0: seq<ProvideCall>, provided0: set<Cid>,
                    calls: seq<ProvideCall>, provided: set<Cid>, ok: bool)
    requires RecProgress(router, dag, cids, i, calls0, provided0)
    requires i < |cids| && Enumerate(dag, cids[i]).Ok?
    requires calls0 <= calls
    requires ok ==> CallKeys(calls) == CallKeys(calls0) + PlanKeys(Enumerate(dag, cids[i]).value, provided0)
    requires ok ==> provided == provided0 + Elems(PlanKeys(Enumerate(dag, cids[i]).value, provided0))
    requires !ok ==> |calls| > |calls0| && CallKeys(calls) <= CallKeys(calls0) + PlanKeys(Enumerate(dag, cids[i]).value, provided0)
    requires forall j :: |calls0| <= j < |calls| ==>
      calls[j].announce && (router(calls[..j], calls[j]) <==> !(!ok && j == |calls| - 1))
    ensures ok ==> RecProgress(router, dag, cids, i + 1, calls, provided)
    ensures !ok ==> |calls| > 0 && RecOutcome(router, dag, cids, calls, Some(AnnounceFailed(calls[|calls| - 1].key)))
  {
    LogExtends(router, calls0, calls);
    RootStep(dag, cids, i, Plan(dag, cids, {}).keys, calls0, provided0, calls, provided, ok);
    if !ok {
      ProvideKeysRecFailed(router, dag, cids, calls);
    }
  }

  /** One root of provideKeysRec: when its enumeration succeeds and its
      loop announced the planned keys, the outer loop's invariant holds for
      the next root; when the loop stopped early, the log is still a prefix
      of the plan. */
  lemma RootStep(dag: Dag, cids: seq<Cid>, i: nat, plan: seq<Cid>,
                 calls0: seq<ProvideCall>, provided0: set<Cid>,
                 calls: seq<ProvideCall>, provided: set<Cid>, ok: bool)
    requires i < |cids| && Enumerate(dag, cids[i]).Ok?
    requires provided0 == Elems(CallKeys(calls0))
    requires CallKeys(calls0) + Plan(dag, cids[i..], provided0).keys == plan
    requires ok ==> CallKeys(calls) == CallKeys(calls0) + PlanKeys(Enumerate(dag, cids[i]).value, provided0)
    requires ok ==> provided == provided0 + Elems(PlanKeys(Enumerate(dag, cids[i]).value, provided0))
    requires !ok ==> CallKeys(calls) <= CallKeys(calls0) + PlanKeys(Enumerate(dag, cids[i]).value, provided0)
    ensures ok ==> provided == Elems(CallKeys(calls))
    ensures ok ==> CallKeys(calls) + Plan(dag, cids[i + 1..], provided).keys == plan
    ensures ok ==> Plan(dag, cids[i + 1..], provided).stop == Plan(dag, cids[i..], provided0).stop
    ensures !ok ==> CallKeys(calls) <= plan
  {
    var here := PlanKeys(Enumerate(dag, cids[i]).value, provided0);
    assert cids[i..][1..] == cids[i + 1..];
    assert Plan(dag, cids[i..], provided0).keys == here + Plan(dag, cids[i + 1..], provided0 + Elems(here)).keys;
    if ok {
      assert Elems(CallKeys(calls)) == Elems(CallKeys(calls0)) + Elems(here);
    }
  }

  /** Extending a log keeps the verdicts on the calls already in it. */
  lemma LogExtends(router: Router, calls0: seq<ProvideCall>, calls: seq<ProvideCall>)
    requires calls0 <= calls
    requires forall j :: 0 <= j < |calls0| ==> calls0[j].announce && router(calls0[..j], calls0[j])
    ensures forall j :: 0 <= j < |calls0| ==> calls[j].announce && router(calls[..j], calls[j])
  {
    forall j | 0 <= j < |calls0| ensures calls[j].announce && router(calls[..j], calls[j]) {
      assert calls[..j] == calls0[..j];
    }
  }

  /** A run of provideKeysRec that made every planned call, each accepted:
      the log is the plan, which announces each key once and, when no
      enumeration failed, every enumerated key. */
  lemma ProvideKeysRecFinished(router: Router, dag: Dag, cids: seq<Cid>, calls: seq<ProvideCall>)
    requires CallKeys(calls) == Plan(dag, cids, {}).keys
    requires forall j :: 0 <= j < |calls| ==> calls[j].announce && router(calls[..j], calls[j])
    ensures AnnouncedInOrder(router, Plan(dag, cids, {}).keys, calls, false)
    ensures NoDup(CallKeys(calls))
    ensures Plan(dag, cids, {}).stop.None? ==> Elems(CallKeys(calls)) == Enumerated(dag, cids)
  {
    var plan := Plan(dag, cids, {}).keys;
    PlanFresh(dag, cids, {});
    assert forall j :: 0 <= j < |calls| ==> calls[j] == ProvideCall(plan[j], true);
    assert Elems(CallKeys(calls)) == Enumerated(dag, cids) - {};
  }

  /** A run of provideKeysRec whose last call was refused: the log is a
      prefix of the plan, so each key in it is announced once. */
  lemma ProvideKeysRecFailed(router: Router, dag: Dag, cids: seq<Cid>, calls: seq<ProvideCall>)
    requires |calls| > 0
    requires CallKeys(calls) <= Plan(dag, cids, {}).keys
    requires forall j :: 0 <= j < |calls| ==> calls[j].announce
    requires forall j :: 0 <= j < |calls| ==> (router(calls[..j], calls[j]) <==> j != |calls| - 1)
    ensures AnnouncedInOrder(router, Plan(dag, cids, {}).keys, calls, true)
    ensures NoDup(CallKeys(calls))
  {
    var plan := Plan(dag, cids, {}).keys;
    PlanFresh(dag, cids, {});
    assert forall j :: 0 <= j < |calls| ==> CallKeys(calls)[j] == plan[j];
    assert forall j :: 0 <= j < |calls| ==> calls[j] == ProvideCall(plan[j], true);
  }

  /** DhtAPI.Provide: the precondition chain, then one announce of the
      resolved key, or announces of every key enumerated from it. A failing
      precondition means no announce is made. */
  method Provide(settings: Result<ProvideSettings, string>, node: Node, resolved: Result<Cid, string>)
    returns (calls: seq<ProvideCall>, err: Option<Error>)
    ensures ProvideGuard(settings, node, resolved).Err? ==>
      calls == [] && err == Some(ProvideGuard(settings, node, resolved).error)
    ensures ProvideGuard(settings, node, resolved).Ok? && !settings.value.recursive ==>
      var call := ProvideCall(resolved.value, true);
      && calls == [call]
      && (err == None <==> node.router([], call))
      && (err.Some? ==> err.value == AnnounceFailed(resolved.value))
    ensures ProvideGuard(settings, node, resolved).Ok? && settings.value.recursive ==>
      && NoDup(CallKeys(calls))
      && (forall j :: 0 <= j < |calls| ==> calls[j].announce)
      && (err.None? ==> Enumerate(node.dag, resolved.value).Ok?
                        && Elems(CallKeys(calls)) == Elems(Enumerate(node.dag, resolved.value).value))
      && (err.Some? ==> err.value.AnnounceFailed?
                        || (Enumerate(node.dag, resolved.value).Err?
                            && err == Some(LinksFailed(Enumerate(node.dag, resolved.value).error))))
      && (Enumerate(node.dag, resolved.value).Err? ==>
            calls == [] && err == Some(LinksFailed(Enumerate(node.dag, resolved.value).error)))
    ensures ProvideGuard(settings, node, resolved).Ok? && settings.value.recursive ==>
      RecOutcome(node.router, node.dag, [resolved.value], calls, err)
  {
    var guard := ProvideGuard(settings, node, resolved);
    if guard.Err? {
      return [], Some(guard.error);
    }
    var c := guard.value;
    if settings.value.recursive {
      calls, err := ProvideKeysRec(node.router, node.dag, [c]);
      RecursiveProvideOutcome(node.router, node.dag, c, calls, err);
    } else {
      calls, err := ProvideKeys(node.router, [c]);
      assert calls[..0] == [];
    }
  }

  /** The outcome of provideKeysRec on the single root c, in terms of c's
      enumeration: a failing enumeration means no announce at all. */
  lemma RecursiveProvideOutcome(router: Router, dag: Dag, c: Cid, calls: seq<ProvideCall>, err: Option<Error>)
    requires RecOutcome(router, dag, [c], calls, err)
    ensures err.None? ==> Enumerate(dag, c).Ok? && Elems(CallKeys(calls)) == Elems(Enumerate(dag, c).value)
    ensures err.Some? ==> err.value.AnnounceFailed? || (Enumerate(dag, c).Err? && err == Some(LinksFailed(Enumerate(dag, c).error)))
    ensures Enumerate(dag, c).Err? ==> calls == [] && err == Some(LinksFailed(Enumerate(dag, c).error))
  {
    assert [c][1..] == [];
    match Enumerate(dag, c)
    case Err(k) =>
      assert Plan(dag, [c], {}) == PlanResult([], Some(k));
    case Ok(ks) =>
      assert Plan(dag, [c], {}).stop == None;
      assert Enumerated(dag, [c]) == Elems(ks);
  }

  /** With a router that accepts every announce, provideKeysRec on a root
      that enumerates returns no error and announces every enumerated key. */
  lemma AcceptingRouterProvides(router: Router, dag: Dag, c: Cid, calls: seq<ProvideCall>, err: Option<Error>)
    requires RecOutcome(router, dag, [c], calls, err)
    requires forall log, call :: router(log, call)
    requires Enumerate(dag, c).Ok?
    ensures err == None
    ensures Elems(CallKeys(calls)) == Elems(Enumerate(dag, c).value)
  {
    PlanComplete(dag, [c], {});
    if |calls| > 0 {
      var n := |calls| - 1;
      assert router(calls[..n], calls[n]);
    }
    RecursiveProvideOutcome(router, dag, c, calls, err);
  }

  /** A root with two children that share one grandchild. */
  const Diamond: Dag := map[1 := [2, 3], 2 := [4], 3 := [4], 4 := []]

  lemma DiamondEnumerate()
    ensures Enumerate(Diamond, 1) == Ok([1, 2, 3, 4])
  {
    var dag := Diamond;
    assert [4][1..] == [] && [4, 4][1..] + dag[4] == [4];
    assert [3, 4][1..] + dag[3] == [4, 4] && [2, 3][1..] + dag[2] == [3, 4];
    assert [1][1..] + dag[1] == [2, 3];
    assert [1, 2, 3] + [4] == [1, 2, 3, 4] && [1, 2] + [3] == [1, 2, 3] && [1] + [2] == [1, 2] && [] + [1] == [1];
    assert Walk(dag, [4], [1, 2, 3, 4]) == Ok([1, 2, 3, 4]);
    assert Walk(dag, [4, 4], [1, 2, 3]) == Ok([1, 2, 3, 4]);
    assert Walk(dag, [3, 4], [1, 2]) == Ok([1, 2, 3, 4]);
    assert Walk(dag, [2, 3], [1]) == Ok([1, 2, 3, 4]);
  }

  lemma DiamondPlanKeys()
    ensures PlanKeys([1, 2, 3, 4], {}) == [1, 2, 3, 4]
  {
    assert [1, 2, 3, 4][1..] == [2, 3, 4] && [2, 3, 4][1..] == [3, 4] && [3, 4][1..] == [4] && [4][1..] == [];
    assert {} + {1} == {1} && {1} + {2} == {1, 2} && {1, 2} + {3} == {1, 2, 3};
    assert PlanKeys([4], {1, 2, 3}) == [4];
    assert PlanKeys([3, 4], {1, 2}) == [3, 4];
    assert PlanKeys([2, 3, 4], {1}) == [2, 3, 4];
  }

  /** A recursive provide of the diamond's root announces its four keys,
      each once, in enumeration order, and completes. */
  lemma DiamondScenario()
    ensures Plan(Diamond, [1], {}) == PlanResult([1, 2, 3, 4], None)
  {
    DiamondEnumerate();
    DiamondPlanKeys();
    assert [1][1..] == [];
  }
}
