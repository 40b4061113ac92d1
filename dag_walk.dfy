/** A sequential stand-in for the key enumeration that recursive provide
    runs for each root: dag.EnumerateChildrenAsync over dag.GetLinksDirect,
    visiting keys into a fresh cid.Set. The stand-in is a worklist walk that
    marks a key visited, fetches its links and queues its children; it yields
    the visited keys in insertion order, or the first key whose links could
    not be fetched. */
module DagWalk {
  import opened Types

  /** S holds the children of every node of S that has links. */
  ghost predicate ChildClosed(dag: Dag, S: set<Cid>)
  {
    forall k :: k in S && k in dag ==> forall ch :: ch in dag[k] ==> ch in S
  }

  /** Every visited key has links, and each of its children is visited or
      still waiting in the worklist. */
  ghost predicate Frontier(dag: Dag, work: seq<Cid>, visited: seq<Cid>)
  {
    forall v :: v in visited ==> v in dag && forall ch :: ch in dag[v] ==> ch in visited || ch in work
  }

  function Walk(dag: Dag, work: seq<Cid>, visited: seq<Cid>): Result<seq<Cid>, Cid>
    decreases dag.Keys - Elems(visited), |work|
  {
    if work == [] then Ok(visited)
    else
      var c := work[0];
      if c in visited then Walk(dag, work[1..], visited)
      else if c !in dag then Err(c)
      else
        assert dag.Keys - Elems(visited + [c]) < dag.Keys - Elems(visited) by {
          assert c in dag.Keys - Elems(visited);
          assert c !in dag.Keys - Elems(visited + [c]);
        }
        Walk(dag, work[1..] + dag[c], visited + [c])
  }

  /** The keys reachable from root, or the first key whose links fail. */
  function Enumerate(dag: Dag, root: Cid): Result<seq<Cid>, Cid>
  {
    Walk(dag, [root], [])
  }

  /** A successful walk extends the visited keys without repeating one, and
      leaves a set that holds the worklist and is closed under children. */
  lemma {:induction false} WalkOk(dag: Dag, work: seq<Cid>, visited: seq<Cid>)
    requires NoDup(visited)
    requires Frontier(dag, work, visited)
    ensures Walk(dag, work, visited).Ok? ==>
      var ks := Walk(dag, work, visited).value;
      && NoDup(ks)
      && visited <= ks
      && (forall w :: w in work ==> w in ks)
      && (forall k :: k in ks ==> k in dag)
      && ChildClosed(dag, Elems(ks))
    decreases dag.Keys - Elems(visited), |work|
  {
    if work == [] {
    } else {
      var c := work[0];
      if c in visited {
        WalkOk(dag, work[1..], visited);
      } else if c !in dag {
      } else {
        var visited' := visited + [c];
        var work' := work[1..] + dag[c];
        assert dag.Keys - Elems(visited') < dag.Keys - Elems(visited) by {
          assert c in dag.Keys - Elems(visited);
          assert c !in dag.Keys - Elems(visited');
        }
        assert NoDup(visited') by {
          forall i, j | 0 <= i < j < |visited'| ensures visited'[i] != visited'[j] {
            if j == |visited| { assert visited'[i] in visited; }
          }
        }
        assert Frontier(dag, work', visited') by {
          forall v | v in visited' ensures v in dag && forall ch :: ch in dag[v] ==> ch in visited' || ch in work' {
            forall ch | ch in dag[v] ensures ch in visited' || ch in work' {
              if v == c {
                assert ch in work';
              } else {
                assert ch in visited || ch in work;
                if ch in work && ch != c {
                  var i :| 0 <= i < |work| && work[i] == ch;
                  assert i > 0;
                  assert work'[i - 1] == ch;
                }
              }
            }
          }
        }
        WalkOk(dag, work', visited');
        if Walk(dag, work', visited').Ok? {
          var ks := Walk(dag, work', visited').value;
          forall w | w in work ensures w in ks {
            if w != c {
              var i :| 0 <= i < |work| && work[i] == w;
              assert work'[i - 1] == w;
            } else {
              assert visited'[|visited|] == c;
            }
          }
        }
      }
    }
  }

  /** Every key the walk visits, and the key at which it fails, lies in any
      set that holds the walk's start and is closed under children. */
  lemma {:induction false} WalkLeast(dag: Dag, work: seq<Cid>, visited: seq<Cid>, S: set<Cid>)
    requires forall v :: v in visited ==> v in S
    requires forall w :: w in work ==> w in S
    requires ChildClosed(dag, S)
    ensures Walk(dag, work, visited).Ok? ==> forall k :: k in Walk(dag, work, visited).value ==> k in S
    ensures Walk(dag, work, visited).Err? ==>
      Walk(dag, work, visited).error in S && Walk(dag, work, visited).error !in dag
    decreases dag.Keys - Elems(visited), |work|
  {
    if work != [] {
      var c := work[0];
      if c in visited {
        WalkLeast(dag, work[1..], visited, S);
      } else if c in dag {
        assert dag.Keys - Elems(visited + [c]) < dag.Keys - Elems(visited) by {
          assert c in dag.Keys - Elems(visited);
          assert c !in dag.Keys - Elems(visited + [c]);
        }
        WalkLeast(dag, work[1..] + dag[c], visited + [c], S);
      }
    }
  }

  /** A successful enumeration lists the root first and every key once; each
      listed key has links, and each child of a listed key is listed. */
  lemma EnumerateOk(dag: Dag, root: Cid)
    ensures Enumerate(dag, root).Ok? ==>
      var ks := Enumerate(dag, root).value;
      && |ks| > 0 && ks[0] == root
      && NoDup(ks)
      && (forall k :: k in ks ==> k in dag)
      && ChildClosed(dag, Elems(ks))
  {
    WalkOk(dag, [root], []);
    if Walk(dag, [root], []).Ok? {
      assert root in dag;
      assert [root][1..] + dag[root] == dag[root];
      assert [] + [root] == [root];
      assert Walk(dag, [root], []) == Walk(dag, dag[root], [root]);
      WalkOk(dag, dag[root], [root]);
    }
  }

  /** Enumeration visits only keys reachable from the root: it stays inside
      every child-closed set that holds the root. When it fails, the failing
      key is reachable and has no links. */
  lemma EnumerateLeast(dag: Dag, root: Cid, S: set<Cid>)
    requires root in S
    requires ChildClosed(dag, S)
    ensures Enumerate(dag, root).Ok? ==> forall k :: k in Enumerate(dag, root).value ==> k in S
    ensures Enumerate(dag, root).Err? ==> Enumerate(dag, root).error in S && Enumerate(dag, root).error !in dag
  {
    WalkLeast(dag, [root], [], S);
  }
}
