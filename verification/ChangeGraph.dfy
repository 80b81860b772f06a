/**
The graph of changes, kept in parallel vectors: nodes are numbered in the order
they were added, the edges from a node to its parents are threaded through one
edge list, and vector clocks are cached for some nodes.
*/
module ChangeGraphs {
  import opened Wrappers
  import opened Dag

  /** The highest sequence number seen per actor; 0 stands for none. */
  type SeqClock = seq<nat>

  datatype Edge = Edge(target: nat, next: Option<nat>)

  const CACHE_STEP := 16

  function NewClock(size: nat): SeqClock {
    seq(size, _ => 0)
  }

  function Include(clock: SeqClock, actor: nat, data: nat): (r: SeqClock)
    requires actor < |clock|
    ensures |r| == |clock| && r[actor] >= data && r[actor] >= clock[actor]
    ensures r[actor] in {data, clock[actor]}
    ensures forall k :: 0 <= k < |clock| && k != actor ==> r[k] == clock[k]
  {
    if clock[actor] < data then clock[actor := data] else clock
  }

  function Merge(a: SeqClock, b: SeqClock): (r: SeqClock)
    ensures |r| == |a|
    ensures forall k :: 0 <= k < |a| && k < |b| ==> r[k] >= a[k] && r[k] >= b[k] && (r[k] == a[k] || r[k] == b[k])
    ensures forall k :: |b| <= k < |a| ==> r[k] == a[k]
  {
    seq(|a|, k requires 0 <= k < |a| => if k < |b| && a[k] < b[k] then b[k] else a[k])
  }

  function RemoveAt<T>(s: seq<T>, i: nat): seq<T>
    requires i < |s|
  {
    s[..i] + s[i + 1..]
  }

  function InsertAt<T>(s: seq<T>, i: nat, x: T): seq<T>
    requires i <= |s|
  {
    s[..i] + [x] + s[i..]
  }

  /** The targets on the chain of edges that starts at `e`. */
  function Targets(edges: seq<Edge>, e: Option<nat>): seq<nat>
    requires ForwardEdges(edges) && (e.Some? ==> e.value < |edges|)
    decreases if e.Some? then |edges| - e.value else 0
  {
    if e.None? then [] else
      [edges[e.value].target] + Targets(edges, edges[e.value].next)
  }

  /** The chains only run towards newer edges. */
  predicate ForwardEdges(edges: seq<Edge>) {
    forall e | 0 <= e < |edges| && edges[e].next.Some? :: e < edges[e].next.value < |edges|
  }

  /** `owner[e]` is the node whose chain edge e is on. */
  ghost predicate Owned(edges: seq<Edge>, parents: seq<Option<nat>>, owner: seq<nat>) {
    && |owner| == |edges|
    && ForwardEdges(edges)
    && (forall e :: 0 <= e < |edges| && edges[e].next.Some? ==> owner[edges[e].next.value] == owner[e])
    && (forall i :: 0 <= i < |parents| && parents[i].Some? ==> parents[i].value < |edges| && owner[parents[i].value] == i)
  }

  /** Chains of other nodes do not notice that one chain is extended. */
  lemma {:induction false} ExtendOther(edges: seq<Edge>, edges': seq<Edge>, owner: seq<nat>, node: nat, e: Option<nat>)
    requires ForwardEdges(edges) && ForwardEdges(edges') && |edges| <= |edges'| && |owner| == |edges|
    requires forall k :: 0 <= k < |edges| && owner[k] != node ==> edges'[k] == edges[k]
    requires forall k :: 0 <= k < |edges| && edges[k].next.Some? ==> owner[edges[k].next.value] == owner[k]
    requires e.Some? ==> e.value < |edges| && owner[e.value] != node
    ensures Targets(edges', e) == Targets(edges, e)
    decreases if e.Some? then |edges| - e.value else 0
  {
    if e.Some? {
      ExtendOther(edges, edges', owner, node, edges[e.value].next);
    }
  }

  /** Hanging a new edge after the last one appends its target. */
  lemma {:induction false} ExtendChain(edges: seq<Edge>, last: nat, target: nat, e: nat)
    requires ForwardEdges(edges) && last < |edges| && edges[last].next.None?
    requires e < |edges| && OnChain(edges, e, last)
    ensures var edges' := (edges + [Edge(target, None)])[last := edges[last].(next := Some(|edges|))];
            ForwardEdges(edges') && Targets(edges', Some(e)) == Targets(edges, Some(e)) + [target]
    decreases |edges| - e
  {
    var edges' := (edges + [Edge(target, None)])[last := edges[last].(next := Some(|edges|))];
    if e == last {
      assert Targets(edges', Some(|edges|)) == [target] + Targets(edges', None);
      assert Targets(edges, edges[e].next) == [];
    } else {
      ExtendChain(edges, last, target, edges[e].next.value);
    }
  }

  /** Following the chain from e leads to k. */
  predicate OnChain(edges: seq<Edge>, e: nat, k: nat)
    requires ForwardEdges(edges) && e < |edges|
    ensures OnChain(edges, e, k) ==> e <= k
    decreases |edges| - e
  {
    e == k || (edges[e].next.Some? && OnChain(edges, edges[e].next.value, k))
  }

  lemma {:induction false} OnChainStep(edges: seq<Edge>, e: nat, k: nat)
    requires ForwardEdges(edges) && e < |edges| && k < |edges| && OnChain(edges, e, k) && edges[k].next.Some?
    ensures OnChain(edges, e, edges[k].next.value)
    decreases |edges| - e
  {
    if e != k {
      OnChainStep(edges, edges[e].next.value, k);
    }
  }

  // Clocks as values: what they mean for a list of changes with their actors.

  ghost predicate ListsDeps(hashes: seq<Change>, targets: seq<nat>, deps: seq<Change>) {
    && |targets| == |deps|
    && forall k :: 0 <= k < |deps| ==> targets[k] < |hashes| && hashes[targets[k]] == deps[k]
  }

  /** Node i is among the changes of `s`, by actor a, with sequence number n. */
  ghost predicate Entry(hashes: seq<Change>, actors: seq<nat>, s: set<Change>, i: nat, a: nat, n: nat)
    requires |actors| == |hashes|
  {
    i < |hashes| && hashes[i] in s && actors[i] == a && hashes[i].seqNum == n
  }

  /** Some change of `s` by actor a has sequence number n. */
  ghost predicate Attained(hashes: seq<Change>, actors: seq<nat>, s: set<Change>, a: nat, n: nat)
    requires |actors| == |hashes|
  {
    exists i :: Entry(hashes, actors, s, i, a, n)
  }

  /** `clock` holds, per actor, the highest sequence number in `s`. */
  ghost predicate IsClockOf(hashes: seq<Change>, actors: seq<nat>, clock: SeqClock, s: set<Change>)
    requires |actors| == |hashes|
  {
    && (forall i :: 0 <= i < |hashes| && hashes[i] in s ==> actors[i] < |clock| && hashes[i].seqNum <= clock[actors[i]])
    && (forall a :: 0 <= a < |clock| && clock[a] > 0 ==> Attained(hashes, actors, s, a, clock[a]))
  }

  function HashesOf(hashes: seq<Change>, nodes: set<nat>): set<Change> {
    set n | n in nodes && n < |hashes| :: hashes[n]
  }

  /** `nodesByHash` numbers the hashes by position. */
  ghost predicate Numbering(hashes: seq<Change>, nodesByHash: map<Change, nat>) {
    && (forall c :: c in nodesByHash ==> nodesByHash[c] < |hashes| && hashes[nodesByHash[c]] == c)
    && (forall i :: 0 <= i < |hashes| ==> hashes[i] in nodesByHash && nodesByHash[hashes[i]] == i)
  }

  ghost predicate ParentsFirst(hashes: seq<Change>, nodesByHash: map<Change, nat>) {
    forall i, d {:trigger d in hashes[i].deps} ::
      0 <= i < |hashes| && d in hashes[i].deps ==> d in nodesByHash && nodesByHash[d] < i
  }

  /** The vectors of the graph.  `actors` are indexes into the actor table;
      `parents` is the first edge of each node's chain; `seqIndex` holds the nodes
      of each actor by sequence number. */
  datatype NodeTable = NodeTable(
    edges: seq<Edge>,
    hashes: seq<Change>,
    actors: seq<nat>,
    parents: seq<Option<nat>>,
    seqs: seq<nat>,
    maxOps: seq<nat>,
    nodesByHash: map<Change, nat>,
    seqIndex: seq<seq<nat>>)
  {
    ghost predicate ValidNodes() {
      && |actors| == |parents| == |seqs| == |maxOps| == |hashes|
      && Numbering(hashes, nodesByHash)
      && ParentsFirst(hashes, nodesByHash)
      && (forall i :: 0 <= i < |hashes| ==> seqs[i] == hashes[i].seqNum && maxOps[i] == hashes[i].maxOp)
    }

    ghost predicate ValidIndex()
      requires |actors| == |seqs| == |hashes|
    {
      && (forall a, k :: 0 <= a < |seqIndex| && 0 <= k < |seqIndex[a]| ==> IndexEntry(seqIndex[a][k], a, k))
      && (forall i :: 0 <= i < |hashes| ==>
            actors[i] < |seqIndex| && 1 <= seqs[i] <= |seqIndex[actors[i]]| && seqIndex[actors[i]][seqs[i] - 1] == i)
    }

    ghost predicate IndexEntry(i: nat, a: nat, k: nat)
      requires |actors| == |seqs| == |hashes|
    {
      i < |hashes| && actors[i] == a && seqs[i] == k + 1
    }

    /** The chain of every node lists its dependencies in order. */
    ghost predicate ValidEdges()
      requires |parents| == |hashes|
    {
      && ForwardEdges(edges)
      && (forall i :: 0 <= i < |hashes| && parents[i].Some? ==> parents[i].value < |edges|)
      && (forall i :: 0 <= i < |hashes| ==> ChainOfParents(i))
    }

    ghost predicate ChainOfParents(i: nat)
      requires ForwardEdges(edges) && |parents| == |hashes| && i < |hashes|
      requires parents[i].Some? ==> parents[i].value < |edges|
    {
      ListsDeps(hashes, Targets(edges, parents[i]), hashes[i].deps)
    }

    ghost predicate Valid() {
      ValidNodes() && ValidIndex() && ValidEdges()
    }

    /** The set of changes in the graph. */
    ghost function Changes(): set<Change> {
      Elements(hashes)
    }

    ghost predicate IsClock(clock: SeqClock, s: set<Change>)
      requires |actors| == |hashes|
    {
      |clock| == |seqIndex| && IsClockOf(hashes, actors, clock, s)
    }

    ghost predicate ValidCache(cache: map<nat, SeqClock>)
      requires |actors| == |hashes|
    {
      forall n :: n in cache ==> n < |hashes| && IsClock(cache[n], Ancestors(hashes[n]))
    }
  }

  lemma IncludeNode(hashes: seq<Change>, actors: seq<nat>, clock: SeqClock, s: set<Change>, node: nat)
    requires |actors| == |hashes| && node < |hashes| && actors[node] < |clock|
    requires IsClockOf(hashes, actors, clock, s)
    requires forall i :: 0 <= i < |hashes| && hashes[i] == hashes[node] ==> i == node
    ensures IsClockOf(hashes, actors, Include(clock, actors[node], hashes[node].seqNum), s + {hashes[node]})
  {
    var r, t := Include(clock, actors[node], hashes[node].seqNum), s + {hashes[node]};
    forall a | 0 <= a < |r| && r[a] > 0
      ensures Attained(hashes, actors, t, a, r[a])
    {
      if r[a] == clock[a] {
        var i :| Entry(hashes, actors, s, i, a, clock[a]);
        assert Entry(hashes, actors, t, i, a, r[a]);
      } else {
        assert Entry(hashes, actors, t, node, a, r[a]);
      }
    }
  }

  lemma MergeClocks(hashes: seq<Change>, actors: seq<nat>, c: SeqClock, s: set<Change>, d: SeqClock, t: set<Change>)
    requires |actors| == |hashes| && |c| == |d|
    requires IsClockOf(hashes, actors, c, s) && IsClockOf(hashes, actors, d, t)
    ensures IsClockOf(hashes, actors, Merge(c, d), s + t)
  {
    var r := Merge(c, d);
    forall a | 0 <= a < |r| && r[a] > 0
      ensures Attained(hashes, actors, s + t, a, r[a])
    {
      if r[a] == c[a] {
        var i :| Entry(hashes, actors, s, i, a, c[a]);
        assert Entry(hashes, actors, s + t, i, a, r[a]);
      } else {
        var i :| Entry(hashes, actors, t, i, a, d[a]);
        assert Entry(hashes, actors, s + t, i, a, r[a]);
      }
    }
  }

  /** A set of changes has one clock. */
  lemma ClockIsUnique(hashes: seq<Change>, actors: seq<nat>, c: SeqClock, d: SeqClock, s: set<Change>)
    requires |actors| == |hashes| && |c| == |d|
    requires IsClockOf(hashes, actors, c, s) && IsClockOf(hashes, actors, d, s)
    ensures c == d
  {
    forall a | 0 <= a < |c|
      ensures c[a] == d[a]
    {
      if c[a] > 0 {
        var i :| Entry(hashes, actors, s, i, a, c[a]);
      }
      if d[a] > 0 {
        var i :| Entry(hashes, actors, s, i, a, d[a]);
      }
    }
  }

  /** The ancestors of a change are the change and those of its parents. */
  lemma AncestorsOfParents(c: Change)
    ensures Ancestors(c) == {c} + AncestorsOf(Elements(c.deps))
  {
  }

  lemma AncestorsOfUnion(s: set<Change>, t: set<Change>)
    ensures AncestorsOf(s + t) == AncestorsOf(s) + AncestorsOf(t)
    ensures AncestorsOf({}) == {}
  {
  }

  lemma AncestorsOfOne(c: Change)
    ensures AncestorsOf({c}) == Ancestors(c)
  {
  }

  lemma HashesOfParents(hashes: seq<Change>, ps: seq<nat>, deps: seq<Change>)
    requires ListsDeps(hashes, ps, deps)
    ensures HashesOf(hashes, set p | p in ps) == Elements(deps)
  {
    forall d | d in deps
      ensures d in HashesOf(hashes, set p | p in ps)
    {
      var k :| 0 <= k < |deps| && deps[k] == d;
      assert ps[k] in ps;
    }
  }

  lemma UnionSwaps<T>(a: set<T>, b: set<T>, c: set<T>)
    ensures a + (b + c) == b + (a + c) && a + b + c == a + (c + b)
  {
  }

  /** Visiting a node in place of its parents loses no ancestor. */
  lemma ExpandNode(hashes: seq<Change>, nodes: set<nat>, node: nat, ps: seq<nat>)
    requires node < |hashes| && ListsDeps(hashes, ps, hashes[node].deps)
    ensures {hashes[node]} + AncestorsOf(HashesOf(hashes, nodes + set p | p in ps))
         == AncestorsOf(HashesOf(hashes, nodes + {node}))
  {
    var added := set p | p in ps;
    HashesOfParents(hashes, ps, hashes[node].deps);
    assert HashesOf(hashes, nodes + added) == HashesOf(hashes, nodes) + HashesOf(hashes, added);
    assert HashesOf(hashes, nodes + {node}) == HashesOf(hashes, nodes) + {hashes[node]};
    AncestorsOfUnion(HashesOf(hashes, nodes), HashesOf(hashes, added));
    AncestorsOfUnion(HashesOf(hashes, nodes), {hashes[node]});
    AncestorsOfOne(hashes[node]);
    AncestorsOfParents(hashes[node]);
    UnionSwaps({hashes[node]}, AncestorsOf(HashesOf(hashes, nodes)), AncestorsOf(HashesOf(hashes, added)));
  }

  lemma OneMoreHash(hashes: seq<Change>, r: seq<nat>, n: nat)
    requires n < |hashes|
    ensures HashesOf(hashes, set m | m in r + [n]) == HashesOf(hashes, set m | m in r) + {hashes[n]}
  {
    assert (set m | m in r + [n]) == (set m | m in r) + {n};
  }

  /** What was seen, and what the remaining nodes lead to, add up to `total`. */
  ghost predicate Accounts(hashes: seq<Change>, seen: set<Change>, rest: set<nat>, total: set<Change>) {
    seen + AncestorsOf(HashesOf(hashes, rest)) == total
  }

  lemma AccountsFirst(hashes: seq<Change>, nodes: set<nat>)
    ensures Accounts(hashes, {}, nodes, AncestorsOf(HashesOf(hashes, nodes)))
  {
  }

  lemma AccountsOne(hashes: seq<Change>, node: nat)
    requires node < |hashes|
    ensures Accounts(hashes, {}, {node}, Ancestors(hashes[node]))
  {
    assert HashesOf(hashes, {node}) == {hashes[node]};
    AncestorsOfOne(hashes[node]);
  }

  lemma AccountsLast(hashes: seq<Change>, seen: set<Change>, total: set<Change>)
    requires Accounts(hashes, seen, {}, total)
    ensures seen == total
  {
    assert HashesOf(hashes, {}) == {};
    AncestorsOfUnion({}, {});
  }

  lemma AccountsParents(hashes: seq<Change>, seen: set<Change>, rest: set<nat>, node: nat, ps: seq<nat>, total: set<Change>)
    requires node < |hashes| && ListsDeps(hashes, ps, hashes[node].deps)
    requires Accounts(hashes, seen, rest + {node}, total)
    ensures Accounts(hashes, seen + {hashes[node]}, rest + (set p | p in ps), total)
  {
    ExpandNode(hashes, rest, node, ps);
  }

  lemma AccountsWhole(hashes: seq<Change>, seen: set<Change>, rest: set<nat>, node: nat, total: set<Change>)
    requires node < |hashes| && Accounts(hashes, seen, rest + {node}, total)
    ensures Accounts(hashes, seen + Ancestors(hashes[node]), rest, total)
  {
    var below := AncestorsOf(HashesOf(hashes, rest));
    assert HashesOf(hashes, rest + {node}) == HashesOf(hashes, rest) + {hashes[node]};
    AncestorsOfUnion(HashesOf(hashes, rest), {hashes[node]});
    AncestorsOfOne(hashes[node]);
    UnionSwaps(seen, Ancestors(hashes[node]), below);
  }

  /** A cached clock stands for the node and everything below it. */
  lemma IncludeCached(hashes: seq<Change>, actors: seq<nat>, clock: SeqClock, seen: set<Change>, node: nat, cached: SeqClock)
    requires |actors| == |hashes| && node < |hashes| && |clock| == |cached|
    requires IsClockOf(hashes, actors, clock, seen + {hashes[node]})
    requires IsClockOf(hashes, actors, cached, Ancestors(hashes[node]))
    ensures IsClockOf(hashes, actors, Merge(clock, cached), seen + Ancestors(hashes[node]))
  {
    MergeClocks(hashes, actors, clock, seen + {hashes[node]}, cached, Ancestors(hashes[node]));
    assert seen + {hashes[node]} + Ancestors(hashes[node]) == seen + Ancestors(hashes[node]);
  }

  lemma {:induction false} Largest(s: set<nat>) returns (m: nat)
    requires s != {}
    ensures m in s && forall n :: n in s ==> n <= m
  {
    m :| m in s;
    if s != {m} {
      var k := Largest(s - {m});
      assert forall n :: n in s ==> n == m || n in s - {m};
      if m < k {
        m := k;
      }
    }
  }

  /** Takes the largest number out of a set. */
  method PopLast(s: set<nat>) returns (m: nat, rest: set<nat>)
    requires s != {}
    ensures m in s && m !in rest && s == rest + {m}
    ensures forall n :: n in rest ==> n < m
  {
    ghost var largest := Largest(s);
    m :| m in s && forall n :: n in s ==> n <= m;
    rest := s - {m};
  }

  /** The dependencies of a node are older nodes. */
  lemma ListedParents(g: NodeTable, node: nat, ps: seq<nat>)
    requires g.ValidNodes() && node < |g.hashes| && ListsDeps(g.hashes, ps, g.hashes[node].deps)
    ensures forall p :: p in ps ==> p < node
    ensures forall d :: d in g.hashes[node].deps ==> g.nodesByHash[d] in ps
  {
    var deps := g.hashes[node].deps;
    forall k | 0 <= k < |deps|
      ensures g.nodesByHash[deps[k]] == ps[k] < node
    {
      assert deps[k] in deps && g.hashes[ps[k]] == deps[k];
    }
  }

  /** The parents of a node, in order. */
  method Parents(g: NodeTable, node: nat) returns (r: seq<nat>)
    requires g.ValidNodes() && g.ValidEdges() && node < |g.hashes|
    ensures r == Targets(g.edges, g.parents[node]) && ListsDeps(g.hashes, r, g.hashes[node].deps)
    ensures forall p :: p in r ==> p < node
    ensures forall d :: d in g.hashes[node].deps ==> g.nodesByHash[d] in r
  {
    assert g.ChainOfParents(node);
    r := [];
    var e := g.parents[node];
    while e.Some?
      invariant e.Some? ==> e.value < |g.edges|
      invariant r + Targets(g.edges, e) == Targets(g.edges, g.parents[node])
      decreases if e.Some? then |g.edges| - e.value else 0
    {
      r := r + [g.edges[e.value].target];
      e := g.edges[e.value].next;
    }
    assert r == Targets(g.edges, g.parents[node]);
    ListedParents(g, node, r);
  }

  // Clocks.

  /** Parents are older than the node, so none of them was visited before it. */
  method UnvisitedParents(g: NodeTable, node: nat, visited: set<nat>) returns (ps: seq<nat>, added: set<nat>)
    requires g.ValidNodes() && g.ValidEdges() && node < |g.hashes|
    requires forall n :: n in visited ==> node <= n
    ensures ListsDeps(g.hashes, ps, g.hashes[node].deps) && added == set p | p in ps
    ensures forall p :: p in added ==> p < node
  {
    ps := Parents(g, node);
    added := set p | p in ps && p !in visited;
  }

  lemma VisitCached(g: NodeTable, cached: SeqClock, clock: SeqClock, seen: set<Change>, idx: nat, rest: set<nat>, total: set<Change>)
    requires g.ValidNodes() && g.ValidIndex() && idx < |g.hashes|
    requires g.IsClock(clock, seen) && g.IsClock(cached, Ancestors(g.hashes[idx]))
    requires Accounts(g.hashes, seen, rest + {idx}, total)
    ensures g.IsClock(Merge(Include(clock, g.actors[idx], g.seqs[idx]), cached), seen + Ancestors(g.hashes[idx]))
    ensures Accounts(g.hashes, seen + Ancestors(g.hashes[idx]), rest, total)
  {
    IncludeNode(g.hashes, g.actors, clock, seen, idx);
    IncludeCached(g.hashes, g.actors, Include(clock, g.actors[idx], g.seqs[idx]), seen, idx, cached);
    AccountsWhole(g.hashes, seen, rest, idx, total);
  }

  lemma VisitUncached(g: NodeTable, clock: SeqClock, seen: set<Change>, idx: nat, rest: set<nat>, ps: seq<nat>, total: set<Change>)
    requires g.ValidNodes() && g.ValidIndex() && idx < |g.hashes| && g.IsClock(clock, seen)
    requires ListsDeps(g.hashes, ps, g.hashes[idx].deps)
    requires Accounts(g.hashes, seen, rest + {idx}, total)
    ensures g.IsClock(Include(clock, g.actors[idx], g.seqs[idx]), seen + {g.hashes[idx]})
    ensures Accounts(g.hashes, seen + {g.hashes[idx]}, rest + (set p | p in ps), total)
  {
    IncludeNode(g.hashes, g.actors, clock, seen, idx);
    AccountsParents(g.hashes, seen, rest, idx, ps, total);
  }

  /** Accounts for one node: by its cached clock, or by itself while its
      parents are left to visit. */
  method Visit(g: NodeTable, cache: map<nat, SeqClock>, clock: SeqClock, ghost seen: set<Change>, idx: nat, rest: set<nat>, visited: set<nat>, ghost total: set<Change>)
    returns (clock': SeqClock, rest': set<nat>, cached: bool, ghost seen': set<Change>)
    requires g.Valid() && g.ValidCache(cache) && g.IsClock(clock, seen) && idx < |g.hashes|
    requires forall n :: n in rest ==> n < idx
    requires forall n :: n in visited ==> idx <= n
    requires Accounts(g.hashes, seen, rest + {idx}, total)
    ensures g.IsClock(clock', seen') && Accounts(g.hashes, seen', rest', total)
    ensures forall n :: n in rest' ==> n < idx
    ensures cached ==> rest' == rest
    ensures (cached <==> idx in cache) && seen + {g.hashes[idx]} <= seen'
  {
    clock' := Include(clock, g.actors[idx], g.seqs[idx]);
    cached := idx in cache;
    if cached {
      VisitCached(g, cache[idx], clock, seen, idx, rest, total);
      clock' := Merge(clock', cache[idx]);
      rest' := rest;
      seen' := seen + Ancestors(g.hashes[idx]);
    } else {
      var ps, added := UnvisitedParents(g, idx, visited);
      VisitUncached(g, clock, seen, idx, rest, ps, total);
      rest' := rest + added;
      seen' := seen + {g.hashes[idx]};
    }
  }

  /** There are no more nodes than positions. */
  lemma {:induction false} NodesFit(nodes: set<nat>, bound: nat)
    requires forall n :: n in nodes ==> n < bound
    ensures |nodes| <= bound
    decreases bound
  {
    if bound > 0 {
      NodesFit(nodes - {bound - 1}, bound - 1);
    } else {
      assert nodes == {};
    }
  }

  /** The nodes on the path are accounted for, from newer to older ones. */
  ghost predicate Walked(g: NodeTable, path: seq<nat>, seen: set<Change>) {
    && (forall k :: 0 <= k < |path| ==> path[k] < |g.hashes| && g.hashes[path[k]] in seen)
    && (forall j, k :: 0 <= j < k < |path| ==> path[k] < path[j])
  }

  /** The walk goes on until nothing is left, or up to the first node without a
      cached clock when more than `limit` nodes have been visited. */
  ghost predicate StopsAt(cache: map<nat, SeqClock>, path: seq<nat>, limit: Option<nat>, left: set<nat>) {
    && (forall k :: 0 <= k < |path| - 1 && limit.Some? && limit.value <= k ==> path[k] in cache)
    && (left != {} ==> limit.Some? && |path| > limit.value && path[|path| - 1] !in cache)
  }

  /** The walk so far, all of it at or above a bound, and with cached clocks
      beyond the limit. */
  ghost predicate Walking(g: NodeTable, cache: map<nat, SeqClock>, path: seq<nat>, seen: set<Change>, limit: Option<nat>, bound: nat) {
    && Walked(g, path, seen)
    && (forall k :: 0 <= k < |path| ==> bound <= path[k])
    && (forall k :: 0 <= k < |path| && limit.Some? && limit.value <= k ==> path[k] in cache)
  }

  /** Another node is visited; then the walk stops or goes on. */
  lemma WalkOn(g: NodeTable, cache: map<nat, SeqClock>, path: seq<nat>, seen: set<Change>, seen': set<Change>, limit: Option<nat>, bound: nat, idx: nat, left: set<nat>)
    requires Walking(g, cache, path, seen, limit, bound) && idx < bound && idx < |g.hashes| && seen + {g.hashes[idx]} <= seen'
    ensures Walked(g, path + [idx], seen')
    ensures if idx !in cache && limit.Some? && |path| + 1 > limit.value then StopsAt(cache, path + [idx], limit, left)
            else Walking(g, cache, path + [idx], seen', limit, idx)
  {
  }

  lemma NewlyVisited(visited: set<nat>, idx: nat, bound: nat, count: nat)
    requires (forall n :: n in visited ==> bound <= n < count) && idx < bound && idx < count
    ensures idx !in visited && |visited + {idx}| == |visited| + 1 <= count
    ensures forall n :: n in visited + {idx} ==> idx <= n < count
  {
    NodesFit(visited + {idx}, count);
  }

  /** Pops the newest node until none is left, or more than `limit` were
      visited without finding a cached clock.  `seen` is the set of changes the
      clock accounts for. */
  method CalculateClockInner(g: NodeTable, cache: map<nat, SeqClock>, clock: SeqClock, toVisit: set<nat>, limit: Option<nat>, ghost newest: nat, ghost total: set<Change>)
    returns (clock': SeqClock, toVisit': set<nat>, ghost seen: set<Change>, ghost path: seq<nat>)
    requires g.Valid() && g.ValidCache(cache) && g.IsClock(clock, {})
    requires forall n :: n in toVisit ==> n <= newest && n < |g.hashes|
    requires Accounts(g.hashes, {}, toVisit, total)
    ensures g.IsClock(clock', seen) && Accounts(g.hashes, seen, toVisit', total)
    ensures limit.None? ==> toVisit' == {}
    ensures forall n :: n in toVisit' ==> n < newest && n < |g.hashes|
    ensures Walked(g, path, seen) && StopsAt(cache, path, limit, toVisit')
  {
    clock', toVisit', seen, path := clock, toVisit, {}, [];
    var visited: set<nat> := {};
    ghost var bound: nat := newest + 1;
    while toVisit' != {}
      invariant g.IsClock(clock', seen) && Accounts(g.hashes, seen, toVisit', total)
      invariant forall n :: n in toVisit' ==> n < bound && n < |g.hashes|
      invariant forall n :: n in visited ==> bound <= n < |g.hashes|
      invariant bound <= newest + 1
      invariant Walking(g, cache, path, seen, limit, bound) && |visited| == |path|
      decreases bound
    {
      var idx, rest := PopLast(toVisit');
      NewlyVisited(visited, idx, bound, |g.hashes|);
      assert idx !in visited && |visited| <= |g.hashes|;
      visited := visited + {idx};
      var cached;
      ghost var before := seen;
      clock', toVisit', cached, seen := Visit(g, cache, clock', seen, idx, rest, visited, total);
      WalkOn(g, cache, path, before, seen, limit, bound, idx, toVisit');
      bound, path := idx, path + [idx];
      if !cached && limit.Some? && |visited| > limit.value {
        break;
      }
    }
  }

  /** The clock of a set of nodes and all their ancestors, whatever happens to
      be cached. */
  method CalculateClock(g: NodeTable, cache: map<nat, SeqClock>, nodes: set<nat>) returns (clock: SeqClock)
    requires g.Valid() && g.ValidCache(cache) && forall n :: n in nodes ==> n < |g.hashes|
    ensures g.IsClock(clock, AncestorsOf(HashesOf(g.hashes, nodes)))
  {
    clock := NewClock(|g.seqIndex|);
    var left;
    ghost var seen, path;
    AccountsFirst(g.hashes, nodes);
    clock, left, seen, path := CalculateClockInner(g, cache, clock, nodes, None, |g.hashes|, AncestorsOf(HashesOf(g.hashes, nodes)));
    assert left == {};
    AccountsLast(g.hashes, seen, AncestorsOf(HashesOf(g.hashes, nodes)));
  }

  lemma CacheOneMore(g: NodeTable, cache: map<nat, SeqClock>, node: nat, clock: SeqClock)
    requires |g.actors| == |g.hashes| && g.ValidCache(cache) && node < |g.hashes|
    requires g.IsClock(clock, Ancestors(g.hashes[node]))
    ensures g.ValidCache(cache[node := clock])
  {
  }

  /** The clock of a node, and the cache with that clock added; a long stretch
      without cached clocks gets some on the way. */
  method ExtendCache(g: NodeTable, cache: map<nat, SeqClock>, node: nat) returns (clock: SeqClock, cache': map<nat, SeqClock>)
    requires g.Valid() && g.ValidCache(cache) && node < |g.hashes|
    ensures g.ValidCache(cache') && g.IsClock(clock, Ancestors(g.hashes[node]))
    ensures node in cache' && forall n :: n in cache ==> n in cache'
    decreases node, 0
  {
    clock, cache' := NewClock(|g.seqIndex|), cache;
    var toVisit;
    ghost var seen, path;
    ghost var total := Ancestors(g.hashes[node]);
    AccountsOne(g.hashes, node);
    clock, toVisit, seen, path := CalculateClockInner(g, cache, clock, {node}, Some(2 * CACHE_STEP), node, total);
    while toVisit != {}
      invariant g.ValidCache(cache') && g.IsClock(clock, seen) && Accounts(g.hashes, seen, toVisit, total)
      invariant forall n :: n in toVisit ==> n < node
      invariant forall n :: n in cache ==> n in cache'
      decreases toVisit
    {
      var n, rest := PopLast(toVisit);
      clock, cache', seen := Absorb(g, cache', clock, seen, n, rest, total);
      toVisit := rest;
    }
    AccountsLast(g.hashes, seen, total);
    CacheOneMore(g, cache', node, clock);
    cache' := cache'[node := clock];
  }

  /** Adds what lies below node n to the clock. */
  method Absorb(g: NodeTable, cache: map<nat, SeqClock>, clock: SeqClock, ghost seen: set<Change>, n: nat, ghost rest: set<nat>, ghost total: set<Change>)
    returns (clock': SeqClock, cache': map<nat, SeqClock>, ghost seen': set<Change>)
    requires g.Valid() && g.ValidCache(cache) && n < |g.hashes|
    requires g.IsClock(clock, seen) && Accounts(g.hashes, seen, rest + {n}, total)
    ensures g.ValidCache(cache') && g.IsClock(clock', seen') && Accounts(g.hashes, seen', rest, total)
    ensures forall n :: n in cache ==> n in cache'
    decreases n, 1
  {
    var sub;
    sub, cache' := ExtendCache(g, cache, n);
    MergeClocks(g.hashes, g.actors, clock, seen, sub, Ancestors(g.hashes[n]));
    AccountsWhole(g.hashes, seen, rest, n, total);
    clock' := Merge(clock, sub);
    seen' := seen + Ancestors(g.hashes[n]);
  }

  /** The counter of the last operation in an actor's n-th change; 0 if there is
      none. */
  function OpAt(g: NodeTable, actor: nat, n: nat): nat
    requires actor < |g.seqIndex|
  {
    if 1 <= n <= |g.seqIndex[actor]| && g.seqIndex[actor][n - 1] < |g.maxOps| then g.maxOps[g.seqIndex[actor][n - 1]] else 0
  }

  /** Node i is the actor's change with the highest sequence number. */
  ghost predicate LastOf(g: NodeTable, actor: nat, i: nat)
    requires |g.actors| == |g.hashes|
  {
    && i < |g.hashes| && g.actors[i] == actor
    && forall j :: 0 <= j < |g.hashes| && g.actors[j] == actor ==> g.hashes[j].seqNum <= g.hashes[i].seqNum
  }

  /** m ends the actor's last change, if it has changes at all. */
  ghost predicate IsMaxOp(g: NodeTable, actor: nat, m: nat)
    requires |g.actors| == |g.hashes|
  {
    if actor !in g.actors then m == 0 else exists i: nat :: LastOf(g, actor, i) && m == g.hashes[i].maxOp
  }

  /** The last entry of an actor's index is its last change. */
  lemma LastByIndex(g: NodeTable, actor: nat)
    requires g.Valid() && actor < |g.seqIndex|
    ensures forall m: nat :: IsMaxOp(g, actor, m) <==> m == OpAt(g, actor, |g.seqIndex[actor]|)
  {
    var n := |g.seqIndex[actor]|;
    if n == 0 {
      assert actor !in g.actors;
    } else {
      var last := g.seqIndex[actor][n - 1];
      assert g.IndexEntry(last, actor, n - 1);
      assert LastOf(g, actor, last) && g.actors[last] in g.actors;
      forall i: nat | LastOf(g, actor, i)
        ensures i == last
      {
        assert g.hashes[last].seqNum <= g.hashes[i].seqNum == g.seqs[i];
        assert g.seqIndex[g.actors[i]][g.seqs[i] - 1] == i;
      }
    }
  }

  /** Per actor, the last operation of its last change in `s`. */
  ghost predicate IsOpClock(g: NodeTable, clock: seq<nat>, s: set<Change>)
    requires |g.actors| == |g.hashes|
  {
    |clock| == |g.seqIndex| && exists c :: g.IsClock(c, s) && OpsOf(g, c, clock)
  }

  ghost predicate OpsOf(g: NodeTable, c: SeqClock, clock: seq<nat>)
    requires |clock| == |g.seqIndex| == |c|
  {
    forall a :: 0 <= a < |clock| ==> clock[a] == OpAt(g, a, c[a])
  }

  // The changes that a set of heads has not seen.

  /** The changes of `s` in order, without those of `gone`. */
  function Without(s: seq<Change>, gone: set<Change>): seq<Change> {
    if s == [] then [] else
      var rest := Without(s[..|s| - 1], gone);
      if s[|s| - 1] in gone then rest else rest + [s[|s| - 1]]
  }

  /** Each actor's changes form one chain of dependencies. */
  ghost predicate ChainsHold(g: NodeTable)
    requires g.ValidNodes() && g.ValidIndex()
  {
    forall a, k :: 0 <= a < |g.seqIndex| && 0 < k < |g.seqIndex[a]| ==> Linked(g, a, k)
  }

  /** Change k + 1 of actor a depends on change k. */
  ghost predicate Linked(g: NodeTable, a: nat, k: nat)
    requires g.ValidNodes() && g.ValidIndex() && a < |g.seqIndex| && 0 < k < |g.seqIndex[a]|
  {
    assert g.IndexEntry(g.seqIndex[a][k - 1], a, k - 1) && g.IndexEntry(g.seqIndex[a][k], a, k);
    g.hashes[g.seqIndex[a][k - 1]] in Ancestors(g.hashes[g.seqIndex[a][k]])
  }

  /** The changes a clock of `s` covers: those with a later change of the same
      actor in `s`. */
  ghost function Covered(g: NodeTable, s: set<Change>): set<Change>
    requires g.ValidNodes()
  {
    set i | 0 <= i < |g.hashes| && (exists j :: 0 <= j < |g.hashes| && LaterIn(g, s, i, j)) :: g.hashes[i]
  }

  ghost predicate LaterIn(g: NodeTable, s: set<Change>, i: nat, j: nat)
    requires g.ValidNodes() && i < |g.hashes| && j < |g.hashes|
  {
    g.hashes[j] in s && g.actors[i] == g.actors[j] && g.seqs[i] <= g.seqs[j]
  }

  /** Along a chain, every earlier change is an ancestor. */
  lemma {:induction false} EarlierIsAncestor(g: NodeTable, a: nat, k: nat, l: nat)
    requires g.ValidNodes() && g.ValidIndex() && ChainsHold(g)
    requires a < |g.seqIndex| && k <= l < |g.seqIndex[a]|
    ensures g.IndexEntry(g.seqIndex[a][k], a, k) && g.IndexEntry(g.seqIndex[a][l], a, l)
    ensures g.hashes[g.seqIndex[a][k]] in Ancestors(g.hashes[g.seqIndex[a][l]])
  {
    assert g.IndexEntry(g.seqIndex[a][k], a, k) && g.IndexEntry(g.seqIndex[a][l], a, l);
    if k < l {
      EarlierIsAncestor(g, a, k, l - 1);
      assert Linked(g, a, l);
      AncestorsTransitive(g.hashes[g.seqIndex[a][k]], g.hashes[g.seqIndex[a][l - 1]], g.hashes[g.seqIndex[a][l]]);
    }
  }

  /** With chains, a clock covers a closed set exactly. */
  lemma CoveredIsClosedSet(g: NodeTable, s: set<Change>)
    requires g.ValidNodes() && g.ValidIndex() && ChainsHold(g)
    requires Closed(s) && s <= g.Changes()
    ensures Covered(g, s) == s
  {
    forall i, j | 0 <= i < |g.hashes| && 0 <= j < |g.hashes| && LaterIn(g, s, i, j)
      ensures g.hashes[i] in s
    {
      EarlierIsAncestor(g, g.actors[i], g.seqs[i] - 1, g.seqs[j] - 1);
      AncestorsInClosed(s, g.hashes[j]);
    }
    forall c | c in s
      ensures c in Covered(g, s)
    {
      var i :| 0 <= i < |g.hashes| && g.hashes[i] == c;
      assert LaterIn(g, s, i, i);
    }
  }

  lemma ChangesClosed(g: NodeTable, heads: set<Change>)
    requires g.ValidNodes()
    ensures Closed(g.Changes()) && AncestorsOf(heads * g.Changes()) <= g.Changes()
    ensures Closed(AncestorsOf(heads * g.Changes()))
  {
    forall c, d | c in g.Changes() && d in c.deps
      ensures d in g.Changes()
    {
      var i :| 0 <= i < |g.hashes| && g.hashes[i] == c;
      assert g.hashes[g.nodesByHash[d]] == d;
    }
    AncestorsOfInClosed(g.Changes(), heads * g.Changes());
    AncestorsOfClosed(heads * g.Changes());
  }

  /** Clock slices leave out exactly the ancestors of the heads, for all heads,
      if and only if each actor's changes form a chain. */
  lemma FastComplementIsExact(g: NodeTable)
    requires g.ValidNodes() && g.ValidIndex()
    ensures ChainsHold(g) <==>
            forall heads :: heads <= g.Changes() ==> Covered(g, AncestorsOf(heads)) == AncestorsOf(heads)
  {
    if ChainsHold(g) {
      forall heads | heads <= g.Changes()
        ensures Covered(g, AncestorsOf(heads)) == AncestorsOf(heads)
      {
        assert heads * g.Changes() == heads;
        ChangesClosed(g, heads);
        CoveredIsClosedSet(g, AncestorsOf(heads));
      }
    } else {
      var a, k :| 0 <= a < |g.seqIndex| && 0 < k < |g.seqIndex[a]| && !Linked(g, a, k);
      var heads := UnlinkedBreaksComplement(g, a, k);
    }
  }

  /** A change without its predecessor hides it from the slices. */
  lemma UnlinkedBreaksComplement(g: NodeTable, a: nat, k: nat) returns (heads: set<Change>)
    requires g.ValidNodes() && g.ValidIndex()
    requires a < |g.seqIndex| && 0 < k < |g.seqIndex[a]| && !Linked(g, a, k)
    ensures heads <= g.Changes() && Covered(g, AncestorsOf(heads)) != AncestorsOf(heads)
  {
    var i, j := g.seqIndex[a][k - 1], g.seqIndex[a][k];
    assert g.IndexEntry(i, a, k - 1) && g.IndexEntry(j, a, k);
    heads := {g.hashes[j]};
    AncestorsOfOne(g.hashes[j]);
    assert LaterIn(g, AncestorsOf(heads), i, j);
    assert g.hashes[i] in Covered(g, AncestorsOf(heads));
    assert heads <= g.Changes();
  }

  /** Two changes of one actor that do not depend on each other. */
  function UnlinkedGraph(c: Change, d: Change): NodeTable {
    NodeTable([], [c, d], [0, 0], [None, None], [1, 2], [c.maxOp, d.maxOp], map[c := 0, d := 1], [[0, 1]])
  }

  lemma UnlinkedNodes(c: Change, d: Change)
    requires c.deps == d.deps == [] && c.seqNum == 1 && d.seqNum == 2
    ensures UnlinkedGraph(c, d).ValidNodes()
  {
  }

  lemma UnlinkedIndex(c: Change, d: Change)
    ensures UnlinkedGraph(c, d).ValidIndex()
  {
  }

  lemma UnlinkedIsValid(c: Change, d: Change)
    requires c.deps == d.deps == [] && c.seqNum == 1 && d.seqNum == 2
    ensures UnlinkedGraph(c, d).Valid()
  {
    UnlinkedNodes(c, d);
    UnlinkedIndex(c, d);
  }

  lemma UnlinkedCovered(c: Change, d: Change)
    requires c.deps == d.deps == [] && c.seqNum == 1 && d.seqNum == 2
    ensures UnlinkedGraph(c, d).ValidNodes() && c in Covered(UnlinkedGraph(c, d), {d})
  {
    var g := UnlinkedGraph(c, d);
    UnlinkedNodes(c, d);
    assert g.hashes[0] == c && LaterIn(g, {d}, 0, 1);
  }

  /** A failing input: the second one as a head hides the first, although that is
      no ancestor. */
  lemma UnlinkedHistory(c: Change, d: Change)
    requires c.deps == d.deps == [] && c.seqNum == 1 && d.seqNum == 2
    ensures var g := UnlinkedGraph(c, d);
            g.Valid() && c in Covered(g, AncestorsOf({d})) && c !in AncestorsOf({d})
  {
    UnlinkedIsValid(c, d);
    UnlinkedCovered(c, d);
    AncestorsOfOne(d);
    assert AncestorsOf({d}) == Ancestors(d) == {d};
  }

  ghost predicate Ascending(s: seq<nat>) {
    forall i, j :: 0 <= i < j < |s| ==> s[i] < s[j]
  }

  ghost predicate Distinct(s: seq<nat>) {
    forall i, j :: 0 <= i < j < |s| ==> s[i] != s[j]
  }

  /** Puts x at its place in an ascending list that lacks it. */
  method InsertAscending(s: seq<nat>, x: nat) returns (r: seq<nat>)
    requires Ascending(s) && x !in s
    ensures Ascending(r) && forall y :: y in r <==> y in s || y == x
  {
    var i := |s|;
    while i > 0 && x < s[i - 1]
      invariant 0 <= i <= |s|
      invariant forall k :: i <= k < |s| ==> x < s[k]
    {
      i := i - 1;
    }
    InsertedInOrder(s, i, x);
    InsertedElements(s, i, x);
    r := InsertAt(s, i, x);
  }

  lemma InsertedInOrder(s: seq<nat>, i: nat, x: nat)
    requires Ascending(s) && i <= |s| && (i > 0 ==> s[i - 1] < x) && forall k :: i <= k < |s| ==> x < s[k]
    ensures Ascending(InsertAt(s, i, x))
  {
    var r := InsertAt(s, i, x);
    assert forall k :: 0 <= k < |r| ==> r[k] == if k < i then s[k] else if k == i then x else s[k - 1];
  }

  lemma InsertedElements<T>(s: seq<T>, i: nat, x: T)
    requires i <= |s|
    ensures forall y :: y in InsertAt(s, i, x) <==> y in s || y == x
  {
    assert s == s[..i] + s[i..];
  }

  method SortDistinct(s: seq<nat>) returns (r: seq<nat>)
    requires Distinct(s)
    ensures Ascending(r) && forall y :: y in r <==> y in s
  {
    r := [];
    for n := 0 to |s|
      invariant Ascending(r) && forall y :: y in r <==> y in s[..n]
    {
      r := InsertAscending(r, s[n]);
      assert s[..n + 1] == s[..n] + [s[n]];
    }
    assert s[..|s|] == s;
  }

  /** The nodes the clock does not cover, in order: from each actor's list,
      what comes after its entry in the clock. */
  method GetBuildIndexes(g: NodeTable, clock: SeqClock, ghost s: set<Change>) returns (r: seq<nat>)
    requires g.ValidNodes() && g.ValidIndex() && g.IsClock(clock, s)
    ensures Ascending(r)
    ensures forall i :: i in r <==> 0 <= i < |g.hashes| && g.hashes[i] !in Covered(g, s)
  {
    var indexes: seq<nat> := [];
    for a := 0 to |g.seqIndex|
      invariant Distinct(indexes)
      invariant forall i :: i in indexes <==> 0 <= i < |g.hashes| && g.actors[i] < a && g.seqs[i] > clock[g.actors[i]]
    {
      ClockWithinIndex(g, clock, s, a);
      var later := g.seqIndex[a][clock[a]..];
      LaterNodes(g, a, clock[a]);
      ghost var before := indexes;
      indexes := indexes + later;
    }
    r := SortDistinct(indexes);
    UncoveredByClock(g, clock, s);
  }

  lemma ClockWithinIndex(g: NodeTable, clock: SeqClock, s: set<Change>, a: nat)
    requires g.ValidNodes() && g.ValidIndex() && g.IsClock(clock, s) && a < |clock|
    ensures clock[a] <= |g.seqIndex[a]|
  {
    if clock[a] > 0 {
      var i :| Entry(g.hashes, g.actors, s, i, a, clock[a]);
    }
  }

  lemma LaterNodes(g: NodeTable, a: nat, n: nat)
    requires g.ValidNodes() && g.ValidIndex() && a < |g.seqIndex| && n <= |g.seqIndex[a]|
    ensures Distinct(g.seqIndex[a][n..])
    ensures forall i :: i in g.seqIndex[a][n..] <==> 0 <= i < |g.hashes| && g.actors[i] == a && g.seqs[i] > n
  {
    var later := g.seqIndex[a][n..];
    forall k | 0 <= k < |later|
      ensures g.IndexEntry(later[k], a, n + k)
    {
      assert g.IndexEntry(g.seqIndex[a][n + k], a, n + k);
    }
    forall i | 0 <= i < |g.hashes| && g.actors[i] == a && g.seqs[i] > n
      ensures i in later
    {
      assert later[g.seqs[i] - 1 - n] == i;
    }
  }

  lemma UncoveredByClock(g: NodeTable, clock: SeqClock, s: set<Change>)
    requires g.ValidNodes() && g.ValidIndex() && g.IsClock(clock, s)
    ensures forall i :: 0 <= i < |g.hashes| ==> (g.seqs[i] > clock[g.actors[i]] <==> g.hashes[i] !in Covered(g, s))
  {
    forall i | 0 <= i < |g.hashes|
      ensures g.seqs[i] > clock[g.actors[i]] <==> g.hashes[i] !in Covered(g, s)
    {
      if g.seqs[i] <= clock[g.actors[i]] {
        var j :| Entry(g.hashes, g.actors, s, j, g.actors[i], clock[g.actors[i]]);
        assert LaterIn(g, s, i, j);
      }
    }
  }

  /** The hashes at the listed nodes. */
  function Select(hashes: seq<Change>, nodes: seq<nat>): seq<Change> {
    if nodes == [] then [] else
      Select(hashes, nodes[..|nodes| - 1]) +
      (if nodes[|nodes| - 1] < |hashes| then [hashes[nodes[|nodes| - 1]]] else [])
  }

  lemma {:induction false} SelectFromPrefix(hashes: seq<Change>, n: nat, nodes: seq<nat>)
    requires n <= |hashes| && forall k :: 0 <= k < |nodes| ==> nodes[k] < n
    ensures Select(hashes[..n], nodes) == Select(hashes, nodes)
  {
    if nodes != [] {
      SelectFromPrefix(hashes, n, nodes[..|nodes| - 1]);
    }
  }

  /** The nodes whose hashes are not in `gone`, in order. */
  ghost predicate Selects(hashes: seq<Change>, nodes: seq<nat>, gone: set<Change>) {
    Ascending(nodes) && forall i :: i in nodes <==> 0 <= i < |hashes| && hashes[i] !in gone
  }

  /** Without the last hash, either the selection stays or loses its last node. */
  lemma SelectsInit(hashes: seq<Change>, nodes: seq<nat>, gone: set<Change>)
    requires Selects(hashes, nodes, gone) && hashes != []
    ensures var n := |hashes| - 1;
            if hashes[n] in gone then Selects(hashes[..n], nodes, gone)
            else nodes != [] && nodes[|nodes| - 1] == n && Selects(hashes[..n], nodes[..|nodes| - 1], gone)
  {
    var n := |hashes| - 1;
    if hashes[n] !in gone {
      var k :| 0 <= k < |nodes| && nodes[k] == n;
      var last := |nodes| - 1;
      assert nodes[last] in nodes;
      assert nodes == nodes[..last] + [nodes[last]];
    }
  }

  lemma SelectsWithin(hashes: seq<Change>, nodes: seq<nat>, gone: set<Change>)
    requires Selects(hashes, nodes, gone)
    ensures forall k :: 0 <= k < |nodes| ==> nodes[k] < |hashes|
  {
    forall k | 0 <= k < |nodes|
      ensures nodes[k] < |hashes|
    {
      assert nodes[k] in nodes;
    }
  }

  /** Reading the hashes off an ascending list of nodes keeps their order. */
  lemma {:induction false} SelectIsWithout(hashes: seq<Change>, nodes: seq<nat>, gone: set<Change>)
    requires Selects(hashes, nodes, gone)
    ensures Select(hashes, nodes) == Without(hashes, gone)
  {
    SelectsWithin(hashes, nodes, gone);
    if hashes != [] {
      var n := |hashes| - 1;
      var rest := if hashes[n] in gone then nodes else nodes[..|nodes| - 1];
      SelectsInit(hashes, nodes, gone);
      SelectIsWithout(hashes[..n], rest, gone);
      SelectsWithin(hashes[..n], rest, gone);
      SelectFromPrefix(hashes, n, rest);
    }
  }

  lemma {:induction false} WithoutElements(s: seq<Change>, gone: set<Change>)
    ensures Elements(Without(s, gone)) == Elements(s) - gone
  {
    if s != [] {
      var init := s[..|s| - 1];
      WithoutElements(init, gone);
      assert s == init + [s[|s| - 1]];
      assert Elements(s) == Elements(init) + {s[|s| - 1]};
      assert Elements(Without(init, gone) + [s[|s| - 1]]) == Elements(Without(init, gone)) + {s[|s| - 1]};
    }
  }

  /** Visited and stacked nodes are in the closed set `total`; the roots, and the
      parents of what was visited, are visited or on the stack. */
  ghost predicate Traversal(g: NodeTable, total: set<Change>, roots: set<Change>, visited: set<nat>, stack: seq<nat>) {
    && HashesOf(g.hashes, visited) <= total
    && (forall n :: n in visited ==> n < |g.hashes|)
    && (forall k :: 0 <= k < |stack| ==> stack[k] < |g.hashes| && g.hashes[stack[k]] in total)
    && (forall c :: c in roots ==> Reached(g, c, visited, stack))
    && (forall n, d :: n in visited && d in g.hashes[n].deps ==> Reached(g, d, visited, stack))
  }

  predicate Reached(g: NodeTable, c: Change, visited: set<nat>, stack: seq<nat>) {
    c in g.nodesByHash && (g.nodesByHash[c] in visited || g.nodesByHash[c] in stack)
  }

  lemma TraversalSkips(g: NodeTable, total: set<Change>, roots: set<Change>, visited: set<nat>, rest: seq<nat>, n: nat)
    requires Traversal(g, total, roots, visited, rest + [n]) && n in visited
    ensures Traversal(g, total, roots, visited, rest)
  {
    forall c | Reached(g, c, visited, rest + [n])
      ensures Reached(g, c, visited, rest)
    {
    }
    assert forall k :: 0 <= k < |rest| ==> rest[k] == (rest + [n])[k];
  }

  lemma TraversalExpands(g: NodeTable, total: set<Change>, roots: set<Change>, visited: set<nat>, rest: seq<nat>, n: nat, ps: seq<nat>)
    requires Closed(total) && Traversal(g, total, roots, visited, rest + [n]) && n < |g.hashes|
    requires ListsDeps(g.hashes, ps, g.hashes[n].deps)
    requires forall d :: d in g.hashes[n].deps ==> d in g.nodesByHash && g.nodesByHash[d] in ps
    ensures Traversal(g, total, roots, visited + {n}, rest + ps)
  {
    forall c | Reached(g, c, visited, rest + [n]) || c in g.hashes[n].deps
      ensures Reached(g, c, visited + {n}, rest + ps)
    {
    }
    assert (rest + [n])[|rest|] == n;
    assert forall k :: 0 <= k < |rest| ==> (rest + [n])[k] == rest[k];
    assert forall k :: 0 <= k < |ps| ==> g.hashes[n].deps[k] in g.hashes[n].deps;
  }

  /** With an empty stack, all ancestors were visited. */
  lemma TraversalEnds(g: NodeTable, roots: set<Change>, visited: set<nat>)
    requires g.ValidNodes() && Traversal(g, AncestorsOf(roots), roots, visited, [])
    ensures HashesOf(g.hashes, visited) == AncestorsOf(roots)
  {
    var seen := HashesOf(g.hashes, visited);
    forall c | Reached(g, c, visited, [])
      ensures c in seen
    {
    }
    assert Closed(seen);
    AncestorsOfInClosed(seen, roots);
  }

  lemma TraversalStarts(g: NodeTable, nodes: seq<nat>, roots: set<Change>)
    requires g.ValidNodes() && forall k :: 0 <= k < |nodes| ==> nodes[k] < |g.hashes|
    requires roots == HashesOf(g.hashes, set n | n in nodes)
    ensures Traversal(g, AncestorsOf(roots), roots, {}, nodes)
  {
    forall k | 0 <= k < |nodes|
      ensures g.hashes[nodes[k]] in AncestorsOf(roots)
    {
      assert nodes[k] in nodes;
      assert g.hashes[nodes[k]] in Ancestors(g.hashes[nodes[k]]);
    }
  }

  /** Visits the ancestors of the nodes depth first and takes them out of
      `changes`. */
  method RemoveAncestorsFrom(g: NodeTable, changes: set<Change>, nodes: seq<nat>, ghost roots: set<Change>, ghost total: set<Change>)
    returns (left: set<Change>)
    requires g.Valid() && Closed(total) && Traversal(g, total, roots, {}, nodes)
    ensures exists visited :: left == changes - HashesOf(g.hashes, visited) && Traversal(g, total, roots, visited, [])
  {
    left := changes;
    var toVisit := nodes;
    var visited: set<nat> := {};
    while toVisit != []
      invariant Traversal(g, total, roots, visited, toVisit)
      invariant left == changes - HashesOf(g.hashes, visited)
      decreases g.nodesByHash.Keys - HashesOf(g.hashes, visited), |toVisit|
    {
      var last := |toVisit| - 1;
      var idx, rest := toVisit[last], toVisit[..last];
      assert toVisit == rest + [idx];
      if idx in visited {
        TraversalSkips(g, total, roots, visited, rest, idx);
        toVisit := rest;
      } else {
        var ps := Parents(g, idx);
        TraversalExpands(g, total, roots, visited, rest, idx, ps);
        assert HashesOf(g.hashes, visited + {idx}) == HashesOf(g.hashes, visited) + {g.hashes[idx]};
        visited := visited + {idx};
        left := left - {g.hashes[idx]};
        toVisit := rest + ps;
      }
    }
  }

  // Growing the graph.

  method FirstMissing(g: NodeTable, deps: seq<Change>) returns (m: Option<Change>)
    ensures m.None? <==> forall d :: d in deps ==> d in g.nodesByHash
    ensures m.Some? ==> m.value in deps && m.value !in g.nodesByHash
  {
    for k := 0 to |deps|
      invariant forall j :: 0 <= j < k ==> deps[j] in g.nodesByHash
    {
      if deps[k] !in g.nodesByHash {
        return Some(deps[k]);
      }
    }
    m := None;
  }

  /** Appends an edge at the end of the child's chain. */
  method AddParent(edges: seq<Edge>, parents: seq<Option<nat>>, child: nat, target: nat, ghost owner: seq<nat>)
    returns (edges': seq<Edge>, parents': seq<Option<nat>>, ghost owner': seq<nat>)
    requires Owned(edges, parents, owner) && child < |parents|
    ensures Owned(edges', parents', owner') && |parents'| == |parents|
    ensures Targets(edges', parents'[child]) == Targets(edges, parents[child]) + [target]
    ensures forall i :: 0 <= i < |parents| && i != child ==>
      parents'[i] == parents[i] && Targets(edges', parents'[i]) == Targets(edges, parents[i])
  {
    var newEdge := |edges|;
    edges', parents', owner' := edges + [Edge(target, None)], parents, owner + [child];
    if parents[child].Some? {
      var e := parents[child].value;
      while edges[e].next.Some?
        invariant e < newEdge && owner[e] == child && OnChain(edges, parents[child].value, e)
        decreases newEdge - e
      {
        OnChainStep(edges, parents[child].value, e);
        e := edges[e].next.value;
      }
      edges' := edges'[e := edges'[e].(next := Some(newEdge))];
      ExtendChain(edges, e, target, parents[child].value);
    } else {
      parents' := parents[child := Some(newEdge)];
      assert Targets(edges', Some(newEdge)) == [target] + Targets(edges', None);
    }
    forall i | 0 <= i < |parents| && i != child
      ensures Targets(edges', parents'[i]) == Targets(edges, parents[i])
    {
      ExtendOther(edges, edges', owner, child, parents[i]);
    }
  }

  /** Threads the edges to all parents of a new last node. */
  method AddParents(g: NodeTable, change: Change, ghost owner: seq<nat>)
    returns (edges: seq<Edge>, parents: seq<Option<nat>>, ghost owner': seq<nat>)
    requires g.ValidNodes() && g.ValidEdges() && Owned(g.edges, g.parents, owner)
    requires forall d :: d in change.deps ==> d in g.nodesByHash
    ensures Owned(edges, parents, owner') && |parents| == |g.parents| + 1
    ensures ListsDeps(g.hashes, Targets(edges, parents[|g.parents|]), change.deps)
    ensures forall i :: 0 <= i < |g.parents| ==> Targets(edges, parents[i]) == Targets(g.edges, g.parents[i])
  {
    var node := |g.parents|;
    edges, parents, owner' := g.edges, g.parents + [None], owner;
    for k := 0 to |change.deps|
      invariant Owned(edges, parents, owner') && |parents| == node + 1
      invariant ListsDeps(g.hashes, Targets(edges, parents[node]), change.deps[..k])
      invariant forall i :: 0 <= i < node ==> Targets(edges, parents[i]) == Targets(g.edges, g.parents[i])
    {
      assert change.deps[k] in change.deps;
      edges, parents, owner' := AddParent(edges, parents, node, g.nodesByHash[change.deps[k]], owner');
    }
    assert change.deps[..|change.deps|] == change.deps;
  }

  /** The table with one more node. */
  function Extended(g: NodeTable, change: Change, actor: nat, edges: seq<Edge>, parents: seq<Option<nat>>): NodeTable
    requires actor < |g.seqIndex|
  {
    NodeTable(edges, g.hashes + [change], g.actors + [actor], parents, g.seqs + [change.seqNum], g.maxOps + [change.maxOp],
              g.nodesByHash[change := |g.hashes|], g.seqIndex[actor := g.seqIndex[actor] + [|g.hashes|]])
  }

  lemma ExtendedNumbering(hashes: seq<Change>, nodesByHash: map<Change, nat>, change: Change)
    requires Numbering(hashes, nodesByHash) && ParentsFirst(hashes, nodesByHash) && change !in nodesByHash
    requires forall d :: d in change.deps ==> d in nodesByHash
    ensures Numbering(hashes + [change], nodesByHash[change := |hashes|])
    ensures ParentsFirst(hashes + [change], nodesByHash[change := |hashes|])
  {
    var hashes' := hashes + [change];
    forall i | 0 <= i < |hashes|
      ensures hashes'[i] == hashes[i] && hashes[i] != change
    {
      assert hashes[i] in nodesByHash;
    }
  }

  lemma ExtendedNodesValid(g: NodeTable, change: Change, actor: nat, edges: seq<Edge>, parents: seq<Option<nat>>)
    requires g.ValidNodes() && change !in g.nodesByHash && |parents| == |g.parents| + 1 && actor < |g.seqIndex|
    requires forall d :: d in change.deps ==> d in g.nodesByHash
    ensures Extended(g, change, actor, edges, parents).ValidNodes()
  {
    ExtendedNumbering(g.hashes, g.nodesByHash, change);
  }

  lemma ExtendedIndexValid(g: NodeTable, change: Change, actor: nat, edges: seq<Edge>, parents: seq<Option<nat>>)
    requires g.ValidNodes() && g.ValidIndex() && actor < |g.seqIndex| && |g.seqIndex[actor]| + 1 == change.seqNum
    ensures Extended(g, change, actor, edges, parents).ValidIndex()
  {
    var g', n := Extended(g, change, actor, edges, parents), |g.hashes|;
    forall a, k | 0 <= a < |g'.seqIndex| && 0 <= k < |g'.seqIndex[a]|
      ensures g'.IndexEntry(g'.seqIndex[a][k], a, k)
    {
      if a != actor || k < |g.seqIndex[a]| {
        assert g.IndexEntry(g.seqIndex[a][k], a, k);
      }
    }
    forall i | 0 <= i < |g'.hashes|
      ensures g'.actors[i] < |g'.seqIndex| && 1 <= g'.seqs[i] <= |g'.seqIndex[g'.actors[i]]|
      ensures g'.seqIndex[g'.actors[i]][g'.seqs[i] - 1] == i
    {
      assert i < n ==> g.seqIndex[g.actors[i]][g.seqs[i] - 1] == i;
    }
  }

  lemma ExtendedEdgesValid(g: NodeTable, change: Change, actor: nat, edges: seq<Edge>, parents: seq<Option<nat>>, owner: seq<nat>)
    requires g.ValidNodes() && g.ValidEdges() && actor < |g.seqIndex|
    requires Owned(edges, parents, owner) && |parents| == |g.parents| + 1
    requires ListsDeps(g.hashes, Targets(edges, parents[|g.parents|]), change.deps)
    requires forall i :: 0 <= i < |g.parents| ==> Targets(edges, parents[i]) == Targets(g.edges, g.parents[i])
    ensures Extended(g, change, actor, edges, parents).ValidEdges()
  {
    var g' := Extended(g, change, actor, edges, parents);
    forall i: nat | i < |g'.hashes|
      ensures g'.ChainOfParents(i)
    {
      assert i < |g.hashes| ==> g.ChainOfParents(i);
    }
  }

  lemma ExtendedClock(hashes: seq<Change>, actors: seq<nat>, change: Change, actor: nat, clock: SeqClock, s: set<Change>)
    requires |actors| == |hashes| && IsClockOf(hashes, actors, clock, s) && change !in s
    ensures IsClockOf(hashes + [change], actors + [actor], clock, s)
  {
    forall a | 0 <= a < |clock| && clock[a] > 0
      ensures Attained(hashes + [change], actors + [actor], s, a, clock[a])
    {
      var i :| Entry(hashes, actors, s, i, a, clock[a]);
      assert Entry(hashes + [change], actors + [actor], s, i, a, clock[a]);
    }
  }

  /** A new change is nobody's ancestor, so no cached clock goes stale. */
  lemma ExtendedCacheValid(g: NodeTable, g': NodeTable, change: Change, actor: nat, cache: map<nat, SeqClock>)
    requires g.ValidNodes() && g.ValidCache(cache) && change !in g.nodesByHash
    requires g'.hashes == g.hashes + [change] && g'.actors == g.actors + [actor] && |g'.seqIndex| == |g.seqIndex|
    ensures g'.ValidCache(cache)
  {
    ChangesClosed(g, {});
    forall n | n in cache
      ensures IsClockOf(g'.hashes, g'.actors, cache[n], Ancestors(g'.hashes[n]))
    {
      AncestorsInClosed(g.Changes(), g.hashes[n]);
      ExtendedClock(g.hashes, g.actors, change, actor, cache[n], Ancestors(g.hashes[n]));
    }
  }

  /** Puts a new node behind the others and threads its edges. */
  method Extend(g: NodeTable, change: Change, actor: nat, ghost cache: map<nat, SeqClock>, ghost owner: seq<nat>)
    returns (g': NodeTable, ghost owner': seq<nat>)
    requires g.Valid() && Owned(g.edges, g.parents, owner) && g.ValidCache(cache)
    requires change !in g.nodesByHash && forall d :: d in change.deps ==> d in g.nodesByHash
    requires actor < |g.seqIndex| && |g.seqIndex[actor]| + 1 == change.seqNum
    ensures g'.Valid() && Owned(g'.edges, g'.parents, owner') && g'.ValidCache(cache)
    ensures g'.Changes() == g.Changes() + {change}
    ensures g' == Extended(g, change, actor, g'.edges, g'.parents)
  {
    var edges, parents;
    edges, parents, owner' := AddParents(g, change, owner);
    g' := Extended(g, change, actor, edges, parents);
    ExtendedNodesValid(g, change, actor, edges, parents);
    ExtendedIndexValid(g, change, actor, edges, parents);
    ExtendedEdgesValid(g, change, actor, edges, parents, owner');
    ExtendedCacheValid(g, g', change, actor, cache);
  }

  /** The dependencies of a new change stop being heads, and it becomes one. */
  lemma NewHead(s: set<Change>, c: Change)
    requires Closed(s) && c !in s && forall d :: d in c.deps ==> d in s
    ensures Heads(s + {c}) == Heads(s) - Elements(c.deps) + {c}
  {
    if c in c.deps {
      DepIsAncestor(c, c);
    }
  }

  lemma NewHeads(g: NodeTable, c: Change)
    requires g.ValidNodes() && c !in g.nodesByHash && forall d :: d in c.deps ==> d in g.nodesByHash
    ensures Heads(g.Changes() + {c}) == Heads(g.Changes()) - Elements(c.deps) + {c}
  {
    ChangesClosed(g, {});
    forall d | d in c.deps
      ensures d in g.Changes()
    {
      assert g.hashes[g.nodesByHash[d]] == d;
    }
    NewHead(g.Changes(), c);
  }

  // Renumbering actors.

  /** Where an index goes when a new actor is inserted at `idx`. */
  function WithNewActor(actor: nat, idx: nat): nat {
    if actor >= idx then actor + 1 else actor
  }

  function WithoutActor(actor: nat, idx: nat): nat {
    if actor > idx then actor - 1 else actor
  }

  function Renumber(actors: seq<nat>, f: nat -> nat): seq<nat> {
    seq(|actors|, i requires 0 <= i < |actors| => f(actors[i]))
  }

  function InsertActorInto(g: NodeTable, idx: nat): NodeTable
    requires idx <= |g.seqIndex|
  {
    g.(actors := Renumber(g.actors, a => WithNewActor(a, idx)), seqIndex := InsertAt(g.seqIndex, idx, []))
  }

  function RemoveActorFrom(g: NodeTable, idx: nat): NodeTable
    requires idx < |g.seqIndex|
  {
    g.(actors := Renumber(g.actors, a => WithoutActor(a, idx)), seqIndex := RemoveAt(g.seqIndex, idx))
  }

  lemma SameNodes(g: NodeTable, g': NodeTable)
    requires g.ValidNodes() && |g'.actors| == |g.actors| && g' == g.(actors := g'.actors, seqIndex := g'.seqIndex)
    ensures g'.ValidNodes() && (g.ValidEdges() ==> g'.ValidEdges())
  {
    if g.ValidEdges() {
      assert forall i: nat :: i < |g.hashes| && g.ChainOfParents(i) ==> g'.ChainOfParents(i);
    }
  }

  /** Inserting an actor only renames: the same entries under shifted indexes. */
  lemma InsertActorKeeps(g: NodeTable, idx: nat)
    requires g.ValidNodes() && g.ValidIndex() && idx <= |g.seqIndex|
    ensures InsertActorInto(g, idx).ValidNodes() && InsertActorInto(g, idx).ValidIndex()
    ensures g.ValidEdges() ==> InsertActorInto(g, idx).ValidEdges()
  {
    var g' := InsertActorInto(g, idx);
    SameNodes(g, g');
    forall a, k | 0 <= a < |g'.seqIndex| && 0 <= k < |g'.seqIndex[a]|
      ensures g'.IndexEntry(g'.seqIndex[a][k], a, k)
    {
      var b := if a > idx then a - 1 else a;
      assert g.IndexEntry(g.seqIndex[b][k], b, k);
    }
  }

  lemma RemoveActorKeeps(g: NodeTable, idx: nat)
    requires g.ValidNodes() && g.ValidIndex() && idx < |g.seqIndex| && g.seqIndex[idx] == []
    ensures RemoveActorFrom(g, idx).ValidNodes() && RemoveActorFrom(g, idx).ValidIndex()
    ensures g.ValidEdges() ==> RemoveActorFrom(g, idx).ValidEdges()
  {
    var g' := RemoveActorFrom(g, idx);
    SameNodes(g, g');
    forall a, k | 0 <= a < |g'.seqIndex| && 0 <= k < |g'.seqIndex[a]|
      ensures g'.IndexEntry(g'.seqIndex[a][k], a, k)
    {
      var b := if a >= idx then a + 1 else a;
      assert g.IndexEntry(g.seqIndex[b][k], b, k);
    }
  }

  /** A clock with a new empty entry is the clock of the renumbered graph. */
  lemma InsertActorClock(hashes: seq<Change>, actors: seq<nat>, actors': seq<nat>, idx: nat, clock: SeqClock, s: set<Change>)
    requires |actors| == |actors'| == |hashes| && idx <= |clock| && IsClockOf(hashes, actors, clock, s)
    requires forall i :: 0 <= i < |actors| ==> actors'[i] == WithNewActor(actors[i], idx)
    ensures IsClockOf(hashes, actors', InsertAt(clock, idx, 0), s)
  {
    var clock' := InsertAt(clock, idx, 0);
    forall a | 0 <= a < |clock'| && clock'[a] > 0
      ensures Attained(hashes, actors', s, a, clock'[a])
    {
      var b := if a > idx then a - 1 else a;
      var i :| Entry(hashes, actors, s, i, b, clock[b]);
      assert Entry(hashes, actors', s, i, a, clock'[a]);
    }
  }

  lemma RemoveActorClock(hashes: seq<Change>, actors: seq<nat>, actors': seq<nat>, idx: nat, clock: SeqClock, s: set<Change>)
    requires |actors| == |actors'| == |hashes| && idx < |clock| && IsClockOf(hashes, actors, clock, s)
    requires forall i :: 0 <= i < |actors| ==> actors[i] != idx && actors'[i] == WithoutActor(actors[i], idx)
    ensures IsClockOf(hashes, actors', RemoveAt(clock, idx), s)
  {
    var clock' := RemoveAt(clock, idx);
    forall a | 0 <= a < |clock'| && clock'[a] > 0
      ensures Attained(hashes, actors', s, a, clock'[a])
    {
      var b := if a >= idx then a + 1 else a;
      var i :| Entry(hashes, actors, s, i, b, clock[b]);
      assert Entry(hashes, actors', s, i, a, clock'[a]);
    }
  }

  function InsertActorIntoCache(cache: map<nat, SeqClock>, idx: nat): map<nat, SeqClock>
    requires forall n :: n in cache ==> idx <= |cache[n]|
  {
    map n | n in cache :: InsertAt(cache[n], idx, 0)
  }

  function RemoveActorFromCache(cache: map<nat, SeqClock>, idx: nat): map<nat, SeqClock>
    requires forall n :: n in cache ==> idx < |cache[n]|
  {
    map n | n in cache :: RemoveAt(cache[n], idx)
  }

  /** The shifted clocks are what would be computed afresh. */
  lemma InsertActorCache(g: NodeTable, cache: map<nat, SeqClock>, idx: nat)
    requires |g.actors| == |g.hashes| && g.ValidCache(cache) && idx <= |g.seqIndex|
    ensures InsertActorInto(g, idx).ValidCache(InsertActorIntoCache(cache, idx))
  {
    var g' := InsertActorInto(g, idx);
    forall n | n in cache {
      InsertActorClock(g.hashes, g.actors, g'.actors, idx, cache[n], Ancestors(g.hashes[n]));
    }
  }

  lemma RemoveActorCache(g: NodeTable, cache: map<nat, SeqClock>, idx: nat)
    requires |g.actors| == |g.hashes| && g.ValidCache(cache) && idx < |g.seqIndex| && idx !in g.actors
    ensures RemoveActorFrom(g, idx).ValidCache(RemoveActorFromCache(cache, idx))
  {
    var g' := RemoveActorFrom(g, idx);
    forall n | n in cache {
      RemoveActorClock(g.hashes, g.actors, g'.actors, idx, cache[n], Ancestors(g.hashes[n]));
    }
  }

  /** Removing an actor that was just inserted changes nothing. */
  lemma InsertThenRemove(g: NodeTable, idx: nat)
    requires idx <= |g.seqIndex|
    ensures RemoveActorFrom(InsertActorInto(g, idx), idx) == g
  {
    var g' := RemoveActorFrom(InsertActorInto(g, idx), idx);
    assert g'.actors == g.actors;
    assert g'.seqIndex == g.seqIndex;
  }

  function EmptyTable(numActors: nat): NodeTable {
    NodeTable([], [], [], [], [], [], map[], seq(numActors, _ => []))
  }

  /** A table whose parts agree. */
  type Graph = g: NodeTable | g.Valid() witness EmptyTable(0)

  /** Whether a graph of this size gets a new clock cached. */
  predicate IsDue(count: nat) {
    count % CACHE_STEP == 0
  }

  ghost predicate CachedUpTo(cache: map<nat, SeqClock>, count: nat) {
    forall n {:trigger n in cache} :: 0 <= n < count && IsDue(n + 1) ==> n in cache
  }

  /** Every sixteenth node has its clock cached. */
  lemma SixteenthIsCached(cache: map<nat, SeqClock>, count: nat, n: nat)
    requires CachedUpTo(cache, count) && n < count && n % 16 == 15
    ensures n in cache
  {
    assert IsDue(n + 1);
  }

  /** With one more node, only that one may be due. */
  lemma OneMoreDue(cache: map<nat, SeqClock>, cache': map<nat, SeqClock>, last: nat, due: bool)
    requires due == IsDue(last + 1) && (due ==> last in cache') && forall n :: n in cache ==> n in cache'
    ensures CachedUpTo(cache, last) ==> CachedUpTo(cache', last + 1)
  {
  }

  class ChangeGraph {
    var nodes: Graph
    var heads: set<Change>
    var clockCache: map<nat, SeqClock>
    ghost var owner: seq<nat>

    /** The parts fit together. */
    ghost predicate Valid()
      reads this
    {
      && Owned(nodes.edges, nodes.parents, owner)
      && heads == Heads(nodes.Changes())
      && nodes.ValidCache(clockCache)
    }

    /** Every sixteenth node has its clock cached. */
    ghost predicate Regular()
      reads this
    {
      CachedUpTo(clockCache, |nodes.hashes|)
    }

    constructor (numActors: nat)
      ensures Valid() && Regular() && nodes.hashes == [] && nodes.seqIndex == seq(numActors, _ => [])
    {
      nodes := EmptyTable(numActors);
      heads, clockCache := {}, map[];
      owner := [];
    }

    predicate HasChange(c: Change)
      reads this
    {
      c in nodes.nodesByHash
    }

    /** The dependencies of the change stop being heads, and it becomes one. */
    method UpdateHeads(change: Change)
      modifies `heads
      ensures heads == old(heads) - Elements(change.deps) + {change}
    {
      for k := 0 to |change.deps|
        invariant heads == old(heads) - Elements(change.deps[..k])
      {
        heads := heads - {change.deps[k]};
        assert change.deps[..k + 1] == change.deps[..k] + [change.deps[k]];
      }
      assert change.deps[..|change.deps|] == change.deps;
      heads := heads + {change};
    }

    /** Adds a change of the actor with the given index.  A change that is there
        already is skipped; a missing dependency is an error. */
    method AddChange(change: Change, actor: nat) returns (r: Result<(), Change>)
      requires Valid()
      requires actor < |nodes.seqIndex| && (HasChange(change) || |nodes.seqIndex[actor]| + 1 == change.seqNum)
      modifies this
      ensures Valid() && (old(Regular()) ==> Regular())
      ensures r.Ok? <==> old(HasChange(change)) || forall d :: d in change.deps ==> old(HasChange(d))
      ensures r.Err? ==> r.error in change.deps && !old(HasChange(r.error))
      ensures r.Err? || old(HasChange(change)) ==>
        nodes == old(nodes) && heads == old(heads) && clockCache == old(clockCache)
      ensures r.Ok? && !old(HasChange(change)) ==>
        && nodes.hashes == old(nodes.hashes) + [change] && nodes.actors == old(nodes.actors) + [actor]
        && nodes.seqIndex == old(nodes.seqIndex)[actor := old(nodes.seqIndex)[actor] + [|old(nodes.hashes)|]]
    {
      r := Ok(());
      if change !in nodes.nodesByHash {
        var missing := FirstMissing(nodes, change.deps);
        if missing.Some? {
          r := Err(missing.value);
        } else {
          AppendAndCache(change, actor);
        }
      }
    }

    /** Adds a new change, and caches the clock of every sixteenth node. */
    method AppendAndCache(change: Change, actor: nat)
      requires Valid() && !HasChange(change) && forall d :: d in change.deps ==> HasChange(d)
      requires actor < |nodes.seqIndex| && |nodes.seqIndex[actor]| + 1 == change.seqNum
      modifies this
      ensures Valid() && (old(Regular()) ==> Regular())
      ensures nodes.hashes == old(nodes.hashes) + [change] && nodes.actors == old(nodes.actors) + [actor]
      ensures nodes.seqIndex == old(nodes.seqIndex)[actor := old(nodes.seqIndex)[actor] + [|old(nodes.hashes)|]]
    {
      ghost var count := |nodes.hashes|;
      AppendChange(change, actor);
      CacheSomeClocks(|nodes.hashes| - 1);
      assert |nodes.hashes| == count + 1;
    }

    /** Caches the clock of the last node if it is due. */
    method CacheSomeClocks(last: nat)
      requires nodes.ValidCache(clockCache) && last < |nodes.hashes|
      modifies `clockCache
      ensures nodes.ValidCache(clockCache) && forall n :: n in old(clockCache) ==> n in clockCache
      ensures CachedUpTo(old(clockCache), last) ==> CachedUpTo(clockCache, last + 1)
      ensures !IsDue(last + 1) ==> clockCache == old(clockCache)
    {
      var due := IsDue(last + 1);
      if due {
        var clock := CacheClock(last);
      }
      OneMoreDue(old(clockCache), clockCache, last, due);
    }

    /** Adds a new change whose dependencies are there. */
    method AppendChange(change: Change, actor: nat)
      requires Valid() && !HasChange(change) && forall d :: d in change.deps ==> HasChange(d)
      requires actor < |nodes.seqIndex| && |nodes.seqIndex[actor]| + 1 == change.seqNum
      modifies this
      ensures Valid() && clockCache == old(clockCache)
      ensures nodes.hashes == old(nodes.hashes) + [change] && nodes.actors == old(nodes.actors) + [actor]
      ensures nodes.seqIndex == old(nodes.seqIndex)[actor := old(nodes.seqIndex)[actor] + [|old(nodes.hashes)|]]
    {
      NewHeads(nodes, change);
      var g, owner' := Extend(nodes, change, actor, clockCache, owner);
      UpdateHeads(change);
      nodes, owner := g, owner';
    }

    /** Stores the clock of a node. */
    method CacheClock(node: nat) returns (clock: SeqClock)
      requires nodes.ValidCache(clockCache) && node < |nodes.hashes|
      modifies `clockCache
      ensures nodes.ValidCache(clockCache) && nodes.IsClock(clock, Ancestors(nodes.hashes[node]))
      ensures node in clockCache && forall n :: n in old(clockCache) ==> n in clockCache
    {
      clock, clockCache := ExtendCache(nodes, clockCache, node);
    }

    /** Makes room for a new actor at an index of the actor table. */
    method InsertActor(idx: nat)
      requires Valid() && idx <= |nodes.seqIndex|
      modifies `nodes, `clockCache
      ensures Valid() && (old(Regular()) ==> Regular()) && nodes == InsertActorInto(old(nodes), idx)
      ensures clockCache.Keys == old(clockCache).Keys
    {
      InsertActorKeeps(nodes, idx);
      InsertActorCache(nodes, clockCache, idx);
      nodes, clockCache := InsertActorInto(nodes, idx), InsertActorIntoCache(clockCache, idx);
    }

    /** Drops an actor that has no changes. */
    method RemoveActor(idx: nat)
      requires Valid() && idx < |nodes.seqIndex| && nodes.seqIndex[idx] == []
      modifies `nodes, `clockCache
      ensures Valid() && (old(Regular()) ==> Regular()) && nodes == RemoveActorFrom(old(nodes), idx)
      ensures clockCache.Keys == old(clockCache).Keys
    {
      RemoveActorKeeps(nodes, idx);
      RemoveActorCache(nodes, clockCache, idx);
      nodes, clockCache := RemoveActorFrom(nodes, idx), RemoveActorFromCache(clockCache, idx);
    }

    /** The nodes of those heads that are in the graph. */
    method HeadsToNodes(haveDeps: seq<Change>) returns (r: seq<nat>)
      requires Valid()
      ensures forall k :: 0 <= k < |r| ==> r[k] < |nodes.hashes|
      ensures HashesOf(nodes.hashes, set n | n in r) == Elements(haveDeps) * nodes.Changes()
    {
      var g := nodes;
      r := [];
      for k := 0 to |haveDeps|
        invariant forall j :: 0 <= j < |r| ==> r[j] < |g.hashes|
        invariant HashesOf(g.hashes, set n | n in r) == Elements(haveDeps[..k]) * g.Changes()
      {
        var h := haveDeps[k];
        assert Elements(haveDeps[..k + 1]) == Elements(haveDeps[..k]) + {h};
        assert h in g.Changes() <==> h in g.nodesByHash;
        if h in g.nodesByHash {
          OneMoreHash(g.hashes, r, g.nodesByHash[h]);
          r := r + [g.nodesByHash[h]];
        }
      }
      assert haveDeps[..|haveDeps|] == haveDeps;
    }

    method SeqClockForHeads(haveDeps: seq<Change>) returns (clock: SeqClock)
      requires Valid()
      ensures nodes.IsClock(clock, AncestorsOf(Elements(haveDeps) * nodes.Changes()))
    {
      var ns := HeadsToNodes(haveDeps);
      assert forall n :: n in ns ==> n < |nodes.hashes|;
      clock := CalculateClock(nodes, clockCache, set n | n in ns);
    }

    /** The changes after the clock of some heads, in the order of the graph:
        what is not an ancestor of the heads, when actors' changes form chains. */
    method GetHashes(haveDeps: seq<Change>) returns (r: seq<Change>)
      requires Valid()
      ensures r == Without(nodes.hashes, Covered(nodes, AncestorsOf(Elements(haveDeps) * nodes.Changes())))
      ensures ChainsHold(nodes) ==> r == Without(nodes.hashes, AncestorsOf(Elements(haveDeps) * nodes.Changes()))
    {
      var clock := SeqClockForHeads(haveDeps);
      ghost var seen := AncestorsOf(Elements(haveDeps) * nodes.Changes());
      var indexes := GetBuildIndexes(nodes, clock, seen);
      r := Select(nodes.hashes, indexes);
      SelectIsWithout(nodes.hashes, indexes, Covered(nodes, seen));
      if ChainsHold(nodes) {
        ChangesClosed(nodes, Elements(haveDeps));
        CoveredIsClosedSet(nodes, seen);
      }
    }

    /** The slow complement: a depth-first search from the heads. */
    method RemoveAncestors(changes: set<Change>, haveDeps: seq<Change>) returns (left: set<Change>)
      requires Valid()
      ensures left == changes - AncestorsOf(Elements(haveDeps) * nodes.Changes())
    {
      var ns := HeadsToNodes(haveDeps);
      ghost var roots := Elements(haveDeps) * nodes.Changes();
      TraversalStarts(nodes, ns, roots);
      AncestorsOfClosed(roots);
      left := RemoveAncestorsFrom(nodes, changes, ns, roots, AncestorsOf(roots));
      forall visited | Traversal(nodes, AncestorsOf(roots), roots, visited, [])
        ensures HashesOf(nodes.hashes, visited) == AncestorsOf(roots)
      {
        TraversalEnds(nodes, roots, visited);
      }
    }

    /** The last operation of each actor among the ancestors of some heads. */
    method ClockForHeads(haveDeps: seq<Change>) returns (clock: seq<nat>, ghost seqClock: SeqClock)
      requires Valid()
      ensures IsOpClock(nodes, clock, AncestorsOf(Elements(haveDeps) * nodes.Changes()))
      ensures nodes.IsClock(seqClock, AncestorsOf(Elements(haveDeps) * nodes.Changes()))
      ensures |clock| == |nodes.seqIndex| && forall a :: 0 <= a < |clock| ==> clock[a] == OpAt(nodes, a, seqClock[a])
    {
      var g := nodes;
      var seqs := SeqClockForHeads(haveDeps);
      seqClock := seqs;
      clock := seq(|seqs|, a requires 0 <= a < |seqs| => OpAt(g, a, seqs[a]));
      assert OpsOf(g, seqs, clock);
    }

    /** The last operation of an actor's last change; 0 for an actor without
        changes, also when its index is past the end. */
    method MaxOpForActor(actor: nat) returns (maxOp: nat)
      requires Valid()
      ensures IsMaxOp(nodes, actor, maxOp)
    {
      maxOp := if actor < |nodes.seqIndex| then OpAt(nodes, actor, |nodes.seqIndex[actor]|) else 0;
      if actor < |nodes.seqIndex| {
        LastByIndex(nodes, actor);
      }
    }
  }
}
