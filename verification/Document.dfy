/**
A document: the graph of the changes it has applied, the queue of changes that
wait for their dependencies, and the sorted table of actors.
*/
module Documents {
  import opened Wrappers
  import opened Dag
  import opened ChangeGraphs
  import opened Actors
  import opened Histories
  import opened DocumentParts

  class Automerge {
    const graph: ChangeGraph
    var queue: seq<Change>
    var deps: set<Change>
    var actors: seq<ActorId>
    var actor: Actor
    var maxOp: nat

    /** The applied changes, their heads and their actors fit together. */
    ghost predicate SoundGraph()
      reads this, graph
    {
      && graph.Valid()
      && TableFits(graph.nodes, actors)
      && ActorFits(actor, actors)
      && deps == graph.heads
      && Bounds(maxOp, graph.nodes.Changes())
    }

    /** The next operation is just above the highest. */
    ghost predicate Tight()
      reads this, graph
    {
      maxOp == HighestOp(graph.nodes.hashes)
    }

    ghost predicate Sound()
      reads this, graph
    {
      SoundGraph() && Sifted(Applied(), [], queue, Known()) && AllUsed(graph.nodes)
    }

    /** Moreover every change builds on its actor's previous one, as those of
        local transactions do. */
    ghost predicate ValidGraph()
      reads this, graph
    {
      SoundGraph() && AllNumbered(graph.nodes.Changes())
    }

    ghost predicate Valid()
      reads this, graph
    {
      Sound() && AllNumbered(Known())
    }

    ghost function Applied(): set<Change>
      reads graph
    {
      graph.nodes.Changes()
    }

    /** Everything the document holds. */
    ghost function Known(): set<Change>
      reads this, graph
    {
      Applied() + Elements(queue)
    }

    lemma AppliedIsClosed()
      requires SoundGraph()
      ensures Closed(Applied()) && deps == Heads(Applied())
    {
      ChangesClosed(graph.nodes, {});
    }

    constructor (id: ActorId)
      ensures Valid() && Tight() && Known() == {} && GetActor() == id && fresh(graph)
    {
      graph := new ChangeGraph(0);
      queue, deps, actors, maxOp := [], {}, [], 0;
      actor := Unused(id);
    }

    function GetActor(): ActorId
      requires ActorFits(actor, actors)
      reads this
    {
      ActorIdOf(actor, actors)
    }

    predicate HasChange(c: Change)
      reads graph
    {
      graph.HasChange(c)
    }

    // The actor table.

    method InsertActor(index: nat, id: ActorId)
      requires SoundGraph() && Splits(actors, id, index)
      modifies `actors, `actor, graph`nodes, graph`clockCache
      ensures SoundGraph() && GetActor() == old(GetActor()) && Applied() == old(Applied())
      ensures actors == InsertAt(old(actors), index, id) && graph.nodes == InsertActorInto(old(graph.nodes), index)
    {
      TableAfterInsert(graph.nodes, actors, index, id);
      InsertKeepsTable(actors, id, index);
      actors := InsertAt(actors, index, id);
      graph.InsertActor(index);
      actor := Rewritten(actor, index);
    }

    /** The index of an actor, which is added to the table if need be. */
    method PutActor(id: ActorId) returns (index: nat)
      requires SoundGraph()
      modifies `actors, `actor, graph`nodes, graph`clockCache
      ensures SoundGraph() && GetActor() == old(GetActor()) && Applied() == old(Applied())
      ensures index < |actors| && actors[index] == id && InByteOrder(actors)
      ensures id in old(actors) ==> actors == old(actors) && graph.nodes == old(graph.nodes)
      ensures id !in old(actors) ==>
        && Splits(old(actors), id, index) && SplitsBytes(old(actors), id, index)
        && actors == InsertAt(old(actors), index, id) && graph.nodes == InsertActorInto(old(graph.nodes), index)
    {
      var place := BinarySearch(actors, id);
      match place {
        case Ok(i) =>
          index := i;
        case Err(i) =>
          index := i;
          InsertActor(i, id);
      }
      SortedByBytes(actors, id, index);
    }

    /** Drops an actor without changes; if it is the current one, its id is kept
        outside the table. */
    method RemoveActor(index: nat)
      requires SoundGraph() && index < |actors| && graph.nodes.seqIndex[index] == []
      modifies `actors, `actor, graph`nodes, graph`clockCache
      ensures SoundGraph() && GetActor() == old(GetActor()) && Applied() == old(Applied())
      ensures actors == RemoveAt(old(actors), index) && graph.nodes == RemoveActorFrom(old(graph.nodes), index)
    {
      NoNodeOfUnused(graph.nodes, index);
      TableAfterRemove(graph.nodes, actors, index);
      RemoveKeepsTable(actors, index);
      actor := Released(actor, index, actors);
      actors := RemoveAt(actors, index);
      graph.RemoveActor(index);
    }

    method RemoveUnusedActors()
      requires SoundGraph()
      modifies `actors, `actor, graph`nodes, graph`clockCache
      ensures SoundGraph() && GetActor() == old(GetActor()) && graph.nodes.hashes == old(graph.nodes.hashes)
      ensures AllUsed(graph.nodes)
      ensures AllUsed(old(graph.nodes)) ==> graph.nodes == old(graph.nodes) && actors == old(actors)
    {
      var unused: Option<nat> := LastUnused(graph.nodes);
      while unused.Some?
        invariant SoundGraph() && GetActor() == old(GetActor()) && graph.nodes.hashes == old(graph.nodes.hashes)
        invariant AllUsed(old(graph.nodes)) ==> graph.nodes == old(graph.nodes) && actors == old(actors)
        invariant unused.Some? ==> unused.value < |graph.nodes.seqIndex| && graph.nodes.seqIndex[unused.value] == []
        invariant unused.None? ==> AllUsed(graph.nodes)
        decreases |actors|, unused.Some?
      {
        RemoveActor(unused.value);
        unused := LastUnused(graph.nodes);
      }
    }

    method GetOrCreateActorIndex() returns (index: nat)
      requires SoundGraph()
      modifies `actors, `actor, graph`nodes, graph`clockCache
      ensures SoundGraph() && GetActor() == old(GetActor()) && actor == Cached(index)
      ensures actor == old(actor) || old(actor).Unused?
      ensures old(actor).Unused? && GetActor() !in old(actors) ==>
        && Splits(old(actors), GetActor(), index)
        && actors == InsertAt(old(actors), index, GetActor()) && graph.nodes == InsertActorInto(old(graph.nodes), index)
      ensures old(actor).Cached? || GetActor() in old(actors) ==> actors == old(actors) && graph.nodes == old(graph.nodes)
    {
      match actor {
        case Unused(id) =>
          index := PutActor(id);
          actor := Cached(index);
        case Cached(i) =>
          index := i;
      }
    }

    // Adding changes.

    method UpdateDeps(change: Change)
      modifies `deps
      ensures deps == old(deps) - Elements(change.deps) + {change}
    {
      for k := 0 to |change.deps|
        invariant deps == old(deps) - Elements(change.deps[..k])
      {
        deps := deps - {change.deps[k]};
        assert change.deps[..k + 1] == change.deps[..k] + [change.deps[k]];
      }
      assert change.deps[..|change.deps|] == change.deps;
      deps := deps + {change};
    }

    /** The index of a change's actor, if it is in the table and the change
        continues it. */
    method PlaceFor(change: Change) returns (index: Option<nat>)
      requires graph.Valid() && TableFits(graph.nodes, actors)
      requires change !in Applied() && change.seqNum >= 1 && NoTwins(Applied() + {change})
      ensures change.actor in actors || change.seqNum > 1 ==> (index.Some? <==> Follows(change, Applied()))
      ensures index.Some? ==>
        && index.value < |actors| && actors[index.value] == change.actor
        && |graph.nodes.seqIndex[index.value]| + 1 == change.seqNum
    {
      var place := BinarySearch(actors, change.actor);
      if place.Err? {
        StrangerFollowsNothing(graph.nodes, actors, change);
        return None;
      }
      ContinuesIndex(graph.nodes, actors, change, place.value);
      index := if |graph.nodes.seqIndex[place.value]| + 1 == change.seqNum then Some(place.value) else None;
    }

    /** Applies a change that is ready.  Its actor must be in the table, and its
        number must continue the actor's index; otherwise the program panics. */
    method UpdateHistory(change: Change) returns (ok: bool)
      requires SoundGraph() && change !in Applied() && Ready(change, Applied())
      requires change.seqNum >= 1 && NoTwins(Applied() + {change}) && (change.seqNum == 1 ==> change.actor in actors)
      modifies `deps, `maxOp, graph
      ensures ok <==> old(Follows(change, Applied()))
      ensures ok ==> SoundGraph() && graph.nodes.hashes == old(graph.nodes.hashes) + [change]
      ensures ok ==> maxOp == if old(maxOp) < change.maxOp then change.maxOp else old(maxOp)
      ensures ok ==> deps == old(deps) - Elements(change.deps) + {change}
    {
      var index := PlaceFor(change);
      ok := index.Some?;
      if ok {
        AddAt(change, index.value);
      }
    }

    /** Applies a change that continues the index of its actor. */
    method AddAt(change: Change, index: nat)
      requires SoundGraph() && change !in Applied() && Ready(change, Applied())
      requires index < |actors| && actors[index] == change.actor && |graph.nodes.seqIndex[index]| + 1 == change.seqNum
      modifies `deps, `maxOp, graph
      ensures SoundGraph() && graph.nodes.hashes == old(graph.nodes.hashes) + [change]
      ensures maxOp == if old(maxOp) < change.maxOp then change.maxOp else old(maxOp)
      ensures deps == old(deps) - Elements(change.deps) + {change}
    {
      ghost var g, before := graph.nodes, maxOp;
      maxOp := if maxOp < change.maxOp then change.maxOp else maxOp;
      UpdateDeps(change);
      var added := graph.AddChange(change, index);
      AfterAdding(g, graph.nodes, actors, before, change, index);
    }

    /** Whether the graph has another change with the actor and number of c. */
    method HasActorSeq(c: Change) returns (r: bool)
      requires SoundGraph() && c !in Applied()
      ensures r <==> Taken(Applied(), c)
    {
      var index := BinarySearch(actors, c.actor);
      match index {
        case Ok(a) =>
          if c.seqNum >= 1 {
            SeqTaken(graph.nodes, actors, c, a);
          }
          r := |graph.nodes.seqIndex[a]| >= c.seqNum;
        case Err(a) =>
          NoEntryNoTwin(graph.nodes, actors, c);
          r := 0 >= c.seqNum;
      }
    }

    method DuplicateSeq(batch: BatchApply, c: Change) returns (r: bool)
      requires SoundGraph() && batch.Valid()
      requires c !in Applied() && c !in batch.changes
      ensures r <==> Taken(Applied(), c) || HasTwin(Elements(batch.changes), c) || HasTwin(Elements(queue), c)
    {
      RecordedTwin(batch.changes, c);
      var taken := HasActorSeq(c);
      var waiting := QueueHasDupe(queue, c);
      r := taken || batch.HasActorSeq(c) || waiting;
    }

    predicate IsCausallyReady(c: Change, ready: set<Change>)
      reads graph
    {
      forall d | d in c.deps :: HasChange(d) || d in ready
    }

    /** Puts an incoming change into the batch if its dependencies are there and
        into the queue otherwise, unless it is known or has a twin. */
    method SiftOne(c: Change, batch: BatchApply, ghost known: set<Change>) returns (ok: bool)
      requires SoundGraph() && batch.Valid()
      requires Sifted(Applied(), batch.changes, queue, known)
      modifies `queue, batch
      ensures batch.Valid() && (ok <==> !Taken(known, c))
      ensures Sifted(Applied(), batch.changes, queue, if ok then known + {c} else known)
      ensures ok && c !in known && Ready(c, Applied() + Elements(old(batch.changes))) ==>
        batch.changes == old(batch.changes) + [c] && queue == old(queue)
      ensures ok && c !in known && !Ready(c, Applied() + Elements(old(batch.changes))) ==>
        batch.changes == old(batch.changes) && queue == old(queue) + [c]
      ensures !ok || c in known ==> batch.changes == old(batch.changes) && queue == old(queue)
    {
      InGraph(graph.nodes);
      ok := true;
      if !(HasChange(c) || c in batch.hashes || c in queue) {
        TwinsNowhere(Applied(), batch.changes, queue, known, c);
        var duplicate := DuplicateSeq(batch, c);
        if duplicate {
          ok := false;
        } else if IsCausallyReady(c, batch.hashes) {
          SiftReady(Applied(), batch.changes, queue, known, c);
          RecordedTwin(batch.changes, c);
          batch.Push(c);
        } else {
          SiftWaiting(Applied(), batch.changes, queue, known, c);
          queue := queue + [c];
        }
      } else {
        KnownHasNoTwin(known, c);
      }
    }

    /** Stops at the first change with a twin. */
    method SiftChanges(cs: seq<Change>, batch: BatchApply) returns (r: Result<(), ApplyError>, ghost n: nat)
      requires SoundGraph() && batch.Valid() && batch.changes == []
      requires Sifted(Applied(), [], queue, Known())
      modifies `queue, batch
      ensures batch.Valid() && n <= |cs|
      ensures Sifted(Applied(), batch.changes, queue, old(Known()) + Elements(cs[..n]))
      ensures r.Ok? ==> n == |cs|
      ensures r.Err? ==>
        n < |cs| && r.error == DuplicateSeqNumber(cs[n].seqNum, cs[n].actor) && Taken(old(Known()) + Elements(cs[..n]), cs[n])
      ensures batch.changes == Accepted(Applied(), Elements(old(queue)), cs[..n])
    {
      ghost var known := Known();
      r, n := Ok(()), 0;
      KnownGrows(known, cs, 0);
      for k := 0 to |cs|
        invariant r.Ok? && n == k && batch.Valid()
        invariant Sifted(Applied(), batch.changes, queue, known + Elements(cs[..n]))
        invariant batch.changes == Accepted(Applied(), Elements(old(queue)), cs[..n])
      {
        OneMoreAccepted(Applied(), Elements(old(queue)), cs, k);
        var ok := SiftOne(cs[k], batch, known + Elements(cs[..n]));
        if !ok {
          r := Err(DuplicateSeqNumber(cs[k].seqNum, cs[k].actor));
          break;
        }
        KnownGrows(known, cs, k);
        n := n + 1;
      }
    }

    method PopNextCausallyReady(ready: set<Change>) returns (c: Option<Change>)
      modifies `queue
      ensures c.None? ==> queue == old(queue) && forall q :: q in queue ==> !IsCausallyReady(q, ready)
      ensures c.Some? ==> exists i ::
        && 0 <= i < |old(queue)| && c.value == old(queue)[i] && IsCausallyReady(c.value, ready)
        && queue == SwapRemove(old(queue), i)
        && forall k :: 0 <= k < i ==> !IsCausallyReady(old(queue)[k], ready)
    {
      c := None;
      for index := 0 to |queue|
        invariant queue == old(queue)
        invariant forall k :: 0 <= k < index ==> !IsCausallyReady(queue[k], ready)
      {
        if IsCausallyReady(queue[index], ready) {
          c := Some(queue[index]);
          queue := SwapRemove(queue, index);
          return;
        }
      }
    }

    lemma ReadyInGraph(c: Change, ready: set<Change>)
      requires graph.Valid()
      ensures IsCausallyReady(c, ready) <==> Ready(c, Applied() + ready)
    {
      InGraph(graph.nodes);
    }

    /** Moves what has become ready from the queue to the batch. */
    method DrainQueue(batch: BatchApply, ghost known: set<Change>)
      requires SoundGraph() && batch.Valid() && Sifted(Applied(), batch.changes, queue, known)
      modifies `queue, batch
      ensures batch.Valid() && Sifted(Applied(), batch.changes, queue, known)
      ensures forall q :: q in queue ==> !Ready(q, Applied() + Elements(batch.changes))
      ensures old(batch.changes) <= batch.changes
    {
      var c := PopNextCausallyReady(batch.hashes);
      while c.Some?
        invariant batch.Valid() && old(batch.changes) <= batch.changes
        invariant c.Some? ==> exists before, i ::
          && Sifted(Applied(), batch.changes, before, known)
          && 0 <= i < |before| && c.value == before[i] && IsCausallyReady(c.value, batch.hashes)
          && queue == SwapRemove(before, i)
        invariant c.None? ==> Sifted(Applied(), batch.changes, queue, known)
        invariant c.None? ==> forall q :: q in queue ==> !IsCausallyReady(q, batch.hashes)
        decreases |queue|, c.Some?
      {
        ghost var before, i :|
          && Sifted(Applied(), batch.changes, before, known)
          && 0 <= i < |before| && c.value == before[i] && IsCausallyReady(c.value, batch.hashes)
          && queue == SwapRemove(before, i);
        ReadyInGraph(c.value, batch.hashes);
        SiftPop(Applied(), batch.changes, before, known, i);
        FreshInBatch(Applied(), batch.changes, before, known, i);
        batch.Push(c.value);
        c := PopNextCausallyReady(batch.hashes);
      }
      forall q | q in queue
        ensures !Ready(q, Applied() + Elements(batch.changes))
      {
        ReadyInGraph(q, batch.hashes);
      }
    }

    /** Makes a batch of the incoming changes and of those in the queue that
        become ready.  A number that is taken is an error, at the first such
        change, and then the queue is left alone. */
    method GatherBatch(cs: seq<Change>, batch: BatchApply) returns (r: Result<(), ApplyError>, ghost n: nat)
      requires SoundGraph() && batch.Valid() && batch.changes == []
      requires Sifted(Applied(), [], queue, Known())
      modifies `queue, batch
      ensures n <= |cs| && Sifted(Applied(), batch.changes, queue, old(Known()) + Elements(cs[..n]))
      ensures BatchOf(Applied(), batch.changes, old(Known()) + Elements(cs))
      ensures r.Ok? <==> NumbersFit(old(Known()) + Elements(cs))
      ensures r.Ok? ==> n == |cs| && Applied() + Elements(batch.changes) == ClosedCore(old(Known()) + Elements(cs[..n]))
      ensures r.Err? ==>
        n < |cs| && r.error == DuplicateSeqNumber(cs[n].seqNum, cs[n].actor) && Taken(old(Known()) + Elements(cs[..n]), cs[n])
      ensures Accepted(Applied(), Elements(old(queue)), cs[..n]) <= batch.changes
      ensures r.Err? ==> batch.changes == Accepted(Applied(), Elements(old(queue)), cs[..n])
    {
      ghost var before := Known();
      r, n := SiftChanges(cs, batch);
      if r.Ok? {
        DrainQueue(batch, before + Elements(cs[..n]));
      }
      AppliedIsClosed();
      BatchApplied(Applied(), batch.changes, queue, before + Elements(cs[..n]), r.Ok?);
      BatchMade(Applied(), batch.changes, queue, before, cs, n, r.Ok?);
    }

    /** Makes table entries for the actors whose first changes are in the batch. */
    method InsertNewActors(changes: seq<Change>)
      requires SoundGraph()
      modifies `actors, `actor, graph`nodes, graph`clockCache
      ensures SoundGraph() && GetActor() == old(GetActor()) && graph.nodes.hashes == old(graph.nodes.hashes)
      ensures forall id :: id in actors <==> id in old(actors) || exists c :: c in changes && c.seqNum == 1 && c.actor == id
    {
      for k := 0 to |changes|
        invariant SoundGraph() && GetActor() == old(GetActor()) && graph.nodes.hashes == old(graph.nodes.hashes)
        invariant forall id :: id in actors <==> id in old(actors) || exists j :: 0 <= j < k && changes[j].seqNum == 1 && changes[j].actor == id
      {
        if changes[k].seqNum == 1 {
          ghost var table := actors;
          var index := PutActor(changes[k].actor);
          if changes[k].actor !in table {
            InsertedElements(table, index, changes[k].actor);
          }
        }
      }
    }

    /** Applies a batch in order; a change that does not follow what is there
        makes the program panic. */
    method ImportOps(changes: seq<Change>, ghost known: set<Change>) returns (ok: bool)
      requires SoundGraph() && Sifted(Applied(), changes, queue, known)
      requires forall c :: c in changes && c.seqNum == 1 ==> c.actor in actors
      modifies `deps, `maxOp, graph
      ensures ok <==> Continues(old(Applied()), changes)
      ensures ok ==> SoundGraph() && graph.nodes.hashes == old(graph.nodes.hashes) + changes
      ensures ok && old(Tight()) ==> Tight()
    {
      ghost var base, hashes := Applied(), graph.nodes.hashes;
      PrefixStep(hashes, changes, 0);
      for k := 0 to |changes|
        invariant SoundGraph() && graph.nodes.hashes == hashes + changes[..k] && (old(Tight()) ==> Tight())
        invariant forall j :: 0 <= j < k ==> Follows(changes[j], base + Elements(changes[..j]))
      {
        ElementsOfConcat(hashes, changes[..k]);
        NextOfBatch(graph.nodes, actors, base, changes, queue, known, k);
        HighestAppended(hashes + changes[..k], changes[k]);
        var added := UpdateHistory(changes[k]);
        if !added {
          return false;
        }
        PrefixStep(hashes, changes, k);
      }
      ok := true;
    }

    /** Applies a batch, with table entries for its actors. */
    method ApplyBatch(changes: seq<Change>, ghost known: set<Change>) returns (ok: bool)
      requires SoundGraph() && Sifted(Applied(), changes, queue, known)
      modifies `deps, `maxOp, `actors, `actor, graph
      ensures ok <==> Continues(old(Applied()), changes)
      ensures ok ==> SoundGraph() && AllUsed(graph.nodes) && GetActor() == old(GetActor())
      ensures ok ==> graph.nodes.hashes == old(graph.nodes.hashes) + changes && (old(Tight()) ==> Tight())
    {
      InsertNewActors(changes);
      ok := ImportOps(changes, known);
      if ok {
        RemoveUnusedActors();
      }
    }

    /** Takes in changes in any order.  What is known already is skipped; what is
        not ready waits.  A number that is taken is an error, at the first such
        change.  The program panics exactly if a change in the batch it makes
        does not follow what is applied before it; that never happens when every
        change builds on its actor's previous one. */
    method ApplyChanges(cs: seq<Change>) returns (r: Result<(), ApplyError>, ghost n: nat, ghost batch: seq<Change>)
      requires Sound()
      modifies this, graph
      ensures BatchOf(old(Applied()), batch, old(Known()) + Elements(cs))
      ensures r == Err(AssertionFailed) <==> !Continues(old(Applied()), batch)
      ensures r != Err(AssertionFailed) ==>
        && Sound() && GetActor() == old(GetActor()) && graph.nodes.hashes == old(graph.nodes.hashes) + batch
        && (old(Tight()) ==> Tight())
        && n <= |cs| && Known() == old(Known()) + Elements(cs[..n])
        && (r.Ok? <==> NumbersFit(old(Known()) + Elements(cs)))
      ensures r.Ok? ==> n == |cs| && Applied() == ClosedCore(Known())
      ensures r.Err? && r.error != AssertionFailed ==>
        n < |cs| && r.error == DuplicateSeqNumber(cs[n].seqNum, cs[n].actor) && Taken(Known(), cs[n])
      ensures n <= |cs| && Accepted(old(Applied()), Elements(old(queue)), cs[..n]) <= batch
      ensures r.Err? && r.error != AssertionFailed ==> batch == Accepted(old(Applied()), Elements(old(queue)), cs[..n])
      ensures old(AllNumbered(Known())) && AllNumbered(Elements(cs)) ==> r != Err(AssertionFailed) && Valid()
    {
      ghost var applied, before := Applied(), Known();
      AppliedIsClosed();
      var taken := new BatchApply();
      r, n := GatherBatch(cs, taken);
      batch := taken.changes;
      ghost var known := before + Elements(cs[..n]);
      BatchNumbered(applied, batch, queue, before, cs, n);
      BatchApplied(applied, batch, queue, known, false);
      var ok := ApplyBatch(taken.changes, known);
      if !ok {
        return Err(AssertionFailed), n, batch;
      }
      ElementsOfConcat(old(graph.nodes.hashes), batch);
    }

    method GetHeads() returns (heads: seq<Change>)
      ensures Elements(heads) == deps && NoRepeats(heads)
    {
      heads := ToVec(deps);
    }

    /** What neither document nor queue holds, of some heads and of the
        dependencies of queued changes. */
    method GetMissingDeps(heads: seq<Change>) returns (missing: set<Change>)
      requires Sound()
      ensures missing == Elements(heads) + DepsOf(queue) - Known()
    {
      InGraph(graph.nodes);
      missing := {};
      for k := 0 to |queue|
        invariant missing == DepsOf(queue[..k]) - Applied()
      {
        PrefixStep([], queue, k);
        DepsOfAppend(queue[..k], queue[k]);
        var added := MissingOf(queue[k].deps);
        missing := missing + added;
      }
      PrefixStep([], queue, 0);
      var more := MissingOf(heads);
      missing := missing + more;
      missing := set c | c in missing && c !in queue;
    }

    method MissingOf(cs: seq<Change>) returns (missing: set<Change>)
      requires graph.Valid()
      ensures missing == Elements(cs) - Applied()
    {
      InGraph(graph.nodes);
      missing := {};
      for k := 0 to |cs|
        invariant missing == Elements(cs[..k]) - Applied()
      {
        PrefixStep([], cs, k);
        ElementsOfAppend(cs[..k], cs[k]);
        if !HasChange(cs[k]) {
          missing := missing + {cs[k]};
        }
      }
      PrefixStep([], cs, 0);
    }

    /** Everything that the clock of some heads does not cover, each change once:
        what the heads have not seen, if every change builds on its actor's
        previous one. */
    method GetChanges(haveDeps: set<Change>) returns (hashes: seq<Change>)
      requires SoundGraph()
      ensures hashes == Without(graph.nodes.hashes, Covered(graph.nodes, AncestorsOf(haveDeps * Applied())))
      ensures Elements(hashes) == Applied() - Covered(graph.nodes, AncestorsOf(haveDeps * Applied())) && NoRepeats(hashes)
      ensures AllNumbered(Applied()) ==> Elements(hashes) == Applied() - AncestorsOf(haveDeps * Applied())
    {
      var have := ToVec(haveDeps);
      hashes := graph.GetHashes(have);
      ghost var seen := AncestorsOf(haveDeps * Applied());
      WithoutElements(graph.nodes.hashes, Covered(graph.nodes, seen));
      HashesNoRepeats(graph.nodes);
      WithoutNoRepeats(graph.nodes.hashes, Covered(graph.nodes, seen));
      if AllNumbered(Applied()) {
        ChainsInGraph(graph.nodes, actors);
        WithoutElements(graph.nodes.hashes, seen);
      }
    }

    /** The changes of another document that this one has not applied, each
        once. */
    method GetChangesAdded(other: Automerge) returns (added: seq<Change>)
      requires SoundGraph() && other.SoundGraph()
      ensures NoRepeats(added) && Elements(added) == other.Applied() - Applied()
    {
      var stack := other.GetHeads();
      var found := SearchAdded(graph.nodes, other.graph.nodes, stack);
      added := Reversed(found);
      ReversedSame(found);
    }

    /** Takes in what another document has applied. */
    method Merge(other: Automerge) returns (r: Result<set<Change>, ApplyError>, ghost batch: seq<Change>)
      requires Sound() && other.Sound() && other != this && other.graph != graph
      modifies this, graph
      ensures BatchOf(old(Applied()), batch, old(Known()) + other.Applied())
      ensures r == Err(AssertionFailed) <==> !Continues(old(Applied()), batch)
      ensures r != Err(AssertionFailed) ==>
        && Sound() && GetActor() == old(GetActor()) && graph.nodes.hashes == old(graph.nodes.hashes) + batch
        && (old(Tight()) ==> Tight())
        && (r.Ok? <==> NumbersFit(old(Known()) + other.Applied()))
      ensures r.Ok? ==> r.value == Heads(Applied())
      ensures r.Ok? ==> Known() == old(Known()) + other.Applied() && Applied() == ClosedCore(Known())
      ensures old(AllNumbered(Known())) && AllNumbered(other.Applied()) ==> r != Err(AssertionFailed) && Valid()
    {
      var added := GetChangesAdded(other);
      assert old(Known()) + Elements(added) == old(Known()) + other.Applied();
      var applied;
      ghost var n;
      applied, n, batch := ApplyChanges(added);
      assert applied.Ok? ==> added[..n] == added;
      match applied {
        case Ok(_) => r := Ok(deps);
        case Err(e) => r := Err(e);
      }
    }

    // Local transactions.

    method GetIsolatedActorIndex(level: nat) returns (index: nat)
      requires SoundGraph()
      modifies `actors, `actor, graph`nodes, graph`clockCache
      ensures SoundGraph() && GetActor() == old(GetActor()) && graph.nodes.hashes == old(graph.nodes.hashes)
      ensures index < |actors| && actors[index] == AtLevel(GetActor(), level)
      ensures AllUsed(old(graph.nodes)) ==> AllUsedBut(graph.nodes, index)
    {
      if level == 0 {
        index := GetOrCreateActorIndex();
      } else {
        index := PutActor(WithConcurrency(GetActor(), level));
      }
    }

    /** The actor of a concurrency level, the clock of the heads, and whether the
        heads have seen all changes of the actor. */
    method TryLevel(level: nat, heads: seq<Change>, ghost changes: set<Change>, ghost seen: set<Change>)
      returns (index: nat, clock: seq<nat>, free: bool)
      requires SoundGraph() && AllUsed(graph.nodes)
      requires changes == Applied() && seen == AncestorsOf(Elements(heads) * changes)
      modifies `actors, `actor, graph`nodes, graph`clockCache
      ensures SoundGraph() && GetActor() == old(GetActor()) && graph.nodes.hashes == old(graph.nodes.hashes)
      ensures index < |actors| == |clock| && actors[index] == AtLevel(GetActor(), level) && AllUsedBut(graph.nodes, index)
      ensures Orderly(changes) ==> (free <==> SeenAllOf(AtLevel(GetActor(), level), changes, seen))
      ensures !free ==> AllUsed(graph.nodes) && AtLevel(GetActor(), level) in ActorsOf(changes)
      ensures IsOpClock(graph.nodes, clock, seen)
    {
      index := GetIsolatedActorIndex(level);
      ghost var seqClock;
      clock, seqClock := graph.ClockForHeads(heads);
      var maxOp := graph.MaxOpForActor(index);
      LastByIndex(graph.nodes, index);
      free := maxOp == 0 || clock[index] >= maxOp;
      LevelCheck(graph.nodes, actors, index, clock, seqClock, heads);
    }

    /** Picks an actor for work on an earlier state of the document: the first,
        among the document's actor and its concurrency levels, whose changes the
        heads have all seen. */
    method IsolateActor(heads: seq<Change>, ghost changes: set<Change>, ghost seen: set<Change>) returns (isolation: Isolation, ghost level: nat)
      requires SoundGraph() && AllUsed(graph.nodes)
      requires changes == Applied() && seen == AncestorsOf(Elements(heads) * changes)
      modifies `actors, `actor, graph`nodes, graph`clockCache
      ensures SoundGraph() && GetActor() == old(GetActor()) && graph.nodes.hashes == old(graph.nodes.hashes)
      ensures isolation.actorIndex < |actors| == |isolation.clock| && AllUsedBut(graph.nodes, isolation.actorIndex)
      ensures IsScope(actors, isolation.clock, isolation.actorIndex, seen)
      ensures isolation.seqNum == |graph.nodes.seqIndex[isolation.actorIndex]| + 1
      ensures actors[isolation.actorIndex] == AtLevel(GetActor(), level)
      ensures Orderly(changes) ==>
        SeenAllOf(actors[isolation.actorIndex], changes, seen) && BusyBelow(GetActor(), level, changes, seen)
    {
      var index: nat, clock: seq<nat>;
      index, clock, level := FindFree(0, heads, GetActor(), changes, seen);
      ChangesClosed(graph.nodes, Elements(heads));
      ScopeOf(graph.nodes, actors, clock, index, seen);
      clock := clock[index := U32_MAX];
      isolation := Isolation(index, |graph.nodes.seqIndex[index]| + 1, clock);
    }

    /** The actor of the level is in the table, the clock is that of what was seen,
        and that includes all changes of this actor, but not of one at a lower
        level. */
    ghost predicate IsFree(index: nat, clock: seq<nat>, level: nat, changes: set<Change>, seen: set<Change>)
      reads this, graph
    {
      && SoundGraph() && index < |actors| == |clock| && actors[index] == AtLevel(GetActor(), level)
      && AllUsedBut(graph.nodes, index) && IsOpClock(graph.nodes, clock, seen)
      && (Orderly(changes) ==> SeenAllOf(AtLevel(GetActor(), level), changes, seen) && BusyBelow(GetActor(), level, changes, seen))
    }

    /** The search for a free actor from level i on, one level at a time. */
    method FindFree(i: nat, heads: seq<Change>, ghost id: ActorId, ghost changes: set<Change>, ghost seen: set<Change>)
      returns (index: nat, clock: seq<nat>, ghost level: nat)
      requires SoundGraph() && AllUsed(graph.nodes) && id == GetActor()
      requires changes == Applied() && seen == AncestorsOf(Elements(heads) * changes)
      requires Orderly(changes) ==> BusyBelow(id, i, changes, seen)
      modifies `actors, `actor, graph`nodes, graph`clockCache
      ensures IsFree(index, clock, level, changes, seen) && GetActor() == id && graph.nodes.hashes == old(graph.nodes.hashes)
      decreases ActorsOf(changes) - Tried(id, i)
    {
      level := i;
      var free;
      index, clock, free := TryNext(i, heads, id, changes, seen);
      if !free {
        OneMoreTried(changes, id, i);
        index, clock, level := FindFree(i + 1, heads, id, changes, seen);
      }
    }

    /** One level of the search. */
    method TryNext(i: nat, heads: seq<Change>, ghost id: ActorId, ghost changes: set<Change>, ghost seen: set<Change>)
      returns (index: nat, clock: seq<nat>, free: bool)
      requires SoundGraph() && AllUsed(graph.nodes) && id == GetActor()
      requires changes == Applied() && seen == AncestorsOf(Elements(heads) * changes)
      requires Orderly(changes) ==> BusyBelow(id, i, changes, seen)
      modifies `actors, `actor, graph`nodes, graph`clockCache
      ensures SoundGraph() && GetActor() == id && graph.nodes.hashes == old(graph.nodes.hashes)
      ensures free ==> IsFree(index, clock, i, changes, seen)
      ensures !free ==> AllUsed(graph.nodes) && AtLevel(id, i) in ActorsOf(changes) && (Orderly(changes) ==> BusyBelow(id, i + 1, changes, seen))
    {
      index, clock, free := TryLevel(i, heads, changes, seen);
    }

    /** The graph side of a running transaction. */
    ghost predicate Open(args: TransactionArgs)
      reads this, graph
    {
      && SoundGraph() && args.actorIndex < |actors| && AllUsedBut(graph.nodes, args.actorIndex)
      && args.seqNum == |graph.nodes.seqIndex[args.actorIndex]| + 1
      && args.startOp == maxOp + 1
    }

    /** What a new transaction starts from: the actor, its next number, and
        dependencies that include the actor's last change, or have it below
        them. */
    method GetTransactionArgs(heads: Option<seq<Change>>) returns (args: TransactionArgs, ghost level: nat)
      requires SoundGraph() && AllUsed(graph.nodes)
      modifies `actors, `actor, graph`nodes, graph`clockCache
      ensures Open(args) && GetActor() == old(GetActor()) && graph.nodes.hashes == old(graph.nodes.hashes)
      ensures actors[args.actorIndex] == AtLevel(GetActor(), level)
      ensures heads.None? ==> level == 0 && Heads(Applied()) <= Elements(args.deps) <= Applied()
      ensures heads.Some? ==> args.deps == heads.value
      ensures args.scope.Some? <==> heads.Some?
      ensures heads.Some? ==> IsScope(actors, args.scope.value, args.actorIndex, AncestorsOf(Elements(heads.value) * Applied()))
      ensures heads.Some? && Orderly(Applied()) ==>
        BusyBelow(GetActor(), level, Applied(), AncestorsOf(Elements(args.deps) * Applied()))
      ensures heads.None? || Orderly(Applied()) ==>
        SeenAllOf(actors[args.actorIndex], Applied(), AncestorsOf(Elements(args.deps) * Applied()))
    {
      match heads {
        case Some(hs) =>
          var isolation;
          isolation, level := IsolateActor(hs, Applied(), AncestorsOf(Elements(hs) * Applied()));
          args := TransactionArgs(isolation.actorIndex, isolation.seqNum, maxOp + 1, hs, Some(isolation.clock));
        case None =>
          level := 0;
          args := GetCurrentArgs();
      }
    }

    method GetCurrentArgs() returns (args: TransactionArgs)
      requires SoundGraph() && AllUsed(graph.nodes)
      modifies `actors, `actor, graph`nodes, graph`clockCache
      ensures Open(args) && GetActor() == old(GetActor()) && graph.nodes.hashes == old(graph.nodes.hashes)
      ensures actors[args.actorIndex] == GetActor()
      ensures Heads(Applied()) <= Elements(args.deps) <= Applied() && NoRepeats(args.deps) && args.scope.None?
      ensures args.seqNum >= 1 && Elements(args.deps) == Heads(Applied()) + WithNumber(Applied(), GetActor(), args.seqNum - 1)
      ensures AncestorsOf(Elements(args.deps) * Applied()) == Applied()
    {
      var headList := GetHeads();
      var index := GetOrCreateActorIndex();
      var seqNum := |graph.nodes.seqIndex[index]| + 1;
      var depList := WithLast(headList, index, seqNum);
      HeadsSeeAll(graph.nodes, Elements(headList), Elements(depList));
      args := TransactionArgs(index, seqNum, maxOp + 1, depList, None);
    }

    /** The heads, and the last change of the actor if they do not have it. */
    method WithLast(heads: seq<Change>, index: nat, seqNum: nat) returns (r: seq<Change>)
      requires SoundGraph() && index < |actors| && seqNum == |graph.nodes.seqIndex[index]| + 1
      ensures Elements(r) == Elements(heads) + WithNumber(Applied(), actors[index], seqNum - 1)
      ensures Elements(heads) <= Applied() ==> Elements(r) <= Applied()
      ensures NoRepeats(heads) ==> NoRepeats(r)
    {
      OnlyLast(graph.nodes, actors, index);
      r := heads;
      if seqNum > 1 {
        var lastHash := GetHash(index, seqNum - 1);
        r := WithDep(heads, lastHash);
      }
    }

    method GetHash(index: nat, seqNum: nat) returns (c: Change)
      requires SoundGraph() && index < |actors| && 1 <= seqNum <= |graph.nodes.seqIndex[index]|
      ensures c in Applied() && c.actor == actors[index] && c.seqNum == seqNum
    {
      ghost var d := AtSeq(graph.nodes, actors, index, seqNum);
      c := graph.nodes.hashes[graph.nodes.seqIndex[index][seqNum - 1]];
    }

    /** Ends a transaction with the given number of operations.  Without any, an
        actor that was added for it is removed again. */
    method Commit(args: TransactionArgs, pendingOps: nat, digest: Digest, content: nat) returns (r: Option<Change>)
      requires Open(args)
      modifies `deps, `maxOp, `actors, `actor, graph
      ensures SoundGraph() && AllUsed(graph.nodes) && GetActor() == old(GetActor())
      ensures pendingOps == 0 <==> r.None?
      ensures r.None? ==> graph.nodes.hashes == old(graph.nodes.hashes) && maxOp == old(maxOp)
      ensures r.Some? ==>
        && graph.nodes.hashes == old(graph.nodes.hashes) + [r.value]
        && r.value.actor == old(actors)[args.actorIndex] && r.value.seqNum == args.seqNum
        && r.value.maxOp == old(maxOp) + pendingOps == maxOp
        && Elements(r.value.deps) == Elements(args.deps) * old(Applied())
        && HasOps(r.value) && (old(Tight()) ==> Tight())
      ensures r.Some? && SeenAllOf(r.value.actor, old(Applied()), AncestorsOf(Elements(args.deps) * old(Applied()))) ==> Numbered(r.value)
    {
      if pendingOps == 0 {
        if args.seqNum == 1 {
          RemoveActor(args.actorIndex);
        }
        r := None;
      } else {
        var change := AddLocal(args, pendingOps, digest, content);
        r := Some(change);
      }
      RemoveUnusedActors();
    }

    /** Makes a change of pending operations, and applies it. */
    method AddLocal(args: TransactionArgs, pendingOps: nat, digest: Digest, content: nat) returns (change: Change)
      requires Open(args) && pendingOps > 0
      modifies `deps, `maxOp, graph
      ensures SoundGraph() && graph.nodes.hashes == old(graph.nodes.hashes) + [change]
      ensures change.digest == digest && change.content == content
      ensures change.actor == actors[args.actorIndex] && change.seqNum == args.seqNum
      ensures change.maxOp == old(maxOp) + pendingOps == maxOp
      ensures Elements(change.deps) == Elements(args.deps) * old(Applied())
      ensures HasOps(change) && (old(Tight()) ==> Tight())
      ensures SeenAllOf(change.actor, old(Applied()), AncestorsOf(Elements(args.deps) * old(Applied()))) ==> Numbered(change)
    {
      var deps := Present(graph.nodes, args.deps);
      change := Change(digest, actors[args.actorIndex], args.seqNum, args.startOp + pendingOps - 1, content, deps);
      NewChangeFits(graph.nodes, actors, args.actorIndex, maxOp, change);
      HighestAppended(graph.nodes.hashes, change);
      var added := UpdateHistory(change);
    }

    /** A local change leaves the queue as it should be, unless its number is
        waiting there. */
    lemma AfterLocal(applied: set<Change>, waiting: seq<Change>, c: Change)
      requires SoundGraph() && AllUsed(graph.nodes) && queue == waiting
      requires Sifted(applied, [], waiting, applied + Elements(waiting)) && Applied() == applied + {c} && c !in applied
      requires !HasSeq(waiting, c.actor, c.seqNum) && c.seqNum >= 1
      ensures Sound() && (AllNumbered(applied + Elements(waiting)) && Numbered(c) ==> Valid())
    {
      GraphHasNoTwins(graph.nodes, actors);
      QueueAfterLocal(applied, waiting, c, Applied());
    }

    /** A transaction from start to end, as far as the graph goes. */
    method RunTransaction(heads: Option<seq<Change>>, pendingOps: nat, digest: Digest, content: nat) returns (r: Option<Change>)
      requires SoundGraph() && AllUsed(graph.nodes)
      modifies `deps, `maxOp, `actors, `actor, graph
      ensures SoundGraph() && AllUsed(graph.nodes) && GetActor() == old(GetActor())
      ensures r.None? <==> pendingOps == 0
      ensures r.None? ==> graph.nodes.hashes == old(graph.nodes.hashes)
      ensures r.Some? ==> graph.nodes.hashes == old(graph.nodes.hashes) + [r.value] && r.value !in old(Applied())
      ensures r.Some? ==> HasOps(r.value) && r.value.seqNum >= 1
      ensures r.Some? && (heads.None? || old(Orderly(Applied()))) ==>
        SeenAllOf(r.value.actor, old(Applied()) + {r.value}, Ancestors(r.value)) && Numbered(r.value)
      ensures r.Some? && heads.None? ==> Heads(old(Applied()) + {r.value}) == {r.value} && r.value.actor == GetActor()
      ensures r.Some? && heads.Some? ==> Elements(r.value.deps) == Elements(heads.value) * old(Applied())
      ensures old(Tight()) ==> Tight() && (r.Some? ==> r.value.maxOp == old(HighestOp(graph.nodes.hashes)) + pendingOps)
    {
      var args, level := GetTransactionArgs(heads);
      ghost var g, table := graph.nodes, actors;
      ChangesClosed(g, Elements(args.deps));
      r := Commit(args, pendingOps, digest, content);
      if r.Some? {
        NextInIndex(g, table, r.value, args.actorIndex);
        LocalChange(g, r.value);
      }
    }

    /** A local transaction, on the current state or isolated at some heads.  On
        the current state the new change descends from all others.  Isolated it
        descends from all of its actor, in a history in which every change holds an
        operation and builds on its actor's previous one. */
    method Transact(heads: Option<seq<Change>>, pendingOps: nat, digest: Digest, content: nat) returns (r: Option<Change>)
      requires Sound()
      modifies `deps, `maxOp, `actors, `actor, graph
      ensures SoundGraph() && AllUsed(graph.nodes) && GetActor() == old(GetActor())
      ensures r.None? <==> pendingOps == 0
      ensures r.None? ==> graph.nodes.hashes == old(graph.nodes.hashes)
      ensures r.Some? ==> graph.nodes.hashes == old(graph.nodes.hashes) + [r.value] && HasOps(r.value)
      ensures r.Some? && (heads.None? || old(Orderly(Applied()))) ==>
        SeenAllOf(r.value.actor, Applied(), Ancestors(r.value)) && Numbered(r.value)
      ensures r.Some? && heads.None? ==> Heads(Applied()) == {r.value} && r.value.actor == GetActor()
      ensures r.Some? && heads.Some? ==> Elements(r.value.deps) == Elements(heads.value) * old(Applied())
      ensures old(Tight()) ==> Tight() && (r.Some? ==> r.value.maxOp == old(HighestOp(graph.nodes.hashes)) + pendingOps)
      ensures old(AllNumbered(Applied())) && (heads.None? || old(AllHaveOps(Applied()))) ==> ValidGraph() && ActorChains(Applied())
      ensures (r.Some? ==> !HasSeq(queue, r.value.actor, r.value.seqNum)) ==>
        Sound() && (old(Valid()) && (heads.None? || old(AllHaveOps(Applied()))) ==> Valid())
    {
      ghost var hashes, applied, waiting := graph.nodes.hashes, Applied(), queue;
      r := RunTransaction(heads, pendingOps, digest, content);
      if r.Some? {
        ElementsOfAppend(hashes, r.value);
        if !HasSeq(queue, r.value.actor, r.value.seqNum) {
          AfterLocal(applied, waiting, r.value);
        }
      }
      if AllNumbered(Applied()) {
        ChainsInGraph(graph.nodes, actors);
      }
    }
  }
}
