/**
Saving a document in increments: a full save now and then, and in between only
the changes since the last one.
*/
module Autosave {
  import opened Wrappers
  import opened Dag
  import opened ChangeGraphs
  import opened Histories
  import opened DocumentParts
  import opened Documents

  function Union(sets: seq<set<Change>>): set<Change> {
    if sets == [] then {} else Union(sets[..|sets| - 1]) + sets[|sets| - 1]
  }

  lemma {:induction false} InUnion(sets: seq<set<Change>>, c: Change)
    ensures c in Union(sets) <==> exists i :: 0 <= i < |sets| && c in sets[i]
  {
    if sets != [] {
      var n := |sets| - 1;
      InUnion(sets[..n], c);
      assert forall i :: 0 <= i < n ==> sets[..n][i] == sets[i];
    }
  }

  /** No change is saved twice: not in two increments, and not in an increment
      after the full save. */
  ghost predicate Disjoint(full: set<Change>, increments: seq<set<Change>>) {
    && (forall i :: 0 <= i < |increments| ==> full !! increments[i])
    && (forall i, j :: 0 <= i < j < |increments| ==> increments[i] !! increments[j])
  }

  lemma DisjointMore(full: set<Change>, increments: seq<set<Change>>, added: set<Change>)
    requires Disjoint(full, increments) && added !! full + Union(increments)
    ensures Disjoint(full, increments + [added]) && Union(increments + [added]) == Union(increments) + added
  {
    assert (increments + [added])[..|increments|] == increments;
    forall i | 0 <= i < |increments|
      ensures increments[i] !! added
    {
      forall c | c in increments[i]
        ensures c in Union(increments)
      {
        InUnion(increments, c);
      }
    }
  }

  /** With a change, everything of its actor up to its number is saved. */
  ghost predicate Downward(saved: set<Change>, applied: set<Change>) {
    forall c, d :: c in saved && d in applied && d.actor == c.actor && d.seqNum <= c.seqNum ==> d in saved
  }

  /** What comes later has higher numbers. */
  lemma DownwardStays(g: NodeTable, table: seq<ActorId>, saved: set<Change>, after: set<Change>)
    requires Fits(g, table) && saved <= g.Changes() && Downward(saved, g.Changes())
    requires g.Changes() <= after && NoTwins(after) && AllCounted(after)
    ensures Downward(saved, after)
  {
    forall c, d | c in saved && d in after && d.actor == c.actor && d.seqNum <= c.seqNum
      ensures d in saved
    {
      if d !in g.Changes() {
        var a := ActorInTable(g, table, c);
        var i := Located(g, table, c, a);
        var e := AtSeq(g, table, a, d.seqNum);
        assert e in after && Twins(d, e);
      }
    }
  }

  /** The clock of what was saved covers that and no more. */
  lemma SavedIsCovered(g: NodeTable, table: seq<ActorId>, saved: set<Change>)
    requires Fits(g, table) && saved <= g.Changes() && Downward(saved, g.Changes())
    ensures Covered(g, saved) == saved
  {
    forall i, j | 0 <= i < |g.hashes| && 0 <= j < |g.hashes| && LaterIn(g, saved, i, j)
      ensures g.hashes[i] in saved
    {
      assert g.hashes[i] in g.Changes();
    }
    forall c | c in saved
      ensures c in Covered(g, saved)
    {
      var i :| 0 <= i < |g.hashes| && g.hashes[i] == c;
      assert LaterIn(g, saved, i, i);
    }
  }

  class AutoCommit {
    const doc: Automerge
    var saveCursor: set<Change>
    /** The changes of the last full save, and of each increment since. */
    ghost var full: set<Change>
    ghost var increments: seq<set<Change>>

    /** What the last full save and the increments since then hold, each once, is
        a state the document was in, and the save cursor is its heads. */
    ghost predicate Valid()
      reads this, doc, doc.graph
    {
      && Disjoint(full, increments)
      && Closed(Saved()) && Saved() <= doc.Applied()
      && Downward(Saved(), doc.Applied())
      && saveCursor == Heads(Saved())
    }

    ghost function Saved(): set<Change>
      reads this
    {
      full + Union(increments)
    }

    constructor (doc: Automerge)
      requires doc.Sound()
      ensures Valid() && this.doc == doc && Saved() == {}
    {
      this.doc := doc;
      saveCursor, full, increments := {}, {}, [];
    }

    /** The saves cover exactly the ancestors of the save cursor. */
    lemma SavedIsBelowCursor()
      requires Valid()
      ensures Saved() == AncestorsOf(saveCursor)
    {
      HeadsReachAll(Saved());
    }

    /** Saves everything that was applied, and the queue as orphans. */
    method Save() returns (bytes: set<Change>)
      requires Valid() && doc.Sound()
      modifies this
      ensures Valid() && bytes == doc.Known() && Saved() == doc.Applied() && increments == []
    {
      doc.AppliedIsClosed();
      bytes := Elements(doc.graph.nodes.hashes) + Elements(doc.queue);
      saveCursor := doc.deps;
      full, increments := doc.Applied(), [];
      assert Saved() == doc.Applied();
    }

    /** Saves what was applied since: nothing that was saved before, and all that
        was not, whatever the changes build on. */
    method SaveIncremental() returns (bytes: seq<Change>)
      requires Valid() && doc.Sound()
      modifies this
      ensures Valid() && Saved() == doc.Applied() && full == old(full)
      ensures NoRepeats(bytes) && Elements(bytes) == doc.Applied() - old(Saved())
      ensures increments == if bytes == [] then old(increments) else old(increments) + [Elements(bytes)]
    {
      doc.AppliedIsClosed();
      bytes := ChangesSince(doc, saveCursor, Saved());
      NothingNew(bytes, doc.Applied(), Saved());
      if bytes != [] {
        DisjointMore(full, increments, Elements(bytes));
        saveCursor := doc.deps;
        increments := increments + [Elements(bytes)];
        assert Saved() == doc.Applied();
      }
    }

    /** Changes from elsewhere leave what was saved as it is, unless the program
        panics. */
    method ApplyChanges(cs: seq<Change>) returns (r: Result<(), ApplyError>, ghost batch: seq<Change>)
      requires Valid() && doc.Sound()
      modifies doc, doc.graph
      ensures BatchOf(old(doc.Applied()), batch, old(doc.Known()) + Elements(cs))
      ensures r == Err(AssertionFailed) <==> !Continues(old(doc.Applied()), batch)
      ensures r != Err(AssertionFailed) ==> Valid() && doc.Sound() && doc.Applied() == old(doc.Applied()) + Elements(batch)
      ensures r != Err(AssertionFailed) ==> (r.Ok? <==> NumbersFit(old(doc.Known()) + Elements(cs)))
      ensures old(doc.Valid()) && AllNumbered(Elements(cs)) ==> r != Err(AssertionFailed) && doc.Valid()
    {
      ghost var g, table, n := doc.graph.nodes, doc.actors, 0;
      r, n, batch := doc.ApplyChanges(cs);
      if r != Err(AssertionFailed) {
        ElementsOfConcat(g.hashes, batch);
        DownwardStays(g, table, Saved(), doc.Applied());
      }
    }

    method Merge(other: Automerge) returns (r: Result<set<Change>, ApplyError>, ghost batch: seq<Change>)
      requires Valid() && doc.Sound() && other.Sound() && other != doc && other.graph != doc.graph
      modifies doc, doc.graph
      ensures BatchOf(old(doc.Applied()), batch, old(doc.Known()) + other.Applied())
      ensures r == Err(AssertionFailed) <==> !Continues(old(doc.Applied()), batch)
      ensures r != Err(AssertionFailed) ==> Valid() && doc.Sound() && doc.Applied() == old(doc.Applied()) + Elements(batch)
      ensures r != Err(AssertionFailed) ==> (r.Ok? <==> NumbersFit(old(doc.Known()) + other.Applied()))
      ensures old(doc.Valid()) && AllNumbered(other.Applied()) ==> r != Err(AssertionFailed) && doc.Valid()
    {
      ghost var g, table := doc.graph.nodes, doc.actors;
      r, batch := doc.Merge(other);
      if r != Err(AssertionFailed) {
        ElementsOfConcat(g.hashes, batch);
        DownwardStays(g, table, Saved(), doc.Applied());
      }
    }

    /** So does a local commit, isolated at some heads or not.  It leaves the
        document fit for more unless the queue holds a change with the actor and
        number it took. */
    method Commit(heads: Option<seq<Change>>, pendingOps: nat, digest: Digest, content: nat) returns (r: Option<Change>)
      requires Valid() && doc.Sound()
      modifies doc, doc.graph
      ensures Valid() && doc.Applied() == old(doc.Applied()) + (if r.Some? then {r.value} else {})
      ensures (r.Some? ==> !HasSeq(doc.queue, r.value.actor, r.value.seqNum)) ==> doc.Sound()
    {
      ghost var g, table := doc.graph.nodes, doc.actors;
      r := doc.Transact(heads, pendingOps, digest, content);
      if r.Some? {
        ElementsOfAppend(g.hashes, r.value);
      }
      GraphKeepsDownward(g, table, doc.graph.nodes, doc.actors, Saved());
    }
  }

  lemma GraphKeepsDownward(g: NodeTable, table: seq<ActorId>, g': NodeTable, table': seq<ActorId>, saved: set<Change>)
    requires Fits(g, table) && Fits(g', table') && saved <= g.Changes() <= g'.Changes() && Downward(saved, g.Changes())
    ensures Downward(saved, g'.Changes())
  {
    GraphHasNoTwins(g', table');
    GraphIsCounted(g', table');
    DownwardStays(g, table, saved, g'.Changes());
  }

  lemma GraphIsCounted(g: NodeTable, table: seq<ActorId>)
    requires Fits(g, table)
    ensures AllCounted(g.Changes())
  {
    forall c | c in g.Changes()
      ensures c.seqNum >= 1
    {
      var a := ActorInTable(g, table, c);
      var i := Located(g, table, c, a);
    }
  }

  method ChangesSince(doc: Automerge, cursor: set<Change>, ghost saved: set<Change>) returns (bytes: seq<Change>)
    requires doc.SoundGraph() && Closed(saved) && saved <= doc.Applied() && cursor == Heads(saved)
    requires Downward(saved, doc.Applied())
    ensures NoRepeats(bytes) && Elements(bytes) == doc.Applied() - saved
  {
    bytes := doc.GetChanges(cursor);
    HeadsReachAll(saved);
    assert cursor * doc.Applied() == cursor;
    SavedIsCovered(doc.graph.nodes, doc.actors, saved);
  }

  lemma NothingNew(bytes: seq<Change>, applied: set<Change>, saved: set<Change>)
    requires Elements(bytes) == applied - saved && saved <= applied
    ensures bytes == [] <==> saved == applied
  {
    if bytes != [] {
      assert bytes[0] in Elements(bytes);
    } else {
      assert applied == saved + Elements(bytes);
    }
  }

  /** Loading the last full save and then the increments gives back what the
      cursor stands for, with its heads. */
  lemma LoadedFromSaves(saved: set<Change>, cursor: set<Change>)
    requires Closed(saved) && cursor == Heads(saved)
    ensures ClosedCore(saved) == saved == AncestorsOf(cursor) && Heads(ClosedCore(saved)) == cursor
  {
    HeadsReachAll(saved);
    ClosedCoreIsLargest(saved);
  }
}
