/**
What a document expects of the changes it is given, and what follows for its
graph: every change but an actor's first builds on that actor's previous one,
and no actor uses a sequence number twice.
*/
module Histories {
  import opened Wrappers
  import opened Dag
  import opened ChangeGraphs
  import opened Actors

  ghost predicate Precedes(p: Change, c: Change) {
    p in Ancestors(c) && p.actor == c.actor && p.seqNum + 1 == c.seqNum
  }

  /** The first change of its actor, or one that builds on the one before. */
  ghost predicate Numbered(c: Change) {
    c.seqNum >= 1 && (c.seqNum > 1 ==> exists p :: Precedes(p, c))
  }

  ghost predicate AllNumbered(s: set<Change>) {
    forall c :: c in s ==> Numbered(c)
  }

  /** Sequence numbers start from 1. */
  ghost predicate AllCounted(s: set<Change>) {
    forall c :: c in s ==> c.seqNum >= 1
  }

  predicate Twins(c: Change, d: Change) {
    c != d && c.actor == d.actor && c.seqNum == d.seqNum
  }

  ghost predicate NoTwins(s: set<Change>) {
    forall c, d :: c in s && d in s ==> !Twins(c, d)
  }

  /** Earlier changes of an actor are ancestors of its later ones. */
  lemma {:induction false} EarlierBelow(s: set<Change>, c: Change, d: Change)
    requires Closed(s) && AllNumbered(s) && NoTwins(s)
    requires c in s && d in s && c.actor == d.actor && c.seqNum <= d.seqNum
    ensures c in Ancestors(d)
    decreases d.seqNum
  {
    if c.seqNum == d.seqNum {
      assert !Twins(c, d);
    } else {
      assert Numbered(c) && Numbered(d);
      var p :| Precedes(p, d);
      AncestorsInClosed(s, d);
      EarlierBelow(s, c, p);
      AncestorsTransitive(c, p, d);
    }
  }

  /** In a numbered history, sequence numbers are unique exactly when each
      actor's changes form a chain. */
  lemma ChainsFromNumbering(s: set<Change>)
    requires Closed(s) && AllNumbered(s)
    ensures NoTwins(s) <==> ActorChains(s)
  {
    if NoTwins(s) {
      forall c, d | c in s && d in s && c.actor == d.actor && c.seqNum <= d.seqNum
        ensures c in Ancestors(d)
      {
        EarlierBelow(s, c, d);
      }
    } else {
      var c, d :| c in s && d in s && Twins(c, d);
      if c in Ancestors(d) && d in Ancestors(c) {
        AncestorsAntisymmetric(c, d);
      }
    }
  }

  // The graph and the actor table.

  /** The table has an entry per actor index, and each node's index leads to the
      actor of its change. */
  ghost predicate TableFits(g: NodeTable, table: seq<ActorId>) {
    && Sorted(table)
    && |table| == |g.seqIndex|
    && |g.actors| == |g.hashes|
    && forall i :: 0 <= i < |g.hashes| ==> g.actors[i] < |table| && table[g.actors[i]] == g.hashes[i].actor
  }

  ghost predicate Fits(g: NodeTable, table: seq<ActorId>) {
    g.ValidNodes() && g.ValidIndex() && TableFits(g, table)
  }

  /** The node of a change, and its place in the index of its actor. */
  lemma Located(g: NodeTable, table: seq<ActorId>, c: Change, a: nat) returns (i: nat)
    requires Fits(g, table) && c in g.Changes() && a < |table| && table[a] == c.actor
    ensures i < |g.hashes| && g.hashes[i] == c && g.actors[i] == a
    ensures 1 <= c.seqNum <= |g.seqIndex[a]| && g.seqIndex[a][c.seqNum - 1] == i
  {
    i :| 0 <= i < |g.hashes| && g.hashes[i] == c;
    SortedDistinct(table, a, g.actors[i]);
  }

  lemma ActorInTable(g: NodeTable, table: seq<ActorId>, c: Change) returns (a: nat)
    requires Fits(g, table) && c in g.Changes()
    ensures a < |table| && table[a] == c.actor
  {
    var i :| 0 <= i < |g.hashes| && g.hashes[i] == c;
    a := g.actors[i];
  }

  /** The change of an actor with a sequence number. */
  lemma AtSeq(g: NodeTable, table: seq<ActorId>, a: nat, n: nat) returns (c: Change)
    requires Fits(g, table) && a < |table| && 1 <= n <= |g.seqIndex[a]|
    ensures g.seqIndex[a][n - 1] < |g.hashes| && c == g.hashes[g.seqIndex[a][n - 1]]
    ensures c in g.Changes() && c.actor == table[a] && c.seqNum == n
  {
    assert g.IndexEntry(g.seqIndex[a][n - 1], a, n - 1);
    c := g.hashes[g.seqIndex[a][n - 1]];
  }

  lemma GraphHasNoTwins(g: NodeTable, table: seq<ActorId>)
    requires Fits(g, table)
    ensures NoTwins(g.Changes())
  {
    forall c, d | c in g.Changes() && d in g.Changes() && c.actor == d.actor && c.seqNum == d.seqNum
      ensures c == d
    {
      var a := ActorInTable(g, table, c);
      var i := Located(g, table, c, a);
      var j := Located(g, table, d, a);
    }
  }

  /** A number within the index of the actor is taken. */
  lemma SeqTaken(g: NodeTable, table: seq<ActorId>, c: Change, a: nat)
    requires Fits(g, table) && a < |table| && table[a] == c.actor && c.seqNum >= 1 && c !in g.Changes()
    ensures c.seqNum <= |g.seqIndex[a]| <==> exists d :: d in g.Changes() && Twins(c, d)
  {
    if c.seqNum <= |g.seqIndex[a]| {
      var d := AtSeq(g, table, a, c.seqNum);
      assert Twins(c, d);
    }
    if d :| d in g.Changes() && Twins(c, d) {
      var i := Located(g, table, d, a);
    }
  }

  lemma NoEntryNoTwin(g: NodeTable, table: seq<ActorId>, c: Change)
    requires Fits(g, table) && c.actor !in table
    ensures forall d :: d in g.Changes() ==> !Twins(c, d)
  {
    forall d | d in g.Changes()
      ensures d.actor in table
    {
      var a := ActorInTable(g, table, d);
    }
  }

  /** The first change of its actor, or the number before is there. */
  ghost predicate Follows(c: Change, s: set<Change>) {
    c.seqNum == 1 || exists p :: p in s && p.actor == c.actor && p.seqNum + 1 == c.seqNum
  }

  /** A change without a twin continues the index of its actor exactly if it
      follows what is in the graph. */
  lemma ContinuesIndex(g: NodeTable, table: seq<ActorId>, c: Change, a: nat)
    requires Fits(g, table) && a < |table| && table[a] == c.actor
    requires c.seqNum >= 1 && c !in g.Changes() && NoTwins(g.Changes() + {c})
    ensures |g.seqIndex[a]| + 1 == c.seqNum <==> Follows(c, g.Changes())
  {
    SeqTaken(g, table, c, a);
    assert forall d :: d in g.Changes() ==> d in g.Changes() + {c} && c in g.Changes() + {c};
    if c.seqNum > 1 {
      if p :| p in g.Changes() && p.actor == c.actor && p.seqNum + 1 == c.seqNum {
        var i := Located(g, table, p, a);
      }
      if |g.seqIndex[a]| + 1 == c.seqNum {
        var p := AtSeq(g, table, a, c.seqNum - 1);
      }
    }
  }

  lemma StrangerFollowsNothing(g: NodeTable, table: seq<ActorId>, c: Change)
    requires Fits(g, table) && c.actor !in table
    ensures Follows(c, g.Changes()) <==> c.seqNum == 1
  {
    if p :| p in g.Changes() && p.actor == c.actor {
      var a := ActorInTable(g, table, p);
    }
  }

  lemma ChainsInGraph(g: NodeTable, table: seq<ActorId>)
    requires Fits(g, table) && AllNumbered(g.Changes())
    ensures ActorChains(g.Changes()) && ChainsHold(g)
  {
    ChangesClosed(g, {});
    GraphHasNoTwins(g, table);
    ChainsFromNumbering(g.Changes());
    forall a, k | 0 <= a < |g.seqIndex| && 0 < k < |g.seqIndex[a]|
      ensures Linked(g, a, k)
    {
      var c := AtSeq(g, table, a, k);
      var d := AtSeq(g, table, a, k + 1);
    }
  }

  /** In the graph of a document, numbering is what makes the chains. */
  lemma ChainsAreNumbered(g: NodeTable, table: seq<ActorId>)
    requires Fits(g, table)
    ensures ChainsHold(g) <==> AllNumbered(g.Changes())
  {
    if ChainsHold(g) {
      forall c | c in g.Changes()
        ensures Numbered(c)
      {
        var i :| 0 <= i < |g.hashes| && g.hashes[i] == c;
        assert g.actors[i] < |g.seqIndex| && 1 <= g.seqs[i] <= |g.seqIndex[g.actors[i]]|;
        if c.seqNum > 1 {
          var p := AtSeq(g, table, g.actors[i], c.seqNum - 1);
          assert Linked(g, g.actors[i], c.seqNum - 1);
          assert Precedes(p, c);
        }
      }
    }
    if AllNumbered(g.Changes()) {
      ChainsInGraph(g, table);
    }
  }

  // Operation counters.

  /** The change holds an operation, later than those of its actor before. */
  ghost predicate HasOps(c: Change) {
    c.maxOp >= 1 && forall p {:trigger p in Ancestors(c)} :: p in Ancestors(c) && p.actor == c.actor && p != c ==> p.maxOp < c.maxOp
  }

  ghost predicate AllHaveOps(s: set<Change>) {
    forall c :: c in s ==> HasOps(c)
  }

  ghost predicate SeenAllOf(id: ActorId, changes: set<Change>, seen: set<Change>) {
    forall c {:trigger c in changes} :: c in changes && c.actor == id ==> c in seen
  }

  /** With operations in every change, counters grow along an actor's index. */
  lemma OpsGrow(g: NodeTable, table: seq<ActorId>, a: nat, m: nat, n: nat)
    requires Fits(g, table) && AllNumbered(g.Changes()) && AllHaveOps(g.Changes())
    requires a < |g.seqIndex| && m < n <= |g.seqIndex[a]|
    ensures OpAt(g, a, m) < OpAt(g, a, n)
  {
    var d := AtSeq(g, table, a, n);
    assert HasOps(d);
    if m > 0 {
      var c := AtSeq(g, table, a, m);
      ChainsInGraph(g, table);
    }
  }

  /** Comparing operation counters tells whether all changes of an actor are
      among those a clock stands for. */
  lemma CoversMeansSeen(g: NodeTable, table: seq<ActorId>, a: nat, clock: SeqClock, seen: set<Change>)
    requires Fits(g, table) && AllNumbered(g.Changes()) && AllHaveOps(g.Changes())
    requires a < |table| && g.IsClock(clock, seen) && Closed(seen)
    ensures var last := OpAt(g, a, |g.seqIndex[a]|);
            last == 0 || OpAt(g, a, clock[a]) >= last <==> SeenAllOf(table[a], g.Changes(), seen)
  {
    var n := |g.seqIndex[a]|;
    ClockWithinIndex(g, clock, seen, a);
    if n > 0 {
      OpsGrow(g, table, a, 0, n);
      var last := AtSeq(g, table, a, n);
      if clock[a] < n {
        OpsGrow(g, table, a, clock[a], n);
      } else {
        var i: nat :| Entry(g.hashes, g.actors, seen, i, a, n);
        forall c | c in g.Changes() && c.actor == table[a]
          ensures c in seen
        {
          var j := Located(g, table, c, a);
          ChainsInGraph(g, table);
          AncestorsInClosed(seen, g.hashes[i]);
        }
      }
    } else {
      forall c | c in g.Changes()
        ensures c.actor != table[a]
      {
        if c.actor == table[a] {
          var j := Located(g, table, c, a);
          assert false;
        }
      }
    }
  }

  /** Without operations in every change the comparison can be fooled: the
      clock at an actor's first change covers an empty second one. */
  lemma EmptyChangeGoesUnseen(digest: Digest, id: ActorId)
    ensures var c := Change(digest, id, 1, 1, 0, []);
            var d := Change(digest, id, 2, 1, 0, [c]);
            var g := NodeTable([Edge(0, None)], [c, d], [0, 0], [None, Some(0)], [1, 2], [1, 1], map[c := 0, d := 1], [[0, 1]]);
            && Fits(g, [id]) && AllNumbered(g.Changes()) && g.IsClock([1], Ancestors(c))
            && OpAt(g, 0, 1) >= OpAt(g, 0, 2) > 0 && !SeenAllOf(id, g.Changes(), Ancestors(c))
  {
    var c := Change(digest, id, 1, 1, 0, []);
    var d := Change(digest, id, 2, 1, 0, [c]);
    var g := NodeTable([Edge(0, None)], [c, d], [0, 0], [None, Some(0)], [1, 2], [1, 1], map[c := 0, d := 1], [[0, 1]]);
    assert Ancestors(c) == {c};
    assert Entry(g.hashes, g.actors, Ancestors(c), 0, 0, 1);
    assert c in d.deps && Precedes(c, d);
    assert d in g.Changes();
  }

  // Changes that wait for their dependencies.

  predicate Ready(c: Change, done: set<Change>) {
    forall d | d in c.deps :: d in done
  }

  /** Each change comes after what it depends on. */
  ghost predicate InOrder(base: set<Change>, batch: seq<Change>) {
    forall i :: 0 <= i < |batch| ==> Ready(batch[i], base + Elements(batch[..i]))
  }

  lemma InOrderExtends(base: set<Change>, batch: seq<Change>, c: Change)
    requires InOrder(base, batch) && Ready(c, base + Elements(batch))
    ensures InOrder(base, batch + [c]) && Elements(batch + [c]) == Elements(batch) + {c}
  {
    var batch' := batch + [c];
    assert batch'[..|batch|] == batch;
    forall i | 0 <= i < |batch|
      ensures Ready(batch'[i], base + Elements(batch'[..i]))
    {
      assert batch'[..i] == batch[..i] && Ready(batch[i], base + Elements(batch[..i]));
    }
  }

  lemma {:induction false} InOrderClosed(base: set<Change>, batch: seq<Change>)
    requires Closed(base) && InOrder(base, batch)
    ensures Closed(base + Elements(batch))
  {
    forall c, d | c in base + Elements(batch) && d in c.deps
      ensures d in base + Elements(batch)
    {
      if c !in base {
        var i :| 0 <= i < |batch| && batch[i] == c;
        assert Ready(batch[i], base + Elements(batch[..i]));
      }
    }
  }

  /** Every change of the batch follows what comes before it. */
  ghost predicate Continues(base: set<Change>, batch: seq<Change>) {
    forall k :: 0 <= k < |batch| ==> Follows(batch[k], base + Elements(batch[..k]))
  }

  /** The number before c is there, or belongs to an ancestor of c. */
  ghost predicate Anchored(base: set<Change>, c: Change) {
    Follows(c, base + Ancestors(c) - {c})
  }

  lemma NumberedIsAnchored(base: set<Change>, c: Change)
    requires Numbered(c)
    ensures Anchored(base, c)
  {
    if c.seqNum > 1 {
      var p :| Precedes(p, c);
      assert p in base + Ancestors(c) - {c};
    }
  }

  /** What is ready has its ancestors before it. */
  lemma AncestorsBefore(base: set<Change>, batch: seq<Change>, k: nat)
    requires Closed(base) && InOrder(base, batch) && k < |batch|
    ensures Ancestors(batch[k]) - {batch[k]} <= base + Elements(batch[..k])
  {
    var prefix := batch[..k];
    forall i | 0 <= i < k
      ensures Ready(prefix[i], base + Elements(prefix[..i]))
    {
      assert prefix[..i] == batch[..i] && Ready(batch[i], base + Elements(batch[..i]));
    }
    InOrderClosed(base, prefix);
    forall a | a in Ancestors(batch[k]) && a != batch[k]
      ensures a in base + Elements(prefix)
    {
      var d :| d in batch[k].deps && a in Ancestors(d);
      assert Ready(batch[k], base + Elements(prefix));
      AncestorsInClosed(base + Elements(prefix), d);
    }
  }

  lemma AnchoredContinues(base: set<Change>, batch: seq<Change>)
    requires Closed(base) && InOrder(base, batch) && forall c :: c in batch ==> Anchored(base, c)
    ensures Continues(base, batch)
  {
    forall k | 0 <= k < |batch|
      ensures Follows(batch[k], base + Elements(batch[..k]))
    {
      AncestorsBefore(base, batch, k);
      assert Anchored(base, batch[k]);
    }
  }

  /** Some order of the changes that are not applied yet. */
  ghost predicate OrderOf(base: set<Change>, s: set<Change>, batch: seq<Change>) {
    InOrder(base, batch) && Elements(batch) == s && |batch| == |s|
  }

  lemma {:induction false} Minimal(s: set<Change>, c: Change) returns (m: Change)
    requires c in s
    ensures m in s && forall d :: d in m.deps ==> d !in s
    decreases c
  {
    if d :| d in c.deps && d in s {
      m := Minimal(s, d);
    } else {
      m := c;
    }
  }

  lemma AppendedInOrder(base: set<Change>, a: seq<Change>, b: seq<Change>)
    requires InOrder(base, a) && InOrder(base + Elements(a), b)
    ensures InOrder(base, a + b)
  {
    forall i | 0 <= i < |a + b|
      ensures Ready((a + b)[i], base + Elements((a + b)[..i]))
    {
      if i < |a| {
        assert (a + b)[..i] == a[..i] && Ready(a[i], base + Elements(a[..i]));
      } else {
        assert (a + b)[..i] == a + b[..i - |a|] && Ready(b[i - |a|], base + Elements(a) + Elements(b[..i - |a|]));
        assert base + Elements(a + b[..i - |a|]) == base + Elements(a) + Elements(b[..i - |a|]);
      }
    }
  }

  lemma Appended(base: set<Change>, s: set<Change>, a: seq<Change>, r: set<Change>, b: seq<Change>)
    requires OrderOf(base, s, a) && OrderOf(base + s, r, b) && s !! r
    ensures OrderOf(base, s + r, a + b)
  {
    AppendedInOrder(base, a, b);
    assert Elements(a + b) == s + r;
  }

  /** A closed history can be applied in some order. */
  lemma {:induction false} SomeOrder(base: set<Change>, s: set<Change>) returns (batch: seq<Change>)
    requires Closed(base + s) && base !! s
    ensures OrderOf(base, s, batch)
    decreases |s|
  {
    if s == {} {
      batch := [];
    } else {
      var c :| c in s;
      var m := Minimal(s, c);
      FirstInOrder(base, s, m);
      var rest := SomeOrder(base + {m}, s - {m});
      Appended(base, {m}, [m], s - {m}, rest);
      assert {m} + (s - {m}) == s;
      batch := [m] + rest;
    }
  }

  lemma FirstInOrder(base: set<Change>, s: set<Change>, m: Change)
    requires Closed(base + s) && m in s && forall d :: d in m.deps ==> d !in s
    ensures OrderOf(base, {m}, [m]) && Closed(base + {m} + (s - {m}))
  {
    assert base + {m} + (s - {m}) == base + s;
    forall d | d in m.deps
      ensures d in base
    {
      assert m in base + s;
    }
    assert [m][..0] == [] && Elements([m]) == {m};
  }

  lemma OrderUpTo(base: set<Change>, s: set<Change>, c: Change) returns (batch: seq<Change>)
    requires Closed(base) && Closed(base + s) && base !! s && c in s
    ensures OrderOf(base, s * Ancestors(c) - {c}, batch)
    ensures OrderOf(base, s * Ancestors(c) - {c} + {c}, batch + [c])
  {
    ClosedBelow(base, s, c);
    ReadyAfterAncestors(base, s, c);
    batch := SomeOrder(base, s * Ancestors(c) - {c});
    assert [c][..0] == [] && Elements([c]) == {c};
    Appended(base, s * Ancestors(c) - {c}, batch, {c}, [c]);
  }

  lemma OrderAfter(base: set<Change>, s: set<Change>, first: set<Change>, a: seq<Change>) returns (batch: seq<Change>)
    requires Closed(base + s) && base !! s && first <= s && OrderOf(base, first, a)
    ensures OrderOf(base, s, batch) && a <= batch
  {
    assert base + first + (s - first) == base + s && first + (s - first) == s;
    var b := SomeOrder(base + first, s - first);
    Appended(base, first, a, s - first, b);
    batch := a + b;
  }

  /** An order that applies nothing but ancestors before c. */
  lemma OrderWithEarly(base: set<Change>, s: set<Change>, c: Change) returns (batch: seq<Change>, k: nat)
    requires Closed(base) && Closed(base + s) && base !! s && c in s
    ensures OrderOf(base, s, batch) && k < |batch| && batch[k] == c
    ensures base + Elements(batch[..k]) == base + Ancestors(c) - {c}
  {
    var before := s * Ancestors(c) - {c};
    SameBefore(base, s, c);
    var a := OrderUpTo(base, s, c);
    batch := OrderAfter(base, s, before + {c}, a + [c]);
    k := |a|;
    TakesPrefix(a, c, batch);
  }

  lemma TakesPrefix(a: seq<Change>, c: Change, batch: seq<Change>)
    requires a + [c] <= batch
    ensures |a| < |batch| && batch[..|a|] == a && batch[|a|] == c
  {
    assert batch[..|a|] == (a + [c])[..|a|];
  }

  lemma SameBefore(base: set<Change>, s: set<Change>, c: Change)
    requires Closed(base + s) && base !! s && c in s
    ensures base + (s * Ancestors(c) - {c}) == base + Ancestors(c) - {c}
  {
    AncestorsInClosed(base + s, c);
  }

  lemma ClosedBelow(base: set<Change>, s: set<Change>, c: Change)
    requires Closed(base) && Closed(base + s) && c in s
    ensures Closed(base + (s * Ancestors(c) - {c}))
  {
    var before := s * Ancestors(c) - {c};
    forall x, d | x in base + before && d in x.deps
      ensures d in base + before
    {
      if x in before {
        assert x in base + s;
        DepIsAncestor(x, d);
        AncestorsTransitive(d, x, c);
        DepIsNotAbove(d, x, c);
      }
    }
  }

  lemma DepIsNotAbove(d: Change, x: Change, c: Change)
    requires d in x.deps && x in Ancestors(c)
    ensures d != c
  {
    DepIsAncestor(x, d);
    if d == c {
      AncestorsAntisymmetric(x, c);
    }
  }

  lemma ReadyAfterAncestors(base: set<Change>, s: set<Change>, c: Change)
    requires Closed(base + s) && c in s
    ensures Ready(c, base + (s * Ancestors(c) - {c}))
  {
    forall d | d in c.deps
      ensures d in base + (s * Ancestors(c) - {c})
    {
      DepIsAncestor(c, d);
      assert c in base + s;
    }
  }

  /** Changes are accepted in every order that respects dependencies if and only
      if each one's predecessor is applied already or an ancestor of it. */
  lemma EveryOrderContinues(base: set<Change>, s: set<Change>)
    requires Closed(base) && Closed(base + s) && base !! s
    ensures (forall batch :: OrderOf(base, s, batch) ==> Continues(base, batch))
            <==> forall c :: c in s ==> Anchored(base, c)
  {
    if forall c :: c in s ==> Anchored(base, c) {
      forall batch | OrderOf(base, s, batch)
        ensures Continues(base, batch)
      {
        assert forall c :: c in batch ==> c in Elements(batch);
        AnchoredContinues(base, batch);
      }
    }
    if forall batch :: OrderOf(base, s, batch) ==> Continues(base, batch) {
      forall c | c in s
        ensures Anchored(base, c)
      {
        var batch, k := OrderWithEarly(base, s, c);
        assert Continues(base, batch);
      }
    }
  }

  /** A change that does not build on its actor's previous one is accepted all
      the same once that one is applied; before it, it is not. */
  lemma UnlinkedIsAccepted(c: Change, d: Change)
    requires c.deps == d.deps == [] && c.actor == d.actor && c.seqNum == 1 && d.seqNum == 2
    ensures !Numbered(d) && InOrder({}, [c, d]) && Continues({}, [c, d])
    ensures InOrder({}, [d, c]) && !Continues({}, [d, c])
  {
    assert Ancestors(d) == {d};
    assert [c, d][..1] == [c] && [d, c][..0] == [];
    assert c in Elements([c, d][..1]);
    assert !Follows([d, c][0], {} + Elements([d, c][..0]));
  }

  lemma {:induction false} StuckBelow(done: set<Change>, queue: set<Change>, c: Change)
    requires forall q :: q in queue ==> !Ready(q, done)
    requires c in ClosedCore(done + queue)
    ensures c in done
    decreases c
  {
    if c !in done {
      assert c in queue && !Ready(c, done);
      var d :| d in c.deps && d !in done;
      DepIsAncestor(c, d);
      assert d in ClosedCore(done + queue);
      StuckBelow(done, queue, d);
    }
  }

  /** Once nothing that waits is ready, all that can be applied is. */
  lemma StuckIsCore(done: set<Change>, queue: set<Change>)
    requires Closed(done) && forall q :: q in queue ==> !Ready(q, done)
    ensures ClosedCore(done + queue) == done
  {
    ClosedCoreIsLargest(done + queue);
    forall c | c in ClosedCore(done + queue)
      ensures c in done
    {
      StuckBelow(done, queue, c);
    }
  }
}
