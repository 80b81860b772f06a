/**
The pieces of a document, as values: sorting incoming changes into those that
can be applied and those that wait, the state of the actor table, local
changes, and the search for what another document has.
*/
module DocumentParts {
  import opened Wrappers
  import opened Dag
  import opened ChangeGraphs
  import opened Actors
  import opened Histories

  datatype Actor = Unused(id: ActorId) | Cached(index: nat)

  /** A failed assertion is a panic of the program. */
  datatype ApplyError = DuplicateSeqNumber(seqNum: nat, actor: ActorId) | AssertionFailed

  ghost predicate NoRepeats(s: seq<Change>) {
    forall i, j :: 0 <= i < j < |s| ==> s[i] != s[j]
  }

  /** Takes out one element; the last one fills the gap. */
  function SwapRemove(s: seq<Change>, i: nat): (r: seq<Change>)
    requires i < |s|
    ensures |r| == |s| - 1
  {
    s[i := s[|s| - 1]][..|s| - 1]
  }

  lemma SwapRemoved(s: seq<Change>, i: nat)
    requires i < |s| && NoRepeats(s)
    ensures NoRepeats(SwapRemove(s, i)) && s[i] !in SwapRemove(s, i)
    ensures Elements(SwapRemove(s, i)) == Elements(s) - {s[i]}
  {
    var r, n := SwapRemove(s, i), |s| - 1;
    assert forall k :: 0 <= k < n ==> r[k] == if k == i then s[n] else s[k];
    forall c | c in s && c != s[i]
      ensures c in r
    {
      var k :| 0 <= k <= n && s[k] == c;
      assert r[if k == n then i else k] == c;
    }
  }

  lemma ElementsOfAppend(s: seq<Change>, c: Change)
    ensures Elements(s + [c]) == Elements(s) + {c}
  {
  }

  lemma NoRepeatsAppend(s: seq<Change>, c: Change)
    requires NoRepeats(s) && c !in s
    ensures NoRepeats(s + [c])
  {
  }

  // Sorting incoming changes into those that can be applied and those that wait.

  /** `batch` can be applied in order on top of `applied`; with the queue it
      makes up the changes `known`. */
  ghost predicate Sifted(applied: set<Change>, batch: seq<Change>, queue: seq<Change>, known: set<Change>) {
    && applied + Elements(batch) + Elements(queue) == known
    && NoTwins(known)
    && AllCounted(known)
    && InOrder(applied, batch)
    && NoRepeats(batch)
    && NoRepeats(queue)
    && applied !! Elements(batch) !! Elements(queue)
  }

  lemma NoTwinsAdd(s: set<Change>, c: Change)
    requires NoTwins(s)
    ensures NoTwins(s + {c}) <==> forall d :: d in s ==> !Twins(c, d)
  {
    forall d | d in s
      ensures Twins(c, d) <==> Twins(d, c)
      ensures d in s + {c} && c in s + {c}
    {
    }
  }

  lemma NoTwinsSubset(s: set<Change>, t: set<Change>)
    requires s <= t && NoTwins(t)
    ensures NoTwins(s)
  {
  }

  lemma SiftReady(applied: set<Change>, batch: seq<Change>, queue: seq<Change>, known: set<Change>, c: Change)
    requires Sifted(applied, batch, queue, known) && c !in known
    requires c.seqNum >= 1 && NoTwins(known + {c}) && Ready(c, applied + Elements(batch))
    ensures Sifted(applied, batch + [c], queue, known + {c})
  {
    InOrderExtends(applied, batch, c);
    NoRepeatsAppend(batch, c);
  }

  lemma SiftWaiting(applied: set<Change>, batch: seq<Change>, queue: seq<Change>, known: set<Change>, c: Change)
    requires Sifted(applied, batch, queue, known) && c !in known
    requires c.seqNum >= 1 && NoTwins(known + {c})
    ensures Sifted(applied, batch, queue + [c], known + {c})
  {
    ElementsOfAppend(queue, c);
    NoRepeatsAppend(queue, c);
  }

  lemma SiftPop(applied: set<Change>, batch: seq<Change>, queue: seq<Change>, known: set<Change>, i: nat)
    requires Sifted(applied, batch, queue, known) && i < |queue| && Ready(queue[i], applied + Elements(batch))
    ensures Sifted(applied, batch + [queue[i]], SwapRemove(queue, i), known)
  {
    InOrderExtends(applied, batch, queue[i]);
    SwapRemoved(queue, i);
    NoRepeatsAppend(batch, queue[i]);
  }

  /** Of incoming changes those that have their dependencies when they come, and
      are neither applied nor waiting, each once. */
  ghost function Accepted(applied: set<Change>, waiting: set<Change>, cs: seq<Change>): seq<Change> {
    if cs == [] then [] else
      var init, c := Accepted(applied, waiting, cs[..|cs| - 1]), cs[|cs| - 1];
      if c !in applied + waiting && c !in cs[..|cs| - 1] && Ready(c, applied + Elements(init)) then init + [c] else init
  }

  lemma OneMoreAccepted(applied: set<Change>, waiting: set<Change>, cs: seq<Change>, n: nat)
    requires n < |cs|
    ensures var init := Accepted(applied, waiting, cs[..n]);
            Accepted(applied, waiting, cs[..n + 1]) ==
              if cs[n] !in applied + waiting && cs[n] !in cs[..n] && Ready(cs[n], applied + Elements(init)) then init + [cs[n]] else init
  {
    assert cs[..n + 1][..n] == cs[..n];
  }

  lemma AcceptedLast(applied: set<Change>, waiting: set<Change>, before: seq<Change>, c: Change)
    requires c !in waiting && Ready(c, applied + Elements(before))
    requires applied + Elements(Accepted(applied, waiting, before)) == applied + Elements(before)
    ensures applied + Elements(Accepted(applied, waiting, before + [c])) == applied + Elements(before + [c])
  {
    assert (before + [c])[..|before|] == before;
    ElementsOfAppend(before, c);
    ElementsOfAppend(Accepted(applied, waiting, before), c);
  }

  /** If none waits, and all come after what they depend on, all are accepted. */
  lemma {:induction false} InOrderIsAccepted(applied: set<Change>, waiting: set<Change>, cs: seq<Change>, n: nat)
    requires n <= |cs| && forall i {:trigger cs[i]} :: 0 <= i < n ==> cs[i] !in waiting && Ready(cs[i], applied + Elements(cs[..i]))
    ensures applied + Elements(Accepted(applied, waiting, cs[..n])) == applied + Elements(cs[..n])
  {
    if n > 0 {
      InOrderIsAccepted(applied, waiting, cs, n - 1);
      AcceptedLast(applied, waiting, cs[..n - 1], cs[n - 1]);
      assert cs[..n] == cs[..n - 1] + [cs[n - 1]];
    }
  }

  /** The changes of one call, in the order they will be applied. */
  class BatchApply {
    var changes: seq<Change>
    var hashes: set<Change>
    var actorSeq: map<ActorId, set<nat>>

    ghost predicate Valid()
      reads this
    {
      hashes == Elements(changes) && Records(actorSeq, changes)
    }

    constructor ()
      ensures Valid() && changes == []
    {
      changes, hashes, actorSeq := [], {}, map[];
    }

    predicate HasActorSeq(c: Change)
      reads this
    {
      c.actor in actorSeq && c.seqNum in actorSeq[c.actor]
    }

    method Push(c: Change)
      requires Valid() && !HasActorSeq(c) && c !in hashes
      modifies this
      ensures Valid() && changes == old(changes) + [c]
    {
      RecordActorSeq(c);
      hashes := hashes + {c};
      changes := changes + [c];
    }

    method RecordActorSeq(c: Change)
      requires Records(actorSeq, changes)
      modifies `actorSeq
      ensures Records(actorSeq, changes + [c])
    {
      if c.actor in actorSeq {
        actorSeq := actorSeq[c.actor := actorSeq[c.actor] + {c.seqNum}];
      } else {
        actorSeq := actorSeq[c.actor := {c.seqNum}];
      }
      RecordedOneMore(old(actorSeq), actorSeq, changes, c);
    }
  }

  ghost predicate HasSeq(changes: seq<Change>, a: ActorId, n: nat) {
    exists c :: c in changes && c.actor == a && c.seqNum == n
  }

  /** The sequence numbers of the changes, by actor. */
  ghost predicate Records(actorSeq: map<ActorId, set<nat>>, changes: seq<Change>) {
    forall a, n: nat :: (a in actorSeq && n in actorSeq[a]) <==> HasSeq(changes, a, n)
  }

  lemma RecordedOneMore(m: map<ActorId, set<nat>>, m': map<ActorId, set<nat>>, changes: seq<Change>, c: Change)
    requires Records(m, changes)
    requires m' == m[c.actor := if c.actor in m then m[c.actor] + {c.seqNum} else {c.seqNum}]
    ensures Records(m', changes + [c])
  {
    forall a, n: nat
      ensures HasSeq(changes + [c], a, n) <==> HasSeq(changes, a, n) || (c.actor == a && c.seqNum == n)
    {
      assert c in changes + [c];
      assert forall d :: d in changes + [c] <==> d in changes || d == c;
    }
  }

  // The parts of a document that must fit together.

  ghost predicate ActorFits(actor: Actor, table: seq<ActorId>) {
    actor.Cached? ==> actor.index < |table|
  }

  function ActorIdOf(actor: Actor, table: seq<ActorId>): ActorId
    requires ActorFits(actor, table)
  {
    match actor
    case Unused(id) => id
    case Cached(index) => table[index]
  }

  function Rewritten(actor: Actor, index: nat): Actor {
    if actor.Cached? then Cached(WithNewActor(actor.index, index)) else actor
  }

  function Released(actor: Actor, index: nat, table: seq<ActorId>): Actor
    requires index < |table|
  {
    if actor.Cached? then
      if actor.index == index then Unused(table[index]) else Cached(WithoutActor(actor.index, index))
    else
      actor
  }

  ghost predicate Bounds(maxOp: nat, changes: set<Change>) {
    forall c :: c in changes ==> c.maxOp <= maxOp
  }

  /** The highest counter of an operation, 0 if there is none. */
  ghost function HighestOp(cs: seq<Change>): nat {
    if cs == [] then 0 else
      var rest, last := HighestOp(cs[..|cs| - 1]), cs[|cs| - 1].maxOp;
      if rest < last then last else rest
  }

  lemma {:induction false} HighestIsReached(cs: seq<Change>)
    ensures Bounds(HighestOp(cs), Elements(cs))
    ensures HighestOp(cs) == 0 || exists c :: c in cs && c.maxOp == HighestOp(cs)
  {
    if cs != [] {
      var init := cs[..|cs| - 1];
      HighestIsReached(init);
      assert cs == init + [cs[|cs| - 1]];
      ElementsOfAppend(init, cs[|cs| - 1]);
      assert cs[|cs| - 1] in cs && forall c :: c in init ==> c in cs;
    }
  }

  lemma HighestAppended(cs: seq<Change>, c: Change)
    ensures HighestOp(cs + [c]) == if HighestOp(cs) < c.maxOp then c.maxOp else HighestOp(cs)
  {
    assert (cs + [c])[..|cs|] == cs;
  }

  /** The actor itself, or one for work beside it. */
  function AtLevel(id: ActorId, level: nat): ActorId {
    if level == 0 then id else WithConcurrency(id, level)
  }

  lemma LevelsDiffer(id: ActorId, i: nat, j: nat)
    ensures AtLevel(id, i) == AtLevel(id, j) <==> i == j
  {
    ConcurrencyLevelsDiffer(id, i, j);
    ConcurrencyLevelsDiffer(id, j, i);
  }

  /** Every lower level has changes that were not seen. */
  ghost predicate BusyBelow(id: ActorId, level: nat, changes: set<Change>, seen: set<Change>) {
    level == 0 || (BusyBelow(id, level - 1, changes, seen) && !SeenAllOf(AtLevel(id, level - 1), changes, seen))
  }

  lemma {:induction false} BusyBelowMeans(id: ActorId, level: nat, changes: set<Change>, seen: set<Change>)
    ensures BusyBelow(id, level, changes, seen) <==> forall l :: 0 <= l < level ==> !SeenAllOf(AtLevel(id, l), changes, seen)
  {
    if level > 0 {
      BusyBelowMeans(id, level - 1, changes, seen);
    }
  }

  const U32_MAX := 0xFFFF_FFFF

  datatype TransactionArgs = TransactionArgs(actorIndex: nat, seqNum: nat, startOp: nat, deps: seq<Change>, scope: Option<seq<nat>>)

  method WithDep(deps: seq<Change>, c: Change) returns (r: seq<Change>)
    ensures Elements(r) == Elements(deps) + {c} && (NoRepeats(deps) ==> NoRepeats(r))
  {
    r := deps;
    if c !in deps {
      ElementsOfAppend(deps, c);
      if NoRepeats(deps) {
        NoRepeatsAppend(deps, c);
      }
      r := deps + [c];
    }
  }

  lemma HeadsSeeAll(g: NodeTable, heads: set<Change>, deps: set<Change>)
    requires g.ValidNodes() && heads == Heads(g.Changes()) && heads <= deps <= g.Changes()
    ensures AncestorsOf(deps * g.Changes()) == g.Changes()
  {
    ChangesClosed(g, deps);
    HeadsReachAll(g.Changes());
    assert deps * g.Changes() == deps;
  }

  /** The changes with a number that an actor has: one, or none. */
  ghost function WithNumber(changes: set<Change>, id: ActorId, n: nat): set<Change> {
    set c | c in changes && c.actor == id && c.seqNum == n
  }

  lemma OnlyLast(g: NodeTable, table: seq<ActorId>, index: nat)
    requires Fits(g, table) && index < |table|
    ensures var n := |g.seqIndex[index]|;
            if n == 0 then WithNumber(g.Changes(), table[index], n) == {}
            else forall c :: c in g.Changes() && c.actor == table[index] && c.seqNum == n ==> WithNumber(g.Changes(), table[index], n) == {c}
  {
    forall c | c in g.Changes() && c.actor == table[index]
      ensures 1 <= c.seqNum <= |g.seqIndex[index]| && c == g.hashes[g.seqIndex[index][c.seqNum - 1]]
    {
      var i := Located(g, table, c, index);
    }
  }

  /** Those changes that are in the graph, in order. */
  method Present(g: NodeTable, cs: seq<Change>) returns (r: seq<Change>)
    requires g.ValidNodes()
    ensures Elements(r) == Elements(cs) * g.Changes()
  {
    InGraph(g);
    r := [];
    for k := 0 to |cs|
      invariant Elements(r) == Elements(cs[..k]) * g.Changes()
    {
      PrefixStep([], cs, k);
      ElementsOfAppend(cs[..k], cs[k]);
      if cs[k] in g.nodesByHash {
        ElementsOfAppend(r, cs[k]);
        r := r + [cs[k]];
      }
    }
    PrefixStep([], cs, 0);
  }

  /** A local change continues its actor's chain, with later operations. */
  lemma NewChangeFits(g: NodeTable, table: seq<ActorId>, index: nat, maxOp: nat, c: Change)
    requires Fits(g, table) && Bounds(maxOp, g.Changes())
    requires index < |table| && c.actor == table[index] && c.seqNum == |g.seqIndex[index]| + 1 && c.maxOp > maxOp
    requires Elements(c.deps) <= g.Changes()
    ensures c !in g.Changes() && Ready(c, g.Changes()) && HasOps(c)
    ensures NoTwins(g.Changes() + {c}) && Follows(c, g.Changes())
    ensures SeenAllOf(c.actor, g.Changes(), AncestorsOf(Elements(c.deps))) ==> Numbered(c)
  {
    if c in g.Changes() {
      var i := Located(g, table, c, index);
      assert false;
    }
    assert forall d :: d in c.deps ==> d in Elements(c.deps);
    ChangesClosed(g, {});
    AncestorsOfInClosed(g.Changes(), Elements(c.deps));
    AncestorsOfParents(c);
    GraphHasNoTwins(g, table);
    SeqTaken(g, table, c, index);
    NoTwinsAdd(g.Changes(), c);
    if c.seqNum > 1 {
      var p := AtSeq(g, table, index, c.seqNum - 1);
      assert SeenAllOf(c.actor, g.Changes(), AncestorsOf(Elements(c.deps))) ==> Precedes(p, c);
    }
  }

  datatype Isolation = Isolation(actorIndex: nat, seqNum: nat, clock: seq<nat>)

  ghost predicate AllUsedBut(g: NodeTable, index: nat) {
    forall a :: 0 <= a < |g.seqIndex| && a != index ==> g.seqIndex[a] != []
  }

  ghost function ActorsOf(changes: set<Change>): set<ActorId> {
    set c | c in changes :: c.actor
  }

  ghost function Tried(id: ActorId, levels: nat): set<ActorId> {
    set l | 0 <= l < levels :: AtLevel(id, l)
  }

  /** A level that is passed over belongs to an actor with changes. */
  lemma OneMoreTried(changes: set<Change>, id: ActorId, level: nat)
    requires AtLevel(id, level) in ActorsOf(changes)
    ensures ActorsOf(changes) - Tried(id, level + 1) < ActorsOf(changes) - Tried(id, level)
  {
    forall l | 0 <= l < level
      ensures AtLevel(id, l) != AtLevel(id, level)
    {
      LevelsDiffer(id, l, level);
    }
    assert AtLevel(id, level) in Tried(id, level + 1) && AtLevel(id, level) !in Tried(id, level);
    assert forall l :: 0 <= l < level ==> AtLevel(id, l) in Tried(id, level + 1);
  }

  /** Every change holds an operation and builds on its actor's previous one. */
  ghost predicate Orderly(changes: set<Change>) {
    AllHaveOps(changes) && AllNumbered(changes)
  }

  lemma LevelCheck(g: NodeTable, table: seq<ActorId>, index: nat, clock: seq<nat>, seqClock: SeqClock, heads: seq<Change>)
    requires Fits(g, table) && AllUsedBut(g, index) && index < |table| == |clock|
    requires g.IsClock(seqClock, AncestorsOf(Elements(heads) * g.Changes()))
    requires clock[index] == OpAt(g, index, seqClock[index])
    ensures var last := OpAt(g, index, |g.seqIndex[index]|);
      && (last != 0 ==> AllUsed(g) && table[index] in ActorsOf(g.Changes()))
      && (Orderly(g.Changes()) ==>
            (last == 0 || clock[index] >= last <==>
             SeenAllOf(table[index], g.Changes(), AncestorsOf(Elements(heads) * g.Changes()))))
  {
    if g.seqIndex[index] != [] {
      var c := AtSeq(g, table, index, 1);
      assert c.actor in ActorsOf(g.Changes());
    }
    if Orderly(g.Changes()) {
      ChangesClosed(g, Elements(heads));
      CoversMeansSeen(g, table, index, seqClock, AncestorsOf(Elements(heads) * g.Changes()));
    }
  }

  /** The last operation that an actor has among some changes, 0 if it has none
      there. */
  ghost predicate LastOpIn(id: ActorId, s: set<Change>, m: nat) {
    if exists c :: c in s && c.actor == id then
      exists c :: c in s && c.actor == id && c.maxOp == m && forall d :: d in s && d.actor == id ==> d.seqNum <= c.seqNum
    else
      m == 0
  }

  /** A view on some changes: up to the last operation of each actor there, and of
      one actor without bound. */
  ghost predicate IsScope(table: seq<ActorId>, clock: seq<nat>, index: nat, s: set<Change>) {
    && |clock| == |table| && index < |table|
    && clock[index] == 0xFFFF_FFFF
    && forall a :: 0 <= a < |table| && a != index ==> LastOpIn(table[a], s, clock[a])
  }

  lemma OpClockIsLast(g: NodeTable, table: seq<ActorId>, clock: seq<nat>, s: set<Change>, a: nat)
    requires Fits(g, table) && s <= g.Changes() && IsOpClock(g, clock, s) && a < |table|
    ensures LastOpIn(table[a], s, clock[a])
  {
    var c :| g.IsClock(c, s) && OpsOf(g, c, clock);
    ClockWithinIndex(g, c, s, a);
    forall d | d in s && d.actor == table[a]
      ensures 1 <= d.seqNum <= c[a]
    {
      var i := Located(g, table, d, a);
    }
    if c[a] > 0 {
      var i: nat :| Entry(g.hashes, g.actors, s, i, a, c[a]);
      var d := AtSeq(g, table, a, c[a]);
      var j := Located(g, table, g.hashes[i], a);
    }
  }

  lemma ScopeOf(g: NodeTable, table: seq<ActorId>, clock: seq<nat>, index: nat, s: set<Change>)
    requires Fits(g, table) && s <= g.Changes() && IsOpClock(g, clock, s) && index < |table|
    ensures IsScope(table, clock[index := U32_MAX], index, s)
  {
    forall a | 0 <= a < |table| && a != index
      ensures LastOpIn(table[a], s, clock[a])
    {
      OpClockIsLast(g, table, clock, s, a);
    }
  }

  /** In an orderly history, a view shows of the other actors exactly the changes
      it is on. */
  lemma ScopeShows(changes: set<Change>, table: seq<ActorId>, clock: seq<nat>, index: nat, heads: set<Change>, c: Change, a: nat)
    requires Orderly(changes) && Closed(changes) && NoTwins(changes) && heads <= changes
    requires IsScope(table, clock, index, AncestorsOf(heads))
    requires c in changes && a < |table| && a != index && table[a] == c.actor
    ensures c in AncestorsOf(heads) <==> c.maxOp <= clock[a]
  {
    var seen := AncestorsOf(heads);
    AncestorsOfClosed(heads);
    AncestorsOfInClosed(changes, heads);
    ChainsFromNumbering(changes);
    assert LastOpIn(table[a], seen, clock[a]) && HasOps(c);
    if d :| d in seen && d.actor == c.actor && d.maxOp == clock[a] && forall e :: e in seen && e.actor == c.actor ==> e.seqNum <= d.seqNum {
      assert HasOps(d);
      if c.seqNum <= d.seqNum {
        assert c in Ancestors(d);
        AncestorsInClosed(seen, d);
      } else {
        assert d in Ancestors(c);
      }
    }
  }

  ghost predicate AllUsed(g: NodeTable) {
    forall a :: 0 <= a < |g.seqIndex| ==> g.seqIndex[a] != []
  }

  lemma TableAfterInsert(g: NodeTable, table: seq<ActorId>, index: nat, id: ActorId)
    requires TableFits(g, table) && Splits(table, id, index)
    ensures TableFits(InsertActorInto(g, index), InsertAt(table, index, id))
  {
    InsertKeepsTable(table, id, index);
    assert forall i :: 0 <= i < |g.actors| ==> InsertActorInto(g, index).actors[i] == WithNewActor(g.actors[i], index);
  }

  lemma NoNodeOfUnused(g: NodeTable, index: nat)
    requires g.ValidNodes() && g.ValidIndex() && index < |g.seqIndex| && g.seqIndex[index] == []
    ensures index !in g.actors
  {
  }

  lemma TableAfterRemove(g: NodeTable, table: seq<ActorId>, index: nat)
    requires TableFits(g, table) && index < |table| && index !in g.actors
    ensures TableFits(RemoveActorFrom(g, index), RemoveAt(table, index))
  {
    RemoveKeepsTable(table, index);
    var g' := RemoveActorFrom(g, index);
    forall i | 0 <= i < |g.actors|
      ensures g'.actors[i] == WithoutActor(g.actors[i], index) && g.actors[i] != index
    {
      assert g.actors[i] in g.actors;
    }
  }

  /** What adding a change to the graph means for the rest of the document. */
  lemma AfterAdding(g: NodeTable, g': NodeTable, table: seq<ActorId>, maxOp: nat, change: Change, index: nat)
    requires Fits(g, table) && change !in g.Changes() && Ready(change, g.Changes()) && Bounds(maxOp, g.Changes())
    requires index < |table| && table[index] == change.actor
    requires g'.hashes == g.hashes + [change] && g'.actors == g.actors + [index] && |g'.seqIndex| == |g.seqIndex|
    ensures TableFits(g', table) && g'.Changes() == g.Changes() + {change}
    ensures Bounds(if maxOp < change.maxOp then change.maxOp else maxOp, g'.Changes())
    ensures Heads(g'.Changes()) == Heads(g.Changes()) - Elements(change.deps) + {change}
  {
    ElementsOfAppend(g.hashes, change);
    ChangesClosed(g, {});
    NewHead(g.Changes(), change);
  }

  ghost predicate HasTwin(s: set<Change>, c: Change) {
    exists d :: d in s && Twins(c, d)
  }

  /** A change that is refused: its number is taken, or none. */
  ghost predicate Taken(s: set<Change>, c: Change) {
    c.seqNum == 0 || HasTwin(s, c)
  }

  ghost predicate NumbersFit(s: set<Change>) {
    NoTwins(s) && AllCounted(s)
  }

  lemma TwinsNowhere(applied: set<Change>, batch: seq<Change>, queue: seq<Change>, known: set<Change>, c: Change)
    requires Sifted(applied, batch, queue, known)
    ensures HasTwin(known, c) <==> HasTwin(applied, c) || HasTwin(Elements(batch), c) || HasTwin(Elements(queue), c)
    ensures !HasTwin(known, c) <==> NoTwins(known + {c})
  {
    NoTwinsAdd(known, c);
  }

  lemma KnownHasNoTwin(known: set<Change>, c: Change)
    requires NoTwins(known) && c in known
    ensures !HasTwin(known, c) && known + {c} == known
  {
  }

  lemma RecordedTwin(changes: seq<Change>, c: Change)
    requires c !in changes
    ensures HasSeq(changes, c.actor, c.seqNum) <==> HasTwin(Elements(changes), c)
  {
    if HasSeq(changes, c.actor, c.seqNum) {
      var d :| d in changes && d.actor == c.actor && d.seqNum == c.seqNum;
      assert Twins(c, d) && d in Elements(changes);
    }
  }

  lemma InGraph(g: NodeTable)
    requires g.ValidNodes()
    ensures forall c :: c in g.nodesByHash <==> c in g.Changes()
  {
    forall c | c in g.nodesByHash
      ensures c in g.Changes()
    {
      assert g.hashes[g.nodesByHash[c]] == c;
    }
  }

  method QueueHasDupe(queue: seq<Change>, c: Change) returns (r: bool)
    ensures r <==> HasTwin(Elements(queue), c)
  {
    r := exists d | d in queue :: Twins(c, d);
  }

  lemma PrefixStep(base: seq<Change>, s: seq<Change>, k: nat)
    requires k <= |s|
    ensures k < |s| ==> base + s[..k] + [s[k]] == base + s[..k + 1]
    ensures base + s[..0] == base && base + s[..|s|] == base + s
  {
  }

  lemma ElementsOfConcat(s: seq<Change>, r: seq<Change>)
    ensures Elements(s + r) == Elements(s) + Elements(r)
  {
  }

  lemma FreshInBatch(applied: set<Change>, batch: seq<Change>, queue: seq<Change>, known: set<Change>, i: nat)
    requires Sifted(applied, batch, queue, known) && i < |queue|
    ensures queue[i] !in batch && !HasSeq(batch, queue[i].actor, queue[i].seqNum)
  {
    assert queue[i] in Elements(queue) && queue[i] !in Elements(batch);
    RecordedTwin(batch, queue[i]);
    KnownHasNoTwin(known, queue[i]);
  }

  /** The next change of a batch meets what applying it demands. */
  lemma NextOfBatch(g: NodeTable, table: seq<ActorId>, base: set<Change>, batch: seq<Change>, queue: seq<Change>, known: set<Change>, k: nat)
    requires Sifted(base, batch, queue, known) && k < |batch|
    requires Fits(g, table) && g.Changes() == base + Elements(batch[..k])
    requires forall c :: c in batch && c.seqNum == 1 ==> c.actor in table
    ensures batch[k] !in g.Changes() && Ready(batch[k], g.Changes()) && batch[k].seqNum >= 1
    ensures NoTwins(g.Changes() + {batch[k]}) && (batch[k].seqNum == 1 ==> batch[k].actor in table)
  {
    var c := batch[k];
    assert c in Elements(batch);
    NoTwinsSubset(g.Changes() + {c}, known);
  }

  /** Changes that build on their predecessors are never refused. */
  lemma NumberedContinues(applied: set<Change>, batch: seq<Change>)
    requires Closed(applied) && InOrder(applied, batch) && AllNumbered(Elements(batch))
    ensures Continues(applied, batch)
  {
    forall c | c in batch
      ensures Anchored(applied, c)
    {
      assert c in Elements(batch);
      NumberedIsAnchored(applied, c);
    }
    AnchoredContinues(applied, batch);
  }

  lemma BatchNumbered(applied: set<Change>, batch: seq<Change>, queue: seq<Change>, before: set<Change>, cs: seq<Change>, n: nat)
    requires n <= |cs| && Closed(applied) && Sifted(applied, batch, queue, before + Elements(cs[..n]))
    ensures AllNumbered(before) && AllNumbered(Elements(cs)) ==>
      Continues(applied, batch) && AllNumbered(before + Elements(cs[..n]))
  {
    if AllNumbered(before) && AllNumbered(Elements(cs)) {
      forall c | c in before + Elements(cs[..n])
        ensures Numbered(c)
      {
        assert c in before || c in Elements(cs);
      }
      NumberedContinues(applied, batch);
    }
  }

  /** The batch holds new changes in an order that respects dependencies: if no
      number is 0 or used twice, all changes that have become ready. */
  ghost predicate BatchOf(applied: set<Change>, batch: seq<Change>, known: set<Change>) {
    && InOrder(applied, batch) && NoRepeats(batch) && applied !! Elements(batch)
    && Elements(batch) <= known
    && (NumbersFit(known) ==> applied + Elements(batch) == ClosedCore(known))
  }

  /** The batch leaves nothing of it to do; after a drained queue, all that can
      be applied is. */
  lemma BatchApplied(applied: set<Change>, batch: seq<Change>, queue: seq<Change>, known: set<Change>, drained: bool)
    requires Closed(applied) && Sifted(applied, batch, queue, known)
    requires drained ==> forall q :: q in queue ==> !Ready(q, applied + Elements(batch))
    ensures Sifted(applied + Elements(batch), [], queue, known)
    ensures drained ==> applied + Elements(batch) == ClosedCore(known)
  {
    if drained {
      InOrderClosed(applied, batch);
      StuckIsCore(applied + Elements(batch), Elements(queue));
    }
  }

  lemma FailsOnTwin(known: set<Change>, cs: seq<Change>, n: nat, ok: bool)
    requires n <= |cs| && (ok ==> n == |cs| && NumbersFit(known + Elements(cs[..n])))
    requires !ok ==> n < |cs| && Taken(known + Elements(cs[..n]), cs[n])
    ensures ok <==> NumbersFit(known + Elements(cs))
  {
    PrefixStep([], cs, |cs|);
    if !ok {
      assert cs[n] in known + Elements(cs);
      if cs[n].seqNum > 0 {
        var d :| d in known + Elements(cs[..n]) && Twins(cs[n], d);
        assert d in known + Elements(cs);
      }
    }
  }

  /** What sifting and draining make of the incoming changes. */
  lemma BatchMade(applied: set<Change>, batch: seq<Change>, queue: seq<Change>, before: set<Change>, cs: seq<Change>, n: nat, ok: bool)
    requires n <= |cs| && Sifted(applied, batch, queue, before + Elements(cs[..n]))
    requires ok ==> n == |cs| && applied + Elements(batch) == ClosedCore(before + Elements(cs[..n]))
    requires !ok ==> n < |cs| && Taken(before + Elements(cs[..n]), cs[n])
    ensures BatchOf(applied, batch, before + Elements(cs)) && (ok <==> NumbersFit(before + Elements(cs)))
  {
    FailsOnTwin(before, cs, n, ok);
    PrefixStep([], cs, |cs|);
  }

  /** The batch is one order of what has become ready.  So it is never refused
      where all orders are accepted. */
  lemma BatchIsOrder(applied: set<Change>, batch: seq<Change>, known: set<Change>)
    requires Closed(applied) && BatchOf(applied, batch, known) && NumbersFit(known)
    ensures OrderOf(applied, ClosedCore(known) - applied, batch)
    ensures (forall c :: c in ClosedCore(known) - applied ==> Anchored(applied, c)) ==> Continues(applied, batch)
  {
    NoRepeatsSize(batch);
    assert Elements(batch) == ClosedCore(known) - applied;
    if forall c :: c in ClosedCore(known) - applied ==> Anchored(applied, c) {
      AnchoredContinues(applied, batch);
    }
  }

  /** The changes of a set as a vector, whatever their order. */
  method ToVec(s: set<Change>) returns (r: seq<Change>)
    ensures Elements(r) == s && NoRepeats(r)
  {
    r := [];
    var rest := s;
    while rest != {}
      invariant Elements(r) + rest == s && Elements(r) !! rest && NoRepeats(r)
      decreases rest
    {
      var c :| c in rest;
      assert c !in Elements(r);
      NoRepeatsAppend(r, c);
      ElementsOfAppend(r, c);
      r := r + [c];
      rest := rest - {c};
    }
  }

  lemma KnownGrows(known: set<Change>, cs: seq<Change>, k: nat)
    requires k <= |cs|
    ensures known + Elements(cs[..0]) == known
    ensures k < |cs| ==> known + Elements(cs[..k]) + {cs[k]} == known + Elements(cs[..k + 1])
  {
    if k < |cs| {
      PrefixStep([], cs, k);
      ElementsOfAppend(cs[..k], cs[k]);
    }
  }

  function DepsOf(cs: seq<Change>): set<Change> {
    set c, d | c in cs && d in c.deps :: d
  }

  lemma DepsOfAppend(cs: seq<Change>, c: Change)
    ensures DepsOf(cs + [c]) == DepsOf(cs) + Elements(c.deps)
  {
    assert forall d :: d in cs + [c] <==> d in cs || d == c;
  }

  // Searching another document.

  function Reversed(s: seq<Change>): (r: seq<Change>)
    ensures |r| == |s|
  {
    seq(|s|, k requires 0 <= k < |s| => s[|s| - 1 - k])
  }

  lemma ReversedSame(s: seq<Change>)
    requires NoRepeats(s)
    ensures NoRepeats(Reversed(s)) && Elements(Reversed(s)) == Elements(s)
  {
    forall c | c in s
      ensures c in Reversed(s)
    {
      var k :| 0 <= k < |s| && s[k] == c;
      assert Reversed(s)[|s| - 1 - k] == c;
    }
  }

  /** The dependencies of a change in the graph. */
  method DepsForHash(g: NodeTable, c: Change) returns (deps: seq<Change>)
    requires g.ValidNodes() && g.ValidEdges() && c in g.nodesByHash
    ensures deps == c.deps
  {
    var ps := Parents(g, g.nodesByHash[c]);
    deps := seq(|ps|, k requires 0 <= k < |ps| => g.hashes[ps[k]]);
  }

  /** Wherever the search has yet to go lies ahead of the stack. */
  ghost predicate Searching(mine: set<Change>, theirs: set<Change>, found: seq<Change>, stack: seq<Change>) {
    && Elements(stack) <= theirs
    && Elements(found) <= theirs - mine
    && NoRepeats(found)
    && Heads(theirs) <= mine + Elements(found) + Elements(stack)
    && forall c :: c in found ==> Elements(c.deps) <= mine + Elements(found) + Elements(stack)
  }

  lemma SearchSkips(mine: set<Change>, theirs: set<Change>, found: seq<Change>, rest: seq<Change>, c: Change)
    requires Searching(mine, theirs, found, rest + [c]) && c in mine + Elements(found)
    ensures Searching(mine, theirs, found, rest)
  {
    ElementsOfAppend(rest, c);
    assert mine + Elements(found) + Elements(rest + [c]) == mine + Elements(found) + Elements(rest);
  }

  lemma SearchExpands(mine: set<Change>, theirs: set<Change>, found: seq<Change>, rest: seq<Change>, c: Change)
    requires Searching(mine, theirs, found, rest + [c]) && c !in mine + Elements(found) && Closed(theirs)
    ensures Searching(mine, theirs, found + [c], rest + c.deps)
    ensures c in theirs
  {
    ElementsOfAppend(rest, c);
    ElementsOfAppend(found, c);
    ElementsOfConcat(rest, c.deps);
    NoRepeatsAppend(found, c);
    assert mine + Elements(found + [c]) + Elements(rest + c.deps)
        == mine + Elements(found) + Elements(rest + [c]) + Elements(c.deps);
  }

  lemma SearchEnds(mine: set<Change>, theirs: set<Change>, found: seq<Change>)
    requires Closed(mine) && Closed(theirs) && Searching(mine, theirs, found, [])
    ensures Elements(found) == theirs - mine
  {
    var all := mine + Elements(found);
    forall c, d | c in all && d in c.deps
      ensures d in all
    {
      if c in found {
        assert d in Elements(c.deps);
      }
    }
    AncestorsOfInClosed(all, Heads(theirs));
    HeadsReachAll(theirs);
  }

  /** Depth first from the heads of the other graph, stopping at changes of this
      one. */
  method SearchAdded(g: NodeTable, other: NodeTable, heads: seq<Change>) returns (found: seq<Change>)
    requires g.ValidNodes() && other.Valid() && Elements(heads) == Heads(other.Changes())
    ensures NoRepeats(found) && Elements(found) == other.Changes() - g.Changes()
  {
    ghost var mine, theirs := g.Changes(), other.Changes();
    ChangesClosed(g, {});
    ChangesClosed(other, {});
    InGraph(g);
    InGraph(other);
    found := [];
    var stack, seen := heads, {};
    while stack != []
      invariant Searching(mine, theirs, found, stack) && seen == Elements(found)
      decreases theirs - Elements(found), |stack|
    {
      var last := |stack| - 1;
      var c, rest := stack[last], stack[..last];
      assert stack == rest + [c];
      if c !in seen && c !in g.nodesByHash {
        SearchExpands(mine, theirs, found, rest, c);
        ElementsOfAppend(found, c);
        var deps := DepsForHash(other, c);
        seen := seen + {c};
        found := found + [c];
        stack := rest + deps;
      } else {
        SearchSkips(mine, theirs, found, rest, c);
        stack := rest;
      }
    }
    SearchEnds(mine, theirs, found);
  }

  /** Once its chain is intact, only a queued change can be a twin of a new one. */
  lemma QueueAfterLocal(applied: set<Change>, queue: seq<Change>, c: Change, after: set<Change>)
    requires Sifted(applied, [], queue, applied + Elements(queue)) && c.seqNum >= 1
    requires after == applied + {c} && NoTwins(after) && c !in applied && !HasSeq(queue, c.actor, c.seqNum)
    ensures Sifted(after, [], queue, after + Elements(queue))
    ensures AllNumbered(applied + Elements(queue)) && Numbered(c) ==> AllNumbered(after + Elements(queue))
  {
    var known := applied + Elements(queue);
    assert after + Elements(queue) == known + {c};
    forall d | d in known
      ensures !Twins(c, d)
    {
      assert d in applied ==> d in after && c in after;
    }
    NoTwinsAdd(known, c);
  }

  /** A change that comes next in the index of its actor is new. */
  lemma NextInIndex(g: NodeTable, table: seq<ActorId>, c: Change, index: nat)
    requires Fits(g, table) && index < |table| && c.actor == table[index] && c.seqNum == |g.seqIndex[index]| + 1
    ensures c !in g.Changes()
  {
    if c in g.Changes() {
      var i := Located(g, table, c, index);
    }
  }

  /** A local change sits on top of everything its heads and its actor's chain
      reach. */
  lemma LocalChange(g: NodeTable, c: Change)
    requires g.ValidNodes() && Elements(c.deps) <= g.Changes() && c !in g.Changes()
    ensures SeenAllOf(c.actor, g.Changes(), AncestorsOf(Elements(c.deps))) ==> SeenAllOf(c.actor, g.Changes() + {c}, Ancestors(c))
    ensures Heads(g.Changes()) <= Elements(c.deps) ==> Heads(g.Changes() + {c}) == {c}
  {
    AncestorsOfParents(c);
    ChangesClosed(g, {});
    assert forall d :: d in c.deps ==> d in Elements(c.deps);
    NewHead(g.Changes(), c);
  }

  method LastUnused(g: NodeTable) returns (r: Option<nat>)
    ensures r.Some? ==> r.value < |g.seqIndex| && g.seqIndex[r.value] == []
    ensures r.None? ==> AllUsed(g)
  {
    r := None;
    for a := 0 to |g.seqIndex|
      invariant r.Some? ==> r.value < |g.seqIndex| && g.seqIndex[r.value] == []
      invariant r.None? ==> forall b :: 0 <= b < a ==> g.seqIndex[b] != []
    {
      if g.seqIndex[a] == [] {
        r := Some(a);
      }
    }
  }

  lemma {:induction false} NoRepeatsSize(s: seq<Change>)
    requires NoRepeats(s)
    ensures |Elements(s)| == |s|
  {
    if s != [] {
      var init, last := s[..|s| - 1], s[|s| - 1];
      NoRepeatsSize(init);
      ElementsOfAppend(init, last);
      assert init + [last] == s && last !in Elements(init);
    }
  }

  lemma {:induction false} WithoutNoRepeats(s: seq<Change>, gone: set<Change>)
    requires NoRepeats(s)
    ensures NoRepeats(Without(s, gone))
  {
    if s != [] {
      var init, last := s[..|s| - 1], s[|s| - 1];
      WithoutNoRepeats(init, gone);
      WithoutElements(init, gone);
      assert last !in Elements(init);
      assert last !in Elements(Without(init, gone));
      if last !in gone {
        NoRepeatsAppend(Without(init, gone), last);
      }
    }
  }

  lemma HashesNoRepeats(g: NodeTable)
    requires g.ValidNodes()
    ensures NoRepeats(g.hashes)
  {
  }
}
