/**
What queues do to the sync protocol: exactly for which documents every run keeps
shared heads shared, and exactly for which peers that fall silent agree.
*/
module SyncLimits {
  import opened Wrappers
  import opened Dag
  import opened Bloom
  import opened SyncProtocol
  import opened SyncRuns
  import opened SyncConvergence

  // Changes that nobody has.

  /** The first change of an actor. */
  function Root(id: ActorId): Change {
    Change(Digest(0, 0, 0), id, 1, 1, 0, [])
  }

  lemma {:induction false} FreshActor(s: set<Change>) returns (id: ActorId)
    ensures forall c :: c in s ==> |c.actor| < |id|
    decreases |s|
  {
    if s == {} {
      id := [];
    } else {
      var c :| c in s;
      var other := FreshActor(s - {c});
      id := other + c.actor + [0];
      forall d | d in s
        ensures |d.actor| < |id|
      {
        assert d == c || d in s - {c};
      }
    }
  }

  lemma RootIsApplied(known: set<Change>, c: Change)
    requires c.deps == []
    ensures c in Applied(known + {c})
    ensures c !in AncestorsOf(known) ==> Applied(known + {c}) == Applied(known) + {c}
  {
    assert Ancestors(c) == {c};
    if c !in AncestorsOf(known) {
      forall d | d in Applied(known + {c}) && d != c
        ensures d in Applied(known)
      {
        assert c !in Ancestors(d);
      }
    }
  }

  // Runs, seen from the other side.

  function FlipRun(run: seq<Net>): seq<Net> {
    seq(|run|, i requires 0 <= i < |run| => Flip(run[i]))
  }

  lemma FlipIsRun(run: seq<Net>)
    requires IsRun(run)
    ensures IsRun(FlipRun(run))
  {
    var flipped := FlipRun(run);
    forall i | 0 <= i < |flipped| - 1
      ensures Step(flipped[i], flipped[i + 1])
    {
      assert Step(run[i], run[i + 1]);
      assert Flip(Flip(run[i])) == run[i] && Flip(Flip(run[i + 1])) == run[i + 1];
    }
  }

  // Agreement.

  /** Peer a asks for something b has not applied: b never answers, and a waits. */
  lemma NoAnswer(n: Net, m: Change) returns (run: seq<Net>)
    requires Initial(n) && m in Wanting(n.a.known) && m !in Applied(n.b.known) && Applied(n.a.known) != {}
    ensures IsRun(run) && |run| == 3 && run[0] == n && AtRest(run[2])
    ensures run[2].a.known == n.a.known && run[2].b.known == n.b.known
  {
    var n1 := Sent(n);
    var n2 := Flip(Delivered(Flip(n1)));
    run := [n, n1, n2];
    SentIsStep(n);
    DeliveredIsStep(n1);
    FirstWord(n);
    WaitingIsSilent(n2.a);
    MuteWhenAsked(n2.b, n2.a, m);
  }

  lemma MuteWhenAsked(b: Peer, a: Peer, m: Change)
    requires Asked(b, a) && m in Wanting(a.known) && m !in Applied(b.known)
    ensures !Speaks(b)
  {
    assert m in Wanting(a.known) - b.state.sentHashes;
  }

  /** Something more to apply changes nothing about that. */
  lemma ApplySomething(start: Net, m: Change) returns (n: Net)
    requires Initial(start) && m in Wanting(start.a.known)
    ensures Step(start, n) && Initial(n) && n.b == start.b
    ensures m in Wanting(n.a.known) && Applied(n.a.known) != {}
  {
    var y := Root(m.actor + [0]);
    var c :| c in Queued(start.a.known) && m in c.deps;
    RootIsApplied(start.a.known, y);
    DepIsAncestor(c, m);
    assert |y.actor| != |m.actor|;
    n := start.(a := start.a.(known := start.a.known + {y}));
    assert Grow(start, n, {y});
    assert c in Queued(n.a.known);
  }

  lemma OneStepBefore(start: Net, run: seq<Net>)
    requires IsRun(run) && Initial(start) && Step(start, run[0])
    ensures IsRun([start] + run)
  {
    var longer := [start] + run;
    forall i | 0 <= i < |longer| - 1
      ensures Step(longer[i], longer[i + 1])
    {
      if i > 0 {
        assert Step(run[i - 1], run[i - 1 + 1]);
      }
    }
  }

  /** The same, whatever a has applied. */
  lemma NoAnswerFrom(start: Net, m: Change) returns (run: seq<Net>)
    requires Initial(start) && m in Wanting(start.a.known) && m !in Applied(start.b.known)
    ensures IsRun(run) && |run| > 0 && run[0] == start
    ensures AtRest(run[|run| - 1]) && !Agreed(run[|run| - 1])
  {
    if Applied(start.a.known) != {} {
      run := NoAnswer(start, m);
      QueueWaits(start.a.known);
    } else {
      var n := ApplySomething(start, m);
      QueueWaits(n.a.known);
      var rest := NoAnswer(n, m);
      OneStepBefore(start, rest);
      run := [start] + rest;
      assert run[|run| - 1] == rest[2];
    }
  }

  ghost predicate AlwaysAgree(start: Net) {
    forall run, i {:trigger IsRun(run), run[i]} :: IsRun(run) && run[0] == start && 0 <= i < |run| && AtRest(run[i]) ==> Agreed(run[i])
  }

  /** Peers that fall silent agree, in all runs from some documents, if and only
      if what the queue of either document misses is applied in the other. */
  lemma AgreementExactly(start: Net)
    requires Initial(start)
    ensures AlwaysAgree(start) <==> QueuesAnswered(start)
  {
    if QueuesAnswered(start) {
      forall run, i {:trigger IsRun(run), run[i]} | IsRun(run) && run[0] == start && 0 <= i < |run| && AtRest(run[i])
        ensures Agreed(run[i])
      {
        AgreementAtRest(run, i);
      }
    } else if m :| m in Wanting(start.a.known) && m !in Applied(start.b.known) {
      var run := NoAnswerFrom(start, m);
      assert IsRun(run) && run[0] == start && AtRest(run[|run| - 1]);
    } else {
      var m :| m in Wanting(start.b.known) && m !in Applied(start.a.known);
      var run := NoAnswerFrom(Flip(start), m);
      FlipIsRun(run);
      var flipped := FlipRun(run);
      assert IsRun(flipped) && flipped[0] == start && AtRest(flipped[|run| - 1]) && !Agreed(flipped[|run| - 1]);
    }
  }

  /** Failing inputs: a queue that waits for what nobody has.  The run ends with
      different heads. */
  lemma SilentWithDifferentHeads(id: ActorId, y: Change, x: Change, m: Change, q: Change) returns (run: seq<Net>)
    requires m == Root(id) && q == Change(Digest(1, 1, 1), id, 2, 2, 0, [m])
    requires y == Root(id + [1]) && x == Root(id + [2])
    ensures IsRun(run) && |run| == 3 && run[0] == Net(Peer({y, q}, NewState), Peer({x}, NewState), [], [])
    ensures AtRest(run[2]) && GetHeads(run[2].a.known) == {y} && GetHeads(run[2].b.known) == {x}
  {
    var n := Net(Peer({y, q}, NewState), Peer({x}, NewState), [], []);
    DepIsAncestor(q, m);
    assert Ancestors(y) == {y} && Ancestors(x) == {x};
    assert |m.actor| < |y.actor| && y.actor[|id|] != x.actor[|id|];
    assert Applied({y, q}) == {y} && Applied({x}) == {x};
    assert m in q.deps && m in Wanting({y, q});
    run := NoAnswer(n, m);
  }

  /** Rounds come to rest without agreement whenever a queue waits for what
      nobody has. */
  lemma RoundsEndApart(start: Net, m: Change) returns (states: seq<Net>)
    requires Initial(start) && m in Wanting(start.a.known) && m !in start.b.known
    ensures Rounds(states) && states[0] == start
    ensures AtRest(states[|states| - 1]) && !Agreed(states[|states| - 1])
  {
    assert IsRun([start]);
    RunKeepsInv([start], 0);
    RunKeepsSensible([start], 0);
    states := RoundsReachRest(start);
    var end := states[|states| - 1];
    var c :| c in start.a.known && m in c.deps;
    ClosedCoreIsLargest(end.a.known);
    assert c in end.a.known + end.b.known;
  }

  // Shared heads.

  /** A member that no other one builds on, above a given one. */
  lemma {:induction false} Topmost(s: set<Change>, c: Change) returns (m: Change)
    requires c in s
    ensures m in s && forall e :: e in s && m in Ancestors(e) ==> e == m
    decreases |set e | e in s && c in Ancestors(e)|
  {
    if d :| d in s && c in Ancestors(d) && d != c {
      var above := set e | e in s && c in Ancestors(e);
      var aboveD := set e | e in s && d in Ancestors(e);
      forall e | e in aboveD
        ensures e in above - {c}
      {
        AncestorsTransitive(c, d, e);
        if e == c {
          AncestorsAntisymmetric(c, d);
        }
      }
      assert c in above;
      SubsetSize(aboveD, above - {c});
      m := Topmost(s, d);
    } else {
      m := c;
    }
  }

  /** All that is missing below q is m. */
  ghost predicate OnlyLacks(known: set<Change>, q: Change, m: Change) {
    q in known && m !in known && m in Ancestors(q) && Ancestors(q) <= known + {m}
  }

  lemma OnlyLacksWaits(known: set<Change>, q: Change, m: Change)
    requires OnlyLacks(known, q, m)
    ensures q in Queued(known) && m in Wanting(known) && q in Applied(known + {m})
  {
    var s := Ancestors(q) - {m};
    var w, d := WaitsForMissing(s, q);
    DepIsAncestor(w, d);
    AncestorsTransitive(d, w, q);
    assert w in Queued(known);
  }

  /** Peer a gets hold of everything below q but one change, which b has. */
  lemma AllButOne(start: Net, q: Change, y: Change) returns (n: Net, m: Change)
    requires Initial(start) && Wanting(start.a.known) <= Applied(start.b.known)
    requires q in Queued(start.a.known) && y.deps == [] && y !in Ancestors(q)
    ensures Step(start, n) && n == start.(a := start.a.(known := n.a.known)) && y in Applied(n.a.known)
    ensures OnlyLacks(n.a.known, q, m) && Wanting(n.a.known) <= Applied(start.b.known)
    ensures n.a.known <= start.a.known + Ancestors(q) + {y}
  {
    var known := start.a.known;
    var lacking := Ancestors(q) - known;
    var u :| u in Ancestors(q) && u !in known;
    m := Topmost(lacking, u);
    var changes := lacking - {m} + {y};
    forall c | c in changes
      ensures Ancestors(c) <= known + changes
    {
      if c == y {
        assert Ancestors(y) == {y};
      } else {
        forall a | a in Ancestors(c)
          ensures a in known + changes
        {
          AncestorsTransitive(a, c, q);
        }
      }
    }
    n := start.(a := start.a.(known := known + changes));
    assert Grow(start, n, changes);
    WantingShrinks(known, changes);
  }

  /** b has heard what a lacks, and is to answer. */
  ghost predicate Asked(b: Peer, a: Peer) {
    && b.state.theirHeads.Some? && b.state.theirHeads != Some({})
    && b.state.theirNeed == Some(Wanting(a.known)) && b.state.theirHave == Some([])
    && b.state.sentHashes == {} && !b.state.haveResponded
  }

  lemma FirstWord(n: Net)
    requires Initial(n) && Wanting(n.a.known) != {} && Applied(n.a.known) != {}
    ensures var n' := Flip(Delivered(Flip(Sent(n))));
            && Asked(n'.b, n'.a) && n'.toA == n'.toB == []
            && n'.a.known == n.a.known && n'.b.known == n.b.known && n'.a.state.sharedHeads == {} && Waiting(n'.a)
  {
    EmptyHeads(n.a.known);
  }

  lemma AnswerIsSent(b: Peer, a: Peer)
    requires Asked(b, a) && {} != Wanting(a.known) && Wanting(a.known) <= Applied(b.known)
    ensures Speaks(b) && MessageOf(b).value.changes == Some(Wanting(a.known)) && MessageOf(b).value.heads == GetHeads(b.known)
  {
    SelectedNeed(b.known, b.state, Wanting(a.known));
  }

  lemma SelectedNeed(known: set<Change>, st: State, need: set<Change>)
    requires st.theirHave == Some([]) && st.theirNeed == Some(need) && st.theirHeads != Some({})
    requires st.sentHashes == {} && {} != need && need <= Applied(known)
    ensures SelectChanges(known, st) == Some(Selection(Some(need), need, st.Version()))
  {
    assert need - {} == need;
  }

  /** As long as some head of the message is unknown, all new heads are taken for
      shared. */
  lemma NewHeadsAreTaken(known: set<Change>, st: State, m: Message, z: Change)
    requires m.changes.Some? && z in m.heads && z !in KnownAfter(known, m)
    ensures GetHeads(KnownAfter(known, m)) - GetHeads(known) <= Receive(known, st, m).sharedHeads
  {
  }

  lemma RootIsHead(known: set<Change>, z: Change)
    requires z.deps == [] && z !in AncestorsOf(known)
    ensures z in GetHeads(known + {z})
  {
    RootIsApplied(known, z);
    forall d | d in Applied(known + {z})
      ensures z !in d.deps
    {
      if z in d.deps {
        DepIsAncestor(d, z);
      }
    }
  }

  lemma AnswerArrives(n: Net, z: Change)
    requires Asked(n.b, n.a) && n.toA == n.toB == []
    requires {} != Wanting(n.a.known) && Wanting(n.a.known) <= Applied(n.b.known)
    requires z in GetHeads(n.b.known) && z !in n.a.known + Wanting(n.a.known)
    ensures var n' := Delivered(Flip(Sent(Flip(n))));
            && n'.a.known == n.a.known + Wanting(n.a.known) && n'.b.known == n.b.known
            && GetHeads(n'.a.known) - GetHeads(n.a.known) <= n'.a.state.sharedHeads
  {
    AnswerIsSent(n.b, n.a);
    NewHeadsAreTaken(n.a.known, n.a.state, MessageOf(n.b).value, z);
  }

  /** b, having heard what a lacks, commits z and answers. */
  lemma AnswerWithMore(n: Net, z: Change) returns (run: seq<Net>)
    requires Initial(n) && {} != Wanting(n.a.known) && Wanting(n.a.known) <= Applied(n.b.known) && Applied(n.a.known) != {}
    requires z.deps == [] && z !in AncestorsOf(n.b.known) && z !in n.a.known
    ensures IsRun(run) && |run| == 6 && run[0] == n
    ensures Applied(run[5].b.known) == Applied(n.b.known) + {z}
    ensures run[5].a.known == n.a.known + Wanting(n.a.known)
    ensures GetHeads(run[5].a.known) - GetHeads(n.a.known) <= run[5].a.state.sharedHeads
  {
    var n1 := Sent(n);
    var n2 := Flip(Delivered(Flip(n1)));
    SentIsStep(n);
    DeliveredIsStep(n1);
    FirstWord(n);
    var n3 := n2.(b := n2.b.(known := n2.b.known + {z}));
    RootIsApplied(n2.b.known, z);
    RootIsHead(n2.b.known, z);
    assert Grow(Flip(n2), Flip(n3), {z});
    var n4 := Flip(Sent(Flip(n3)));
    var n5 := Delivered(n4);
    SentIsStep(n3);
    DeliveredIsStep(n4);
    AnswerArrives(n3, z);
    run := [n, n1, n2, n3, n4, n5];
  }

  lemma BelowAll(s: set<Change>, c: Change)
    requires c in s
    ensures c in AncestorsOf(s) && Ancestors(c) <= AncestorsOf(s)
  {
    assert c in Ancestors(c);
  }

  /** Two first changes that have nothing to do with either document. */
  lemma TwoRoots(a: set<Change>, b: set<Change>, q: Change) returns (y: Change, z: Change)
    requires q in a
    ensures y.deps == z.deps == [] && y != z
    ensures y !in Ancestors(q) && z !in a + Ancestors(q) && z !in AncestorsOf(b)
  {
    var id := FreshActor(AncestorsOf(a + b));
    y, z := Root(id), Root(id + [0]);
    forall c | c in a + Ancestors(q) + AncestorsOf(b)
      ensures c in AncestorsOf(a + b)
    {
      BelowAll(a + b, q);
      if c in a {
        BelowAll(a + b, c);
      }
    }
  }

  /** With all that a's queue misses, and one more change, at b: a run in which a
      takes for shared what b has not. */
  lemma TakenFromQueue(n: Net, q: Change, m: Change, z: Change) returns (run: seq<Net>)
    requires Initial(n) && Wanting(n.a.known) <= Applied(n.b.known) && Applied(n.a.known) != {}
    requires OnlyLacks(n.a.known, q, m) && q !in Applied(n.b.known) && q != z
    requires z.deps == [] && z !in AncestorsOf(n.b.known) && z !in n.a.known
    ensures IsRun(run) && |run| == 6 && run[0] == n
    ensures !(run[5].a.state.sharedHeads <= Applied(run[5].b.known))
  {
    OnlyLacksWaits(n.a.known, q, m);
    run := AnswerWithMore(n, z);
    NewHeadAbove(n.a.known, run[5].a.known, q, m);
    var h :| h in GetHeads(run[5].a.known) - GetHeads(n.a.known) && q in Ancestors(h);
    ClosedCoreIsLargest(run[5].b.known);
    if h in Applied(run[5].b.known) {
      AncestorsInClosed(Applied(run[5].b.known), h);
    }
  }

  /** Where a queued change is not applied at the other side, though all that the
      queue misses is, some run has a take for shared what b has not. */
  lemma UnsharedHead(start: Net, q: Change) returns (run: seq<Net>)
    requires Initial(start) && Wanting(start.a.known) <= Applied(start.b.known)
    requires q in Queued(start.a.known) && q !in Applied(start.b.known)
    ensures IsRun(run) && |run| == 7 && run[0] == start
    ensures !(run[6].a.state.sharedHeads <= Applied(run[6].b.known))
  {
    var y, z := TwoRoots(start.a.known, start.b.known, q);
    var n, m := AllButOne(start, q, y);
    var rest := TakenFromQueue(n, q, m, z);
    OneStepBefore(start, rest);
    run := [start] + rest;
  }

  /** Once the missing change is there, some new head has q below it. */
  lemma NewHeadAbove(known: set<Change>, known': set<Change>, q: Change, m: Change)
    requires OnlyLacks(known, q, m) && m in known' && known <= known'
    ensures exists h :: h in GetHeads(known') - GetHeads(known) && q in Ancestors(h)
  {
    OnlyLacksWaits(known, q, m);
    ClosedCoreMonotone(known + {m}, known');
    ClosedCoreIsLargest(known);
    var h := BelowAHead(Applied(known'), q);
    if h in Applied(known) {
      AncestorsInClosed(Applied(known), h);
    }
  }

  /** A request that the other side cannot meet is made at once. */
  lemma UnmetRequest(start: Net, m: Change) returns (run: seq<Net>)
    requires Initial(start) && m in Wanting(start.a.known) && m !in Applied(start.b.known)
    ensures IsRun(run) && |run| == 2 && run[0] == start && !Shared(run[1])
  {
    run := [start, Sent(start)];
    SentIsStep(start);
    assert m in run[1].toB[0].need;
  }

  /** A run that breaks the promise, from documents of which the first queues
      something the second has not applied. */
  lemma BrokenPromise(start: Net, q: Change) returns (run: seq<Net>)
    requires Initial(start) && q in Queued(start.a.known) && q !in Applied(start.b.known)
    ensures IsRun(run) && |run| > 0 && run[0] == start && !Shared(run[|run| - 1])
  {
    if m :| m in Wanting(start.a.known) && m !in Applied(start.b.known) {
      run := UnmetRequest(start, m);
    } else {
      run := UnsharedHead(start, q);
    }
  }

  ghost predicate AlwaysShared(start: Net) {
    forall run, i {:trigger IsRun(run), run[i]} :: IsRun(run) && run[0] == start && 0 <= i < |run| ==> Shared(run[i])
  }

  /** What the peers take to be shared is held by both, and requests are met, in
      all runs from some documents, if and only if what waits in the queue of
      either document is applied in the other. */
  lemma SharedExactly(start: Net)
    requires Initial(start)
    ensures AlwaysShared(start) <==> QueuesCovered(start)
  {
    if QueuesCovered(start) {
      forall run, i {:trigger IsRun(run), run[i]} | IsRun(run) && run[0] == start && 0 <= i < |run|
        ensures Shared(run[i])
      {
        SharedHeadsAreShared(run, i);
      }
    } else if q :| q in Queued(start.a.known) && q !in Applied(start.b.known) {
      var run := BrokenPromise(start, q);
      assert IsRun(run) && run[0] == start && !Shared(run[|run| - 1]);
    } else {
      var q :| q in Queued(start.b.known) && q !in Applied(start.a.known);
      var run := BrokenPromise(Flip(start), q);
      FlipIsRun(run);
      var flipped := FlipRun(run);
      assert IsRun(flipped) && flipped[0] == start && !Shared(flipped[|run| - 1]);
    }
  }

  /** A failing input: a queued change that becomes ready during the sync is
      taken for shared. */
  lemma QueuedIsTakenForShared(id: ActorId, m: Change, q: Change) returns (run: seq<Net>)
    requires m == Root(id) && q == Change(Digest(1, 1, 1), id, 2, 2, 0, [m])
    ensures IsRun(run) && |run| == 7 && run[0] == Net(Peer({q}, NewState), Peer({m}, NewState), [], [])
    ensures !(run[6].a.state.sharedHeads <= Applied(run[6].b.known))
  {
    DepIsAncestor(q, m);
    assert Ancestors(m) == {m} && Applied({m}) == {m};
    assert Wanting({q}) == {m} && q in Queued({q});
    run := UnsharedHead(Net(Peer({q}, NewState), Peer({m}, NewState), [], []), q);
  }
}
