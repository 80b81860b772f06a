/**
Runs of the sync protocol: two peers, two in-order channels, and any
interleaving of local changes, sends, deliveries and broken connections.
*/
module SyncRuns {
  import opened Wrappers
  import opened Dag
  import opened Bloom
  import opened SyncProtocol

  datatype Peer = Peer(known: set<Change>, state: State)

  /** `toB` and `toA` hold the messages on their way, oldest first. */
  datatype Net = Net(a: Peer, b: Peer, toB: seq<Message>, toA: seq<Message>)

  function Flip(n: Net): Net {
    Net(n.b, n.a, n.toA, n.toB)
  }

  // Steps of peer a; those of b are the same with the sides exchanged.

  /** Commits, and merges from elsewhere: new changes whose dependencies are at
      hand. */
  ghost predicate Grow(n: Net, n': Net, changes: set<Change>) {
    && changes <= Applied(n.a.known + changes)
    && n' == n.(a := n.a.(known := n.a.known + changes))
  }

  ghost predicate Send(n: Net, n': Net) {
    var (m, st) := Generate(n.a.known, n.a.state);
    && m.Some?
    && n' == n.(a := n.a.(state := st), toB := n.toB + [m.value])
  }

  ghost predicate Deliver(n: Net, n': Net) {
    && n.toA != []
    && var m := n.toA[0];
    n' == n.(a := Peer(KnownAfter(n.a.known, m), Receive(n.a.known, n.a.state, m)), toA := n.toA[1..])
  }

  /** The connection breaks: messages on their way are lost, and both sides go
      on from what they persisted. */
  ghost predicate Reconnect(n: Net, n': Net) {
    n' == Net(n.a.(state := Restored(n.a.state)), n.b.(state := Restored(n.b.state)), [], [])
  }

  ghost predicate StepA(n: Net, n': Net) {
    (exists changes :: Grow(n, n', changes)) || Send(n, n') || Deliver(n, n') || Reconnect(n, n')
  }

  ghost predicate Step(n: Net, n': Net) {
    StepA(n, n') || StepA(Flip(n), Flip(n'))
  }

  /** Any two documents, whatever waits in their queues, and fresh sync states. */
  ghost predicate Initial(n: Net) {
    n.a.state == n.b.state == NewState && n.toB == n.toA == []
  }

  ghost predicate IsRun(run: seq<Net>) {
    && run != []
    && Initial(run[0])
    && forall i :: 0 <= i < |run| - 1 ==> Step(run[i], run[i + 1])
  }

  // What holds in all runs, one side at a time.

  /** Sync points that p has applied. */
  ghost predicate OwnHave(have: seq<Have>, p: Peer) {
    forall h :: h in have ==> h.lastSync <= Applied(p.known)
  }

  /** What a message from p says of p. */
  ghost predicate GoodMessage(m: Message, p: Peer) {
    && m.heads <= Applied(p.known)
    && OwnHave(m.have, p)
    && (m.changes.Some? ==> m.changes.value <= p.known)
  }

  /** In the channel, or already applied or queued at the other side. */
  ghost predicate OnItsWay(c: Change, q: Peer, pq: seq<Message>) {
    c in q.known || exists m :: m in pq && m.changes.Some? && c in m.changes.value
  }

  /** The heads of p that q heard of last, or will once the channel is empty. */
  function LastHeard(q: Peer, pq: seq<Message>): Option<set<Change>> {
    if pq == [] then q.state.theirHeads else Some(pq[|pq| - 1].heads)
  }

  /** The heads p noted as sent: q has them, or they are outdated, or they are
      what q hears last. */
  ghost predicate Announced(p: Peer, q: Peer, pq: seq<Message>) {
    var sent := p.state.lastSentHeads;
    || sent <= Applied(q.known)
    || (sent <= Applied(p.known) && (sent == GetHeads(p.known) ==> LastHeard(q, pq) == Some(sent)))
  }

  ghost predicate Side(p: Peer, q: Peer, pq: seq<Message>) {
    var st := p.state;
    && st.sharedHeads <= Applied(p.known)
    && (st.theirHeads.Some? ==> st.theirHeads.value <= Applied(q.known))
    && (st.theirHave.Some? ==> OwnHave(st.theirHave.value, q))
    && (forall c :: c in st.sentHashes ==> OnItsWay(c, q, pq))
    && (forall m :: m in pq ==> GoodMessage(m, p))
    && Announced(p, q, pq)
  }

  ghost predicate Inv(n: Net) {
    && Side(n.a, n.b, n.toB)
    && Side(n.b, n.a, n.toA)
    && (n.toB == n.toA == [] ==> !(n.a.state.inFlight && n.b.state.inFlight))
  }

  // Each kind of step keeps the invariant.

  /** Heads that were noted do not come to be the heads again. */
  lemma OutdatedStays(known: set<Change>, known': set<Change>, sent: set<Change>)
    requires known <= known' && sent <= Applied(known) && sent == GetHeads(known')
    ensures sent == GetHeads(known) && Applied(known') == Applied(known)
  {
    ClosedCoreMonotone(known, known');
    ClosedCoreIsLargest(known);
    ClosedCoreIsLargest(known');
    HeadsIncluded(Applied(known'), Applied(known));
  }

  lemma AnnouncedStays(p: Peer, q: Peer, pq: seq<Message>, known': set<Change>)
    requires Announced(p, q, pq) && p.known <= known'
    ensures Announced(p.(known := known'), q, pq)
  {
    ClosedCoreMonotone(p.known, known');
    if p.state.lastSentHeads <= Applied(p.known) && p.state.lastSentHeads == GetHeads(known') {
      OutdatedStays(p.known, known', p.state.lastSentHeads);
    }
  }

  lemma GrowKeepsInv(n: Net, n': Net, changes: set<Change>)
    requires Inv(n) && Grow(n, n', changes)
    ensures Inv(n')
  {
    ClosedCoreMonotone(n.a.known, n'.a.known);
    AnnouncedStays(n.a, n.b, n.toB, n'.a.known);
  }

  /** What is selected is known; what is noted as sent goes on its way. */
  lemma SelectedIsKnown(known: set<Change>, st: State)
    ensures var selection := SelectChanges(known, st);
            selection.Some? ==>
              && (selection.value.changes.Some? ==> selection.value.changes.value <= known)
              && selection.value.hashes <= (if selection.value.changes.Some? then selection.value.changes.value else {})
  {
  }

  /** What is sent holds only what the sender can stand for. */
  lemma GenerateFits(p: Peer, q: Peer, pq: seq<Message>)
    requires Side(p, q, pq)
    ensures var (m, st) := Generate(p.known, p.state);
            m.Some? ==>
              && GoodMessage(m.value, p)
              && m.value.heads == GetHeads(p.known)
              && st.sentHashes <= p.state.sentHashes + (if m.value.changes.Some? then m.value.changes.value else {})
  {
    SelectedIsKnown(p.known, p.state);
  }

  lemma SendKeepsInv(n: Net, n': Net)
    requires Inv(n) && Send(n, n')
    ensures Inv(n')
  {
    var p, q, st' := n.a, n.b, n'.a.state;
    GenerateFits(p, q, n.toB);
    var m := n'.toB[|n.toB|];
    forall c | c in st'.sentHashes
      ensures OnItsWay(c, q, n'.toB)
    {
      if c in p.state.sentHashes {
        assert OnItsWay(c, q, n.toB);
      } else {
        assert m in n'.toB;
      }
    }
  }

  lemma DeliverKeepsInv(n: Net, n': Net)
    requires Inv(n) && Deliver(n, n')
    ensures Inv(n')
  {
    DeliverKeepsReceiver(n, n');
    DeliverKeepsSender(n, n');
  }

  lemma DeliverKeepsReceiver(n: Net, n': Net)
    requires Inv(n) && Deliver(n, n')
    ensures Side(n'.a, n'.b, n'.toB)
  {
    var m := n.toA[0];
    assert GoodMessage(m, n.b);
    ClosedCoreMonotone(n.a.known, n'.a.known);
    AnnouncedStays(n.a, n.b, n.toB, n'.a.known);
    forall c | c in n'.a.state.sentHashes
      ensures OnItsWay(c, n'.b, n'.toB)
    {
      assert OnItsWay(c, n.b, n.toB);
    }
    forall k | k in n'.toB
      ensures GoodMessage(k, n'.a)
    {
      assert GoodMessage(k, n.a);
    }
  }

  lemma DeliverKeepsSender(n: Net, n': Net)
    requires Inv(n) && Deliver(n, n')
    ensures Side(n'.b, n'.a, n'.toA)
  {
    var m := n.toA[0];
    ClosedCoreMonotone(n.a.known, n'.a.known);
    forall c | c in n'.b.state.sentHashes
      ensures OnItsWay(c, n'.a, n'.toA)
    {
      assert OnItsWay(c, n.a, n.toA);
      if c !in n'.a.known {
        var k :| k in n.toA && k.changes.Some? && c in k.changes.value;
        assert k in n'.toA;
      }
    }
    forall k | k in n'.toA
      ensures GoodMessage(k, n'.b)
    {
      assert k in n.toA;
    }
  }

  lemma StepKeepsInv(n: Net, n': Net)
    requires Inv(n) && Step(n, n')
    ensures Inv(n')
  {
    if StepA(n, n') {
      StepAKeepsInv(n, n');
    } else {
      StepAKeepsInv(Flip(n), Flip(n'));
    }
  }

  lemma StepAKeepsInv(n: Net, n': Net)
    requires Inv(n) && StepA(n, n')
    ensures Inv(n')
  {
    if changes :| Grow(n, n', changes) {
      GrowKeepsInv(n, n', changes);
    } else if Send(n, n') {
      SendKeepsInv(n, n');
    } else if Deliver(n, n') {
      DeliverKeepsInv(n, n');
    }
  }

  lemma {:induction false} RunKeepsInv(run: seq<Net>, i: nat)
    requires IsRun(run) && i < |run|
    ensures Inv(run[i])
  {
    if i > 0 {
      RunKeepsInv(run, i - 1);
      StepKeepsInv(run[i - 1], run[i]);
    }
  }

  // What is asked for.

  function DepsIn(s: set<Change>): set<Change> {
    set c, d | c in s && d in c.deps :: d
  }

  /** What p asks q for: what q has applied, and what changes of p build on. */
  ghost predicate GoodNeed(need: set<Change>, p: Peer, q: Peer) {
    need <= Applied(q.known) + DepsIn(p.known)
  }

  ghost predicate Asks(p: Peer, q: Peer, pq: seq<Message>) {
    && (q.state.theirNeed.Some? ==> GoodNeed(q.state.theirNeed.value, p, q))
    && forall m :: m in pq ==> GoodNeed(m.need, p, q)
  }

  ghost predicate Sensible(n: Net) {
    Asks(n.a, n.b, n.toB) && Asks(n.b, n.a, n.toA)
  }

  lemma StepKeepsSensible(n: Net, n': Net)
    requires Inv(n) && Sensible(n) && Step(n, n')
    ensures Sensible(n')
  {
    if StepA(n, n') {
      StepAKeepsSensible(n, n');
    } else {
      StepAKeepsSensible(Flip(n), Flip(n'));
    }
  }

  lemma StepAKeepsSensible(n: Net, n': Net)
    requires Inv(n) && Sensible(n) && StepA(n, n')
    ensures Sensible(n')
  {
    ClosedCoreMonotone(n.a.known, n.a.known + n'.a.known);
    assert n.a.known <= n'.a.known ==> n.a.known + n'.a.known == n'.a.known;
  }

  lemma {:induction false} RunKeepsSensible(run: seq<Net>, i: nat)
    requires IsRun(run) && i < |run|
    ensures Sensible(run[i])
  {
    if i > 0 {
      RunKeepsSensible(run, i - 1);
      RunKeepsInv(run, i - 1);
      StepKeepsSensible(run[i - 1], run[i]);
    }
  }

  // What holds in addition when each side has applied what the queue of the
  // other misses.

  /** The dependencies that queued changes wait for. */
  function Wanting(known: set<Change>): set<Change> {
    MissingDeps(known, {})
  }

  /** What a set of changes builds on is among them or applied at one of the
      peers. */
  ghost predicate DepsHeld(changes: set<Change>, p: Peer, q: Peer) {
    forall c, d {:trigger d in c.deps, c in changes} ::
      c in changes && d in c.deps ==> d in changes || d in Applied(p.known) || d in Applied(q.known)
  }

  /** q can answer what p asks for. */
  ghost predicate Answers(q: Peer, p: Peer, pq: seq<Message>) {
    && Wanting(p.known) <= Applied(q.known)
    && (q.state.theirNeed.Some? ==> q.state.theirNeed.value <= Applied(q.known))
    && forall m :: m in pq ==> m.need <= Applied(q.known) && (m.changes.Some? ==> DepsHeld(m.changes.value, p, q))
  }

  ghost predicate Answered(n: Net) {
    Answers(n.b, n.a, n.toB) && Answers(n.a, n.b, n.toA)
  }

  lemma WantingShrinks(known: set<Change>, changes: set<Change>)
    requires changes <= Applied(known + changes)
    ensures Wanting(known + changes) <= Wanting(known)
  {
    ClosedCoreMonotone(known, known + changes);
  }

  lemma GrowKeepsAnswered(n: Net, n': Net, changes: set<Change>)
    requires Answered(n) && Grow(n, n', changes)
    ensures Answered(n')
  {
    ClosedCoreMonotone(n.a.known, n'.a.known);
    WantingShrinks(n.a.known, changes);
    DepsStayHeld(n, n');
  }

  /** With more applied at a, what was held stays held. */
  lemma DepsStayHeld(n: Net, n': Net)
    requires Applied(n.a.known) <= Applied(n'.a.known) && n'.b.known == n.b.known
    ensures forall m :: m in n.toB && m.changes.Some? && DepsHeld(m.changes.value, n.a, n.b) ==> DepsHeld(m.changes.value, n'.a, n'.b)
    ensures forall m :: m in n.toA && m.changes.Some? && DepsHeld(m.changes.value, n.b, n.a) ==> DepsHeld(m.changes.value, n'.b, n'.a)
  {
  }

  /** A message asks for what its receiver has applied, and carries changes with
      what they build on. */
  lemma GenerateIsAnswered(p: Peer, q: Peer, pq: seq<Message>)
    requires Side(p, q, pq) && Wanting(p.known) <= Applied(q.known)
    ensures var (m, st) := Generate(p.known, p.state);
            m.Some? ==> m.value.need <= Applied(q.known) && (m.value.changes.Some? ==> DepsHeld(m.value.changes.value, p, q))
  {
    ClosedCoreIsLargest(p.known);
    SelectedWithDeps(p.known, p.state);
  }

  /** What is selected is applied, or it is all there is. */
  lemma SelectedWithDeps(known: set<Change>, st: State)
    ensures var selection := SelectChanges(known, st);
            selection.Some? && selection.value.changes.Some? ==>
              selection.value.changes.value <= Applied(known) || selection.value.changes.value == known
  {
  }

  lemma SendKeepsAnswered(n: Net, n': Net)
    requires Inv(n) && Answered(n) && Send(n, n')
    ensures Answered(n')
  {
    GenerateIsAnswered(n.a, n.b, n.toB);
  }

  lemma DeliverKeepsAnswered(n: Net, n': Net)
    requires Inv(n) && Answered(n) && Deliver(n, n')
    ensures Answered(n')
  {
    var m := n.toA[0];
    assert m in n.toA;
    ClosedCoreMonotone(n.a.known, n'.a.known);
    DepsStayHeld(n, n');
    if m.changes.Some? {
      WantingAfter(n.a, n.b, m.changes.value);
    }
  }

  /** What arrived builds on what is there or can be asked for. */
  lemma WantingAfter(p: Peer, q: Peer, changes: set<Change>)
    requires DepsHeld(changes, q, p) && Wanting(p.known) <= Applied(q.known)
    ensures Wanting(p.known + changes) <= Applied(q.known)
  {
    ClosedCoreMonotone(p.known, p.known + changes);
    forall d | d in Wanting(p.known + changes)
      ensures d in Applied(q.known)
    {
      var c :| c in Queued(p.known + changes) && d in c.deps;
      if c in p.known {
        assert c in Queued(p.known);
      }
    }
  }

  lemma StepKeepsAnswered(n: Net, n': Net)
    requires Inv(n) && Answered(n) && Step(n, n')
    ensures Answered(n')
  {
    if StepA(n, n') {
      StepAKeepsAnswered(n, n');
    } else {
      StepAKeepsAnswered(Flip(n), Flip(n'));
    }
  }

  lemma StepAKeepsAnswered(n: Net, n': Net)
    requires Inv(n) && Answered(n) && StepA(n, n')
    ensures Answered(n')
  {
    if changes :| Grow(n, n', changes) {
      GrowKeepsAnswered(n, n', changes);
    } else if Send(n, n') {
      SendKeepsAnswered(n, n');
    } else if Deliver(n, n') {
      DeliverKeepsAnswered(n, n');
    }
  }

  lemma {:induction false} RunKeepsAnswered(run: seq<Net>, i: nat)
    requires IsRun(run) && i < |run| && Answered(run[0])
    ensures Answered(run[i])
  {
    if i > 0 {
      RunKeepsAnswered(run, i - 1);
      RunKeepsInv(run, i - 1);
      StepKeepsAnswered(run[i - 1], run[i]);
    }
  }

  // What holds in addition when each side has applied what the other queues.

  /** What p takes to be shared, or names as a sync point, q has applied. */
  ghost predicate Trusts(p: Peer, q: Peer, pq: seq<Message>) {
    && Queued(p.known) <= Applied(q.known)
    && p.state.sharedHeads <= Applied(q.known)
    && (q.state.theirHave.Some? ==> OwnHave(q.state.theirHave.value, q))
    && forall m :: m in pq ==> OwnHave(m.have, q)
  }

  ghost predicate Trusted(n: Net) {
    Trusts(n.a, n.b, n.toB) && Trusts(n.b, n.a, n.toA)
  }

  lemma TrustedIsAnswered(p: Peer, q: Peer)
    requires Queued(p.known) <= Applied(q.known)
    ensures Wanting(p.known) <= Applied(q.known)
  {
    ClosedCoreIsLargest(q.known);
  }

  lemma GrowKeepsTrusted(n: Net, n': Net, changes: set<Change>)
    requires Trusted(n) && Grow(n, n', changes)
    ensures Trusted(n')
  {
    ClosedCoreMonotone(n.a.known, n'.a.known);
  }

  lemma SendKeepsTrusted(n: Net, n': Net)
    requires Inv(n) && Trusted(n) && Send(n, n')
    ensures Trusted(n')
  {
  }

  /** New heads after a delivery are changes the sender holds. */
  lemma NewHeadsComeFromPeer(known: set<Change>, m: Message, peer: set<Change>)
    requires m.changes.Some? ==> m.changes.value <= peer
    requires Queued(known) <= Applied(peer) && Queued(peer) <= Applied(known)
    ensures GetHeads(KnownAfter(known, m)) - GetHeads(known) <= Applied(peer)
    ensures Queued(KnownAfter(known, m)) <= Applied(peer)
  {
    var known' := KnownAfter(known, m);
    ClosedCoreMonotone(known, known');
    forall c | c in known' && c !in Applied(known)
      ensures c in Applied(peer)
    {
    }
  }

  lemma DeliverKeepsTrusted(n: Net, n': Net)
    requires Inv(n) && Trusted(n) && Deliver(n, n')
    ensures Trusted(n')
  {
    var m := n.toA[0];
    assert m in n.toA && GoodMessage(m, n.b);
    ClosedCoreMonotone(n.a.known, n'.a.known);
    NewHeadsComeFromPeer(n.a.known, m, n.b.known);
  }

  lemma StepKeepsTrusted(n: Net, n': Net)
    requires Inv(n) && Trusted(n) && Step(n, n')
    ensures Trusted(n')
  {
    if StepA(n, n') {
      StepAKeepsTrusted(n, n');
    } else {
      StepAKeepsTrusted(Flip(n), Flip(n'));
    }
  }

  lemma StepAKeepsTrusted(n: Net, n': Net)
    requires Inv(n) && Trusted(n) && StepA(n, n')
    ensures Trusted(n')
  {
    if changes :| Grow(n, n', changes) {
      GrowKeepsTrusted(n, n', changes);
    } else if Send(n, n') {
      SendKeepsTrusted(n, n');
    } else if Deliver(n, n') {
      DeliverKeepsTrusted(n, n');
    }
  }

  lemma {:induction false} RunKeepsTrusted(run: seq<Net>, i: nat)
    requires IsRun(run) && i < |run| && Trusted(run[0])
    ensures Trusted(run[i])
  {
    if i > 0 {
      RunKeepsTrusted(run, i - 1);
      RunKeepsInv(run, i - 1);
      StepKeepsTrusted(run[i - 1], run[i]);
    }
  }

  // Heads that are shared.

  /** What waits in either queue is applied at the other side. */
  ghost predicate QueuesCovered(n: Net) {
    Queued(n.a.known) <= Applied(n.b.known) && Queued(n.b.known) <= Applied(n.a.known)
  }

  /** What peer p takes to be shared is held by both; what it is asked for, it
      has.  So it does not restart the session, and does not give up on a message
      because a requested change is missing. */
  ghost predicate SharedAt(p: Peer, q: Peer, qp: seq<Message>) {
    && p.state.sharedHeads <= Applied(p.known) * Applied(q.known)
    && (p.state.theirNeed.Some? ==> p.state.theirNeed.value <= Applied(p.known))
    && (forall m :: m in qp ==> m.need <= Applied(p.known))
    && !MustReset(p.known, p.state)
    && SelectChanges(p.known, p.state).Some?
  }

  ghost predicate Shared(n: Net) {
    SharedAt(n.a, n.b, n.toA) && SharedAt(n.b, n.a, n.toB)
  }

  /** A peer that is asked for what it has applied can select what to send. */
  lemma AnswersAreSelected(p: Peer, q: Peer, qp: seq<Message>)
    requires Answers(p, q, qp)
    ensures SelectChanges(p.known, p.state).Some?
  {
  }

  lemma CoveredIsTrusted(n: Net)
    requires Initial(n) && QueuesCovered(n)
    ensures Trusted(n) && Answered(n)
  {
    TrustedIsAnswered(n.a, n.b);
    TrustedIsAnswered(n.b, n.a);
  }

  lemma SharedHeadsAreShared(run: seq<Net>, i: nat)
    requires IsRun(run) && i < |run| && QueuesCovered(run[0])
    ensures Shared(run[i])
  {
    CoveredIsTrusted(run[0]);
    RunKeepsInv(run, i);
    RunKeepsAnswered(run, i);
    RunKeepsTrusted(run, i);
    AnswersAreSelected(run[i].a, run[i].b, run[i].toA);
    AnswersAreSelected(run[i].b, run[i].a, run[i].toB);
  }

  ghost predicate UsableHave(have: seq<Have>) {
    forall h :: h in have ==> Usable(h.bloom)
  }

  ghost predicate UsableSide(p: Peer, pq: seq<Message>) {
    && (p.state.theirHave.Some? ==> UsableHave(p.state.theirHave.value))
    && forall m :: m in pq ==> UsableHave(m.have)
  }

  ghost predicate UsableNet(n: Net) {
    UsableSide(n.a, n.toB) && UsableSide(n.b, n.toA)
  }

  lemma OurHaveIsUsable(known: set<Change>, st: State)
    ensures UsableHave(OurHave(known, st)) && UsableHave(ResetMessage(known).have)
  {
    var hashes := GetHashes(Applied(known), st.sharedHeads);
    FilterIsUsable(|hashes|, hashes);
  }

  lemma StepAKeepsUsable(n: Net, n': Net)
    requires UsableNet(n) && StepA(n, n')
    ensures UsableNet(n')
  {
    if Send(n, n') {
      OurHaveIsUsable(n.a.known, n.a.state);
    }
  }

  /** A filter that a peer looks into always has bits to probe, so that probing
      never divides by zero. */
  lemma {:induction false} FiltersAreUsable(run: seq<Net>, i: nat)
    requires IsRun(run) && i < |run|
    ensures UsableNet(run[i])
  {
    if i > 0 {
      FiltersAreUsable(run, i - 1);
      if StepA(run[i - 1], run[i]) {
        StepAKeepsUsable(run[i - 1], run[i]);
      } else {
        StepAKeepsUsable(Flip(run[i - 1]), Flip(run[i]));
      }
    }
  }

  /** A hash that is not sent again is in a message on its way, or already
      applied or queued at the other side. */
  lemma SuppressionIsSafe(run: seq<Net>, i: nat, c: Change)
    requires IsRun(run) && i < |run|
    ensures c in run[i].a.state.sentHashes ==> OnItsWay(c, run[i].b, run[i].toB)
    ensures c in run[i].b.state.sentHashes ==> OnItsWay(c, run[i].a, run[i].toA)
  {
    RunKeepsInv(run, i);
  }

  /** Nothing on its way, and neither peer has anything to say. */
  ghost predicate AtRest(n: Net) {
    && n.toA == n.toB == []
    && Generate(n.a.known, n.a.state).0 == None
    && Generate(n.b.known, n.b.state).0 == None
  }

  /** What the queue of either side misses is applied at the other. */
  ghost predicate QueuesAnswered(n: Net) {
    Wanting(n.a.known) <= Applied(n.b.known) && Wanting(n.b.known) <= Applied(n.a.known)
  }

  /** Both hold the same changes, all of them applied. */
  ghost predicate Agreed(n: Net) {
    n.a.known == n.b.known == Applied(n.a.known) && GetHeads(n.a.known) == GetHeads(n.b.known)
  }

  /** At rest the documents agree, and nothing is left in either queue. */
  lemma AgreementAtRest(run: seq<Net>, i: nat)
    requires IsRun(run) && i < |run| && QueuesAnswered(run[0]) && AtRest(run[i])
    ensures Agreed(run[i])
  {
    RunKeepsInv(run, i);
    RunKeepsAnswered(run, i);
    RestIsAgreement(run[i]);
  }

  lemma RestIsAgreement(n: Net)
    requires Inv(n) && Answered(n) && AtRest(n)
    ensures Agreed(n)
  {
    AnswersAreSelected(n.a, n.b, n.toA);
    AnswersAreSelected(n.b, n.a, n.toB);
    if n.a.state.inFlight {
      QuietMeansAgreement(n.b, n.a);
    } else {
      QuietMeansAgreement(n.a, n.b);
    }
  }

  /** A queue always waits for something. */
  lemma QueueWaits(known: set<Change>)
    ensures Wanting(known) == {} <==> known == Applied(known)
  {
    ClosedCoreIsLargest(known);
    if known != Applied(known) {
      var c :| c in known && c !in Applied(known);
      var w, m := WaitsForMissing(known, c);
      assert m in Wanting(known);
    }
  }

  /** A peer that is content with the other's heads, against one that has told
      its own. */
  lemma QuietMeansAgreement(q: Peer, p: Peer)
    requires Side(q, p, []) && Side(p, q, [])
    requires Wanting(p.known) <= Applied(q.known) && Wanting(q.known) <= Applied(p.known)
    requires p.state.lastSentHeads == GetHeads(p.known)
    requires q.state.theirHeads == Some(GetHeads(q.known))
    ensures p.known == q.known == Applied(p.known)
  {
    ClosedCoreIsLargest(p.known);
    ClosedCoreIsLargest(q.known);
    HeadsIncluded(Applied(q.known), Applied(p.known));
    HeadsIncluded(Applied(p.known), Applied(q.known));
    HeadsDetermine(Applied(p.known), Applied(q.known));
    QueueWaits(p.known);
    QueueWaits(q.known);
  }
}
