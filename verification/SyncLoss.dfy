/**
Peers that lose all their data.  The other side hears it from a message without
heads, and sends everything again.
*/
module SyncLoss {
  import opened Wrappers
  import opened Dag
  import opened Bloom
  import opened SyncProtocol
  import opened SyncRuns
  import opened SyncConvergence

  /** The first message of a peer that starts over empty. */
  function Hello(capabilities: Option<seq<Capability>>, version: MessageVersion): Message {
    Message({}, {}, [Have({}, EmptyFilter)], None, capabilities, version)
  }

  lemma HelloIsFirst()
    ensures Generate({}, NewState).0 == Some(Hello(Some([CapabilityV1, CapabilityV2]), V1))
  {
    EmptyHeads({});
    assert GetHashes({}, {}) == {};
    assert FilterOf(0, {}) == EmptyFilter;
  }

  /** p was told that the other side has nothing, and has forgotten what it
      sent. */
  ghost predicate Cleared(st: State) {
    && st.sharedHeads == st.lastSentHeads == st.sentHashes == {}
    && st.theirHeads == Some({}) && st.theirNeed == Some({}) && st.theirHave == Some([Have({}, EmptyFilter)])
    && !st.inFlight
  }

  lemma HelloClears(known: set<Change>, st: State, capabilities: Option<seq<Capability>>, version: MessageVersion)
    ensures Cleared(Receive(known, st, Hello(capabilities, version)))
  {
    assert {} <= Applied(known);
  }

  lemma ClearedSelects(known: set<Change>, st: State)
    requires Cleared(st)
    ensures !MustReset(known, st) && SelectChanges(known, st).Some?
    ensures var selection := SelectChanges(known, st).value;
            && selection.hashes == Applied(known)
            && (Applied(known) != {} ==> selection.changes.Some? && Applied(known) <= selection.changes.value <= known)
  {
    AllIsPicked(Applied(known), st.theirHave.value);
    assert Applied(known) - {} == Applied(known);
    ClosedCoreIsLargest(known);
  }

  lemma ClearedSpeaks(known: set<Change>, st: State)
    requires Cleared(st) && Applied(known) != {}
    ensures var reply := Generate(known, st).0;
            && reply.Some? && reply.value.heads == GetHeads(known) && reply.value.need == Wanting(known)
            && reply.value.changes.Some? && Applied(known) <= reply.value.changes.value <= known
  {
    ClearedSelects(known, st);
    EmptyHeads(known);
  }

  /** After a first message like that, whatever was sent before and whatever the
      peer can read, the next message carries every applied change. */
  lemma LostPeerIsSentAll(known: set<Change>, st: State, capabilities: Option<seq<Capability>>, version: MessageVersion)
    requires Applied(known) != {}
    ensures var reply := Generate(known, Receive(known, st, Hello(capabilities, version))).0;
            && reply.Some? && reply.value.heads == GetHeads(known)
            && reply.value.changes.Some? && Applied(known) <= reply.value.changes.value <= known
  {
    HelloClears(known, st, capabilities, version);
    ClearedSpeaks(known, Receive(known, st, Hello(capabilities, version)));
  }

  // In a run.

  /** Peer a loses document and state; what is on its way is lost as well. */
  ghost predicate Lose(n: Net, n': Net) {
    n' == Net(Peer({}, NewState), n.b, [], [])
  }

  /** What a peer notes about itself, it has applied. */
  ghost predicate Honest(p: Peer) {
    p.state.sharedHeads + p.state.lastSentHeads + p.state.sentHashes <= Applied(p.known)
  }

  /** Peer a starts over with what it has, which is all applied. */
  ghost predicate StartsOver(n: Net) {
    n.a == Peer(Applied(n.a.known), NewState) && n.toA == n.toB == [] && Honest(n.b)
  }

  lemma StepAKeepsHonest(n: Net, n': Net)
    requires StepA(n, n') && Honest(n.a) && Honest(n.b)
    ensures Honest(n'.a) && Honest(n'.b)
  {
    ClosedCoreMonotone(n.a.known, n.a.known + n'.a.known);
    assert n.a.known <= n'.a.known ==> n.a.known + n'.a.known == n'.a.known;
  }

  lemma {:induction false} RunKeepsHonest(run: seq<Net>, i: nat)
    requires IsRun(run) && i < |run|
    ensures Honest(run[i].a) && Honest(run[i].b)
  {
    if i > 0 {
      RunKeepsHonest(run, i - 1);
      if StepA(run[i - 1], run[i]) {
        StepAKeepsHonest(run[i - 1], run[i]);
      } else {
        StepAKeepsHonest(Flip(run[i - 1]), Flip(run[i]));
      }
    }
  }

  lemma StartsOverAfter(n: Net, lost: Net, grown: Net, changes: set<Change>)
    requires Honest(n.b) && Lose(n, lost) && Grow(lost, grown, changes)
    ensures StartsOver(grown) && grown.a.known == changes && grown.b == n.b
  {
    assert {} + changes == changes;
  }

  /** The changes in p's next message. */
  function Carried(p: Peer): set<Change> {
    if Speaks(p) && MessageOf(p).value.changes.Some? then MessageOf(p).value.changes.value else {}
  }

  /** What a peer says that starts over with `own`. */
  function Greeting(own: set<Change>): Message {
    Message(GetHeads(own), {}, [MakeHave(own, {})], None, Some(OUR_CAPABILITIES), V1)
  }

  lemma GreetingIsFirst(own: set<Change>)
    requires own == Applied(own)
    ensures Generate(own, NewState)
         == (Some(Greeting(own)), NewState.(haveResponded := true, lastSentHeads := GetHeads(own), inFlight := true))
  {
    QueueWaits(own);
  }

  /** b has heard the greeting, and has noted as sent only what a has. */
  ghost predicate Heard(b: Peer, a: Peer, own: set<Change>) {
    && b.state.theirHeads == Some(GetHeads(own)) && b.state.theirNeed == Some({})
    && b.state.theirHave == Some([MakeHave(own, {})]) && !b.state.inFlight
    && b.state.sentHashes <= a.known && Honest(b)
  }

  /** a has greeted, and has heard b, if b spoke. */
  ghost predicate Greeted(a: Peer, b: Peer, own: set<Change>) {
    && own == Applied(own) && own <= a.known <= own + b.known
    && a.state.haveResponded && a.state.sentHashes == {} && a.state.sharedHeads <= Applied(a.known)
    && (a.state.lastSentHeads == GetHeads(own) || GetHeads(b.known) == a.state.lastSentHeads == {})
    && (a.state.theirHeads.Some? ==> a.state.theirHeads.value == GetHeads(b.known))
    && (a.state.theirNeed.Some? ==> a.state.theirHave.Some?)
    && (a.state.theirHave.Some? ==> OwnHave(a.state.theirHave.value, b))
    && (a.state.inFlight || a.state.theirHeads.Some?)
  }

  /** What a receiver takes to be shared it has itself. */
  lemma OwnSharedStays(known: set<Change>, st: State, m: Message)
    requires st.sharedHeads <= Applied(known)
    ensures Receive(known, st, m).sharedHeads <= Applied(KnownAfter(known, m))
  {
    ClosedCoreMonotone(known, KnownAfter(known, m));
  }

  /** Of what b noted as sent, a has everything when a round is over. */
  ghost predicate Remembered(n: Net) {
    n.a.known == {} || n.b.state.sentHashes <= n.a.known + Carried(n.b)
  }

  lemma NotedIsApplied(p: Peer)
    requires Honest(p)
    ensures Honest(Peer(p.known, Generate(p.known, p.state).1))
    ensures Generate(p.known, p.state).1.sentHashes <= p.state.sentHashes + Carried(p)
  {
    SelectedIsKnown(p.known, p.state);
  }

  lemma HearsGreeting(known: set<Change>, st: State, own: set<Change>)
    requires own == Applied(own)
    ensures var st' := Receive(known, st, Greeting(own));
            && st'.theirHeads == Some(GetHeads(own)) && st'.theirNeed == Some({})
            && st'.theirHave == Some([MakeHave(own, {})]) && !st'.inFlight
            && st'.sentHashes <= (if own == {} then {} else st.sentHashes)
            && st'.lastSentHeads <= st.lastSentHeads + GetHeads(known)
  {
    EmptyHeads(own);
  }

  lemma GreetingIsHeard(n: Net)
    requires StartsOver(n) && Remembered(n)
    ensures Heard(Round(n).b, Round(n).a, n.a.known) && Round(n).b.known == n.b.known
  {
    var own, st := n.a.known, Generate(n.b.known, n.b.state).1;
    NotedIsApplied(n.b);
    assert Round(n).a.known == own + Carried(n.b);
    GreetingIsFirst(own);
    assert Round(n).b == Peer(n.b.known, Receive(n.b.known, st, Greeting(own)));
    HearsGreeting(n.b.known, st, own);
    OwnSharedStays(n.b.known, st, Greeting(own));
  }

  lemma MessageIsOwn(q: Peer)
    requires Speaks(q) && Honest(q)
    ensures MessageOf(q).value.heads == GetHeads(q.known) && OwnHave(MessageOf(q).value.have, q)
  {
  }

  lemma GreetingIsSaid(n: Net)
    requires StartsOver(n)
    ensures Greeted(Round(n).a, n.b, n.a.known)
    ensures Speaks(n.b) ==> Round(n).a.state.theirHeads.Some?
  {
    var own := n.a.known;
    var st := Generate(own, NewState).1;
    GreetingIsFirst(own);
    ExchangeConserves(n.a, n.b);
    if Speaks(n.b) {
      var m := MessageOf(n.b).value;
      MessageIsOwn(n.b);
      assert Round(n).a == Peer(KnownAfter(own, m), Receive(own, st, m));
      OwnSharedStays(own, st, m);
    } else {
      assert Round(n).a == Peer(own, st);
    }
  }

  /** With what b announced left out, the invariant holds. */
  function Unannounced(n: Net): Net {
    n.(b := n.b.(state := n.b.state.(lastSentHeads := {})))
  }

  lemma GreetedKeepsInv(n: Net, own: set<Change>)
    requires n.toA == n.toB == [] && Heard(n.b, n.a, own) && Greeted(n.a, n.b, own)
    ensures Inv(Unannounced(n))
    ensures n.a.state.theirHeads.Some? ==> Inv(n)
  {
    ClosedCoreMonotone(own, n.a.known);
    ClosedCoreIsLargest(n.b.known);
    ClosedCoreIsLargest(own);
  }

  lemma SpeaksAnyway(known: set<Change>, st: State)
    requires !MustReset(known, st) && Generate(known, st).0.Some? && st.lastSentHeads <= Applied(known)
    ensures Generate(known, st.(lastSentHeads := {})) == Generate(known, st)
  {
    var st' := st.(lastSentHeads := {});
    EmptyHeads(known);
    assert SelectChanges(known, st') == SelectChanges(known, st);
    assert st'.(lastSentHeads := GetHeads(known)) == st.(lastSentHeads := GetHeads(known));
  }

  /** What a side asks for that has heard of q's heads, if anything. */
  lemma AsksSensibly(p: Peer, q: Peer)
    requires p.state.theirHeads.Some? ==> p.state.theirHeads.value <= Applied(q.known)
    ensures Speaks(p) ==> GoodNeed(MessageOf(p).value.need, p, q)
  {
  }

  lemma NeedAfter(p: Peer, q: Peer)
    ensures Exchange(p, q).state.theirNeed == if Speaks(q) then Some(MessageOf(q).value.need) else p.state.theirNeed
  {
  }

  lemma SecondRoundAsks(n: Net, own: set<Change>)
    requires n.toA == n.toB == [] && Heard(n.b, n.a, own) && Greeted(n.a, n.b, own) && Speaks(n.b)
    ensures Sensible(Round(n))
  {
    RoundConserves(n);
    ClosedCoreMonotone(own, n.a.known);
    ClosedCoreMonotone(n.a.known, Round(n).a.known);
    ClosedCoreMonotone(n.b.known, Round(n).b.known);
    NeedAfter(n.a, n.b);
    NeedAfter(n.b, n.a);
    AsksSensibly(n.a, n.b);
    AsksSensibly(n.b, n.a);
  }

  /** What waits at p after an exchange can be asked for, and what q asks for is
      there. */
  lemma ExchangeAnswers(p: Peer, q: Peer)
    requires Wanting(p.known) <= Applied(q.known) && Wanting(q.known) <= Applied(p.known)
    ensures Wanting(Exchange(p, q).known) <= Applied(q.known)
    ensures Speaks(q) && (q.state.theirHeads.Some? ==> q.state.theirHeads.value <= Applied(p.known)) ==>
      MessageOf(q).value.need <= Applied(p.known)
  {
    if Speaks(q) && MessageOf(q).value.changes.Some? {
      ClosedCoreIsLargest(q.known);
      SelectedWithDeps(q.known, q.state);
      assert DepsHeld(Carried(q), q, p);
      WantingAfter(p, q, Carried(q));
    }
  }

  lemma SecondRoundAnswers(n: Net, own: set<Change>)
    requires n.toA == n.toB == [] && Heard(n.b, n.a, own) && Greeted(n.a, n.b, own) && Speaks(n.b)
    requires QueuesAnswered(n)
    ensures Answered(Round(n))
  {
    RoundConserves(n);
    ClosedCoreMonotone(own, n.a.known);
    ClosedCoreMonotone(n.a.known, Round(n).a.known);
    ClosedCoreMonotone(n.b.known, Round(n).b.known);
    NeedAfter(n.a, n.b);
    NeedAfter(n.b, n.a);
    ExchangeAnswers(n.a, n.b);
    ExchangeAnswers(n.b, n.a);
  }

  lemma SecondRound(n: Net, own: set<Change>)
    requires n.toA == n.toB == [] && Heard(n.b, n.a, own) && Greeted(n.a, n.b, own) && Speaks(n.b)
    ensures Settled(Round(n)) && (QueuesAnswered(n) ==> Answered(Round(n)))
    ensures Round(n).a.known + Round(n).b.known == n.a.known + n.b.known
  {
    GreetedKeepsInv(n, own);
    AllAsked(n.b.known, n.b.state, own);
    SpeaksAnyway(n.b.known, n.b.state);
    assert Round(Unannounced(n)) == Round(n);
    RoundKeepsInv(Unannounced(n));
    SecondRoundAsks(n, own);
    RoundConserves(n);
    if QueuesAnswered(n) {
      SecondRoundAnswers(n, own);
    }
  }

  /** If b has nothing to say to the greeting, what it has applied is just what
      the other side has. */
  lemma SilentMeansSame(n: Net, own: set<Change>)
    requires Heard(n.b, n.a, own) && Greeted(n.a, n.b, own) && !Speaks(n.b)
    ensures Applied(n.b.known) == Applied(n.a.known) == own
  {
    ClosedCoreIsLargest(n.b.known);
    ClosedCoreIsLargest(own);
    HeadsDetermine(Applied(n.b.known), own);
    AllAsked(n.b.known, n.b.state, own);
    ClosedCoreMonotone(own, n.a.known);
    ClosedCoreMonotone(n.a.known, n.b.known);
  }

  /** To a greeting there is always something that can be selected. */
  lemma AllAsked(known: set<Change>, st: State, own: set<Change>)
    requires st.theirNeed == Some({}) && st.theirHave == Some([MakeHave(own, {})])
    ensures !MustReset(known, st) && SelectChanges(known, st).Some?
  {
  }

  /** A peer that has announced its heads, has heard of no others and speaks
      again, has what it is asked for. */
  lemma SpeaksOfWhatIsThere(p: Peer)
    requires Speaks(p) && !Resets(p) && Spoke(p) && p.state.sentHashes == {}
    requires p.state.theirHeads.Some? ==> p.state.theirHeads.value == GetHeads(p.known)
    ensures p.state.theirNeed.Some? && p.state.theirHave.Some? ==> p.state.theirNeed.value <= Applied(p.known)
    ensures !p.state.inFlight
  {
    EmptyHeads(p.known);
    if p.state.theirNeed.Some? && p.state.theirHave.Some? {
      var need := p.state.theirNeed.value;
      assert need <= HashesToSend(Applied(p.known), p.state.theirHave.value, need) - {};
    }
  }

  lemma SpokeToSame(n: Net, own: set<Change>)
    requires Heard(n.b, n.a, own) && Greeted(n.a, n.b, own) && Applied(n.b.known) == Applied(n.a.known) == own
    ensures !Resets(n.a) && Spoke(n.a)
  {
    assert GetHeads(n.b.known) == GetHeads(own) == GetHeads(n.a.known);
    if n.a.state.theirHave.Some? && n.a.state.theirHave.value != [] {
      var have := n.a.state.theirHave.value;
      assert have[0] in have;
    }
  }

  /** Then a speaks only if what it is asked for is there. */
  lemma SpeaksToSame(n: Net, own: set<Change>)
    requires n.toA == n.toB == [] && Heard(n.b, n.a, own) && Greeted(n.a, n.b, own) && !Speaks(n.b) && Speaks(n.a)
    ensures n.a.state.theirHeads.Some?
    ensures n.a.state.theirNeed.Some? ==> n.a.state.theirNeed.value <= Applied(n.a.known)
  {
    SilentMeansSame(n, own);
    SpokeToSame(n, own);
    SpeaksOfWhatIsThere(n.a);
  }

  lemma SpeakingIsSettled(n: Net, own: set<Change>)
    requires n.toA == n.toB == [] && Heard(n.b, n.a, own) && Greeted(n.a, n.b, own) && !Speaks(n.b) && Speaks(n.a)
    ensures Settled(n) && (QueuesAnswered(n) ==> Answered(n))
  {
    SpeaksToSame(n, own);
    assert Inv(n) by {
      GreetedKeepsInv(n, own);
    }
    assert Asks(n.a, n.b, []) && Asks(n.b, n.a, []);
  }

  /** Neither side has anything more to say, and nothing was lost since the
      start. */
  ghost predicate MadeGood(n: Net, start: Net) {
    && AtRest(n) && n.a.known + n.b.known == start.a.known + start.b.known
    && (QueuesAnswered(start) ==> Agreed(n))
  }

  lemma SilentAfterGreeting(n: Net, own: set<Change>)
    requires n.toA == n.toB == [] && Heard(n.b, n.a, own) && Greeted(n.a, n.b, own)
    requires !Speaks(n.a) && !Speaks(n.b) && QueuesAnswered(n)
    ensures Agreed(n)
  {
    SilentMeansSame(n, own);
    QueueWaits(n.a.known);
    QueueWaits(n.b.known);
  }

  lemma GreetingAnswers(n: Net)
    requires StartsOver(n) && QueuesAnswered(n)
    ensures QueuesAnswered(Round(n))
  {
    GreetingIsFirst(n.a.known);
    ExchangeAnswers(n.a, n.b);
    ExchangeConserves(n.a, n.b);
    ClosedCoreMonotone(n.a.known, Round(n).a.known);
  }

  lemma OneRoundBefore(n: Net, later: seq<Net>)
    requires Rounds(later) && later[0] == Round(n)
    ensures Rounds([n] + later) && ([n] + later)[|later|] == later[|later| - 1]
  {
  }

  lemma RestIsMadeGood(n: Net, start: Net, end: Net)
    requires Rested(end, n) && n.a.known + n.b.known == start.a.known + start.b.known
    requires QueuesAnswered(start) ==> Answered(n)
    ensures MadeGood(end, start)
  {
  }

  lemma AfterGreeting(n: Net, own: set<Change>) returns (states: seq<Net>)
    requires n.toA == n.toB == [] && Heard(n.b, n.a, own) && Greeted(n.a, n.b, own)
    ensures Rounds(states) && states[0] == n && MadeGood(states[|states| - 1], n)
  {
    if Speaks(n.b) {
      SecondRound(n, own);
      states := RoundsReachRest(Round(n));
      RestIsMadeGood(Round(n), n, states[|states| - 1]);
      OneRoundBefore(n, states);
      states := [n] + states;
    } else if Speaks(n.a) {
      SpeakingIsSettled(n, own);
      states := RoundsReachRest(n);
      RestIsMadeGood(n, n, states[|states| - 1]);
    } else {
      if QueuesAnswered(n) {
        SilentAfterGreeting(n, own);
      }
      states := [n];
    }
  }

  /** Rounds come to rest, and no more is lost.  If what the queue of the other
      side waits for is there again, the documents then agree. */
  lemma LossIsMadeGood(n: Net) returns (states: seq<Net>)
    requires StartsOver(n) && Remembered(n)
    ensures Rounds(states) && states[0] == n && MadeGood(states[|states| - 1], n)
  {
    GreetingIsHeard(n);
    GreetingIsSaid(n);
    RoundConserves(n);
    states := AfterGreeting(Round(n), n.a.known);
    OneRoundBefore(n, states);
    if QueuesAnswered(n) {
      GreetingAnswers(n);
    }
    states := [n] + states;
  }

  // Peers that commit before they speak.

  /** b has noted as sent what a does not have, and takes a for a peer with
      data. */
  ghost predicate Withheld(n: Net, c: Change) {
    && c in n.b.state.sentHashes && c in Applied(n.b.known) && c !in n.a.known
    && Applied(n.a.known) != {} && n.b.state.theirHeads != Some({})
  }

  lemma NotSent(b: Peer, c: Change)
    requires c in b.state.sentHashes && b.state.theirHeads != Some({})
    ensures c !in Carried(b) && c in Generate(b.known, b.state).1.sentHashes
  {
  }

  lemma NotTrimmed(known: set<Change>, st: State, m: Message, c: Change)
    requires c in st.sentHashes && m.heads != {} && c !in AncestorsOf(m.heads)
    ensures c in Receive(known, st, m).sentHashes && Receive(known, st, m).theirHeads != Some({})
  {
  }

  /** What a's message does not tell b stays noted. */
  lemma NotForgotten(a: Peer, b: Peer, c: Change)
    requires c in b.state.sentHashes && c !in a.known && Applied(a.known) != {}
    requires b.state.theirHeads != Some({}) || Speaks(a)
    ensures c in Exchange(b, a).state.sentHashes && Exchange(b, a).state.theirHeads != Some({})
  {
    var st := Generate(b.known, b.state).1;
    assert c in st.sentHashes && st.theirHeads == b.state.theirHeads;
    if Speaks(a) {
      EmptyHeads(a.known);
      ClosedCoreIsLargest(a.known);
      AncestorsOfInClosed(Applied(a.known), GetHeads(a.known));
      NotTrimmed(b.known, st, MessageOf(a).value, c);
    }
  }

  /** No round brings it. */
  lemma WithheldStays(n: Net, c: Change)
    requires Withheld(n, c)
    ensures Withheld(Round(n), c) && !Agreed(Round(n))
  {
    NotSent(n.b, c);
    WithheldAfter(n, c);
  }

  lemma WithheldAfter(n: Net, c: Change)
    requires c in n.b.state.sentHashes && c in Applied(n.b.known) && c !in n.a.known + Carried(n.b)
    requires Applied(n.a.known) != {} && (n.b.state.theirHeads != Some({}) || Speaks(n.a))
    ensures Withheld(Round(n), c) && !Agreed(Round(n))
  {
    NotForgotten(n.a, n.b, c);
    RoundConserves(n);
    ClosedCoreMonotone(n.a.known, Round(n).a.known);
    ClosedCoreMonotone(n.b.known, Round(n).b.known);
    ClosedCoreIsLargest(Round(n).b.known);
  }

  /** What b noted as sent, and the other side has no more when it starts over, it
      is never sent again, however many rounds follow. */
  lemma {:induction false} LossGoesUnnoticed(states: seq<Net>, i: nat, c: Change)
    requires Rounds(states) && i < |states| && StartsOver(states[0]) && states[0].a.known != {}
    requires c in states[0].b.state.sentHashes && c !in states[0].a.known + Carried(states[0].b)
    ensures !Agreed(states[i]) && (i > 0 ==> Withheld(states[i], c))
  {
    ClosedCoreIsLargest(states[0].b.known);
    if i == 1 {
      GreetingIsFirst(states[0].a.known);
      WithheldAfter(states[0], c);
    } else if i > 1 {
      LossGoesUnnoticed(states, i - 1, c);
      WithheldStays(states[i - 1], c);
    }
  }

  /** Rounds that come to rest with equal documents. */
  ghost predicate CanAgree(n: Net) {
    exists states :: Rounds(states) && states[0] == n && AtRest(states[|states| - 1]) && Agreed(states[|states| - 1])
  }

  /** At any point of any run one side loses everything: rounds come to rest, and
      no more is lost.  If the queue of the other side waits for nothing, the
      documents then agree. */
  lemma RunSurvivesLoss(run: seq<Net>, i: nat, lost: Net) returns (states: seq<Net>)
    requires IsRun(run) && i < |run| && Lose(run[i], lost)
    ensures Rounds(states) && states[0] == lost && MadeGood(states[|states| - 1], lost)
  {
    RunKeepsHonest(run, i);
    states := LossIsMadeGood(lost);
  }

  /** And it may commit again before it speaks.  Then the documents come to agree
      if and only if that was nothing, or the other side noted as sent only what is
      there again or in its next message. */
  lemma CommitAfterLoss(run: seq<Net>, i: nat, lost: Net, grown: Net, changes: set<Change>)
    requires IsRun(run) && i < |run| && Lose(run[i], lost) && Grow(lost, grown, changes)
    requires Wanting(run[i].b.known) <= changes
    ensures CanAgree(grown) <==> changes == {} || run[i].b.state.sentHashes <= changes + Carried(run[i].b)
  {
    RunKeepsHonest(run, i);
    StartsOverAfter(run[i], lost, grown, changes);
    QueueWaits(changes);
    if Remembered(grown) {
      var states := LossIsMadeGood(grown);
    } else {
      var c :| c in grown.b.state.sentHashes && c !in grown.a.known + Carried(grown.b);
      forall states | Rounds(states) && states[0] == grown
        ensures !Agreed(states[|states| - 1])
      {
        LossGoesUnnoticed(states, |states| - 1, c);
      }
    }
  }
}
