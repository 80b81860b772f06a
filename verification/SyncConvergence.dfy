/**
Two peers that keep exchanging messages in rounds come to rest, and then agree.

A round is what a sync loop does once: both peers generate, then both receive.
The potential below drops with every round that is not the last, whatever false
positives the Bloom filters produce.
*/
module SyncConvergence {
  import opened Wrappers
  import opened Dag
  import opened Bloom
  import opened SyncProtocol
  import opened SyncRuns
  import opened SyncSelection

  function MessageOf(p: Peer): Option<Message> {
    Generate(p.known, p.state).0
  }

  predicate Speaks(p: Peer) {
    MessageOf(p).Some?
  }

  /** Peer p after it generated, and then received what q generated. */
  function Exchange(p: Peer, q: Peer): Peer {
    var st := Generate(p.known, p.state).1;
    match MessageOf(q)
    case None => Peer(p.known, st)
    case Some(m) => Peer(KnownAfter(p.known, m), Receive(p.known, st, m))
  }

  function Round(n: Net): Net {
    Net(Exchange(n.a, n.b), Exchange(n.b, n.a), [], [])
  }

  /** The invariant holds, and nothing is on its way. */
  ghost predicate Settled(n: Net) {
    Inv(n) && Sensible(n) && n.toA == n.toB == []
  }

  ghost predicate Sides(p: Peer, q: Peer) {
    Side(p, q, []) && Side(q, p, [])
  }

  ghost predicate Asking(p: Peer, q: Peer) {
    Asks(p, q, []) && Asks(q, p, [])
  }

  /** Peer a generates; its message, if any, goes on its way. */
  function Sent(n: Net): Net {
    if Speaks(n.a) then n.(a := n.a.(state := Generate(n.a.known, n.a.state).1), toB := n.toB + [MessageOf(n.a).value]) else n
  }

  lemma SentKeeps(n: Net)
    requires Inv(n)
    ensures Inv(Sent(n))
    ensures Sensible(n) ==> Sensible(Sent(n))
    ensures Answered(n) ==> Answered(Sent(n))
    ensures Trusted(n) ==> Trusted(Sent(n))
  {
    if Speaks(n.a) {
      assert Send(n, Sent(n));
      SendKeepsInv(n, Sent(n));
      if Sensible(n) {
        StepAKeepsSensible(n, Sent(n));
      }
      if Answered(n) {
        SendKeepsAnswered(n, Sent(n));
      }
      if Trusted(n) {
        SendKeepsTrusted(n, Sent(n));
      }
    }
  }

  /** Peer a receives what is on its way, if anything. */
  function Delivered(n: Net): Net {
    if n.toA == [] then n else
      n.(a := Peer(KnownAfter(n.a.known, n.toA[0]), Receive(n.a.known, n.a.state, n.toA[0])), toA := n.toA[1..])
  }

  lemma DeliveredKeeps(n: Net)
    requires Inv(n)
    ensures Inv(Delivered(n))
    ensures Sensible(n) ==> Sensible(Delivered(n))
    ensures Answered(n) ==> Answered(Delivered(n))
    ensures Trusted(n) ==> Trusted(Delivered(n))
  {
    if n.toA != [] {
      assert Deliver(n, Delivered(n));
      DeliverKeepsInv(n, Delivered(n));
      if Sensible(n) {
        StepAKeepsSensible(n, Delivered(n));
      }
      if Answered(n) {
        DeliverKeepsAnswered(n, Delivered(n));
      }
      if Trusted(n) {
        DeliverKeepsTrusted(n, Delivered(n));
      }
    }
  }

  lemma FlipKeeps(n: Net)
    ensures Inv(Flip(n)) <==> Inv(n)
    ensures Sensible(Flip(n)) <==> Sensible(n)
    ensures Answered(Flip(n)) <==> Answered(n)
    ensures Trusted(Flip(n)) <==> Trusted(n)
    ensures Flip(Flip(n)) == n
  {
  }

  lemma BothSentKeeps(n: Net)
    requires Inv(n)
    ensures var n' := Flip(Sent(Flip(Sent(n))));
            Inv(n') && (Sensible(n) ==> Sensible(n')) && (Answered(n) ==> Answered(n')) && (Trusted(n) ==> Trusted(n'))
  {
    SentKeeps(n);
    FlipKeeps(Sent(n));
    SentKeeps(Flip(Sent(n)));
    FlipKeeps(Sent(Flip(Sent(n))));
  }

  lemma BothDeliveredKeeps(n: Net)
    requires Inv(n)
    ensures var n' := Flip(Delivered(Flip(Delivered(n))));
            Inv(n') && (Sensible(n) ==> Sensible(n')) && (Answered(n) ==> Answered(n')) && (Trusted(n) ==> Trusted(n'))
  {
    DeliveredKeeps(n);
    FlipKeeps(Delivered(n));
    DeliveredKeeps(Flip(Delivered(n)));
    FlipKeeps(Delivered(Flip(Delivered(n))));
  }

  lemma RoundInSteps(n: Net)
    requires n.toA == n.toB == []
    ensures Flip(Delivered(Flip(Delivered(Flip(Sent(Flip(Sent(n)))))))) == Round(n)
  {
  }

  lemma RoundKeepsInv(n: Net)
    requires Inv(n) && n.toA == n.toB == []
    ensures Inv(Round(n)) && Round(n).toA == Round(n).toB == []
  {
    BothSentKeeps(n);
    BothDeliveredKeeps(Flip(Sent(Flip(Sent(n)))));
    RoundInSteps(n);
  }

  /** A round keeps the invariant and what more may hold; that it is a stretch of
      a run is RoundIsRun. */
  lemma RoundKeepsSettled(n: Net)
    requires Settled(n)
    ensures Settled(Round(n))
    ensures Answered(n) ==> Answered(Round(n))
    ensures Trusted(n) ==> Trusted(Round(n))
  {
    BothSentKeeps(n);
    BothDeliveredKeeps(Flip(Sent(Flip(Sent(n)))));
    RoundInSteps(n);
  }

  // While the documents differ.

  /** p refers to a sync point that it has never seen, and restarts. */
  predicate Resets(p: Peer) {
    MustReset(p.known, p.state)
  }

  /** What p lacks, as far as it can tell, once it knows the heads of q. */
  function Lacks(p: Peer, q: Peer): set<Change> {
    MissingDeps(p.known, GetHeads(q.known))
  }

  /** p knows where q stands and is free to answer. */
  predicate Ready(p: Peer, q: Peer) {
    !p.state.inFlight && p.state.theirHeads == Some(GetHeads(q.known))
  }

  /** Moreover q asked for everything it lacks. */
  predicate Told(p: Peer, q: Peer) {
    && Ready(p, q)
    && p.state.theirHave.Some?
    && p.state.theirNeed == Some(Lacks(q, p))
  }

  /** Moreover q asked for all there is. */
  predicate ToldAll(p: Peer, q: Peer) {
    && Ready(p, q)
    && p.state.theirHave == Some([Have({}, EmptyFilter)])
    && p.state.theirNeed == Some({})
  }

  /** p has announced its heads. */
  predicate Spoke(p: Peer) {
    p.state.haveResponded && p.state.lastSentHeads == GetHeads(p.known)
  }

  /** p has spoken, and waits for an answer. */
  predicate Waiting(p: Peer) {
    !Resets(p) && p.state.inFlight && Spoke(p)
  }

  lemma WaitingIsSilent(p: Peer)
    requires Waiting(p)
    ensures !Speaks(p)
  {
  }

  /** p has something for q, and may send it. */
  predicate Useful(p: Peer, q: Peer) {
    || (ToldAll(p, q) && !(Applied(p.known) <= Applied(q.known)))
    || (Told(p, q) && !Resets(p) && Lacks(q, p) != {} && Lacks(q, p) <= Applied(p.known))
    || (Told(p, q) && !Resets(p) && GetHeads(q.known) == {} && p.state.SupportsV2() && Applied(p.known) != {})
  }

  /** A document without heads has nothing applied. */
  lemma EmptyHeads(known: set<Change>)
    ensures GetHeads(known) == {} <==> Applied(known) == {}
  {
    ClosedCoreIsLargest(known);
    HeadsReachAll(Applied(known));
  }

  lemma SentIsKnown(p: Peer, q: Peer, c: Change)
    requires Side(p, q, []) && c in p.state.sentHashes
    ensures c in q.known
  {
    assert OnItsWay(c, q, []);
  }

  lemma NotAppliedNotKnown(known: set<Change>, applied: set<Change>)
    requires Closed(applied) && !(applied <= Applied(known))
    ensures exists c :: c in applied && c !in known
  {
    ClosedCoreIsLargest(known);
  }

  /** A summary of nothing calls for everything. */
  lemma AllIsPicked(applied: set<Change>, have: seq<Have>)
    requires have == [Have({}, EmptyFilter)]
    ensures HashesToSend(applied, have, {}) == applied
  {
    assert LastSyncs(have) == {} && GetHashes(applied, {}) == applied;
    forall c | c in applied
      ensures c in Picked(applied, have)
    {
      assert c in Ancestors(c) && Denied(have, c);
    }
  }

  /** What is selected arrives. */
  lemma SelectedArrives(p: Peer, q: Peer, c: Change)
    requires !Resets(p) && !p.state.inFlight
    requires SelectChanges(p.known, p.state).Some? && c in SelectChanges(p.known, p.state).value.hashes
    ensures c in Exchange(q, p).known
  {
    SelectedIsKnown(p.known, p.state);
  }

  /** What p sends to a peer that asked for all there is. */
  lemma AllIsSent(p: Peer, q: Peer, c: Change)
    requires Sides(p, q) && ToldAll(p, q) && c in Applied(p.known) && c !in q.known
    ensures c in Exchange(q, p).known
  {
    AllIsPicked(Applied(p.known), p.state.theirHave.value);
    if c in p.state.sentHashes {
      SentIsKnown(p, q, c);
    }
    SelectedArrives(p, q, c);
  }

  /** What p sends to a peer that asked for what it lacks. */
  lemma LackingIsSent(p: Peer, q: Peer, c: Change)
    requires Sides(p, q) && Told(p, q) && !Resets(p) && c in Lacks(q, p) && Lacks(q, p) <= Applied(p.known)
    ensures c in Exchange(q, p).known && c !in q.known
  {
    if c in p.state.sentHashes {
      SentIsKnown(p, q, c);
    }
    SelectedArrives(p, q, c);
  }

  /** What p sends to a peer that has applied nothing. */
  lemma DocumentIsSent(p: Peer, q: Peer)
    requires Sides(p, q) && Told(p, q) && !Resets(p)
    requires GetHeads(q.known) == {} && p.state.SupportsV2() && Applied(p.known) != {}
    ensures Exchange(q, p).known == q.known + p.known && !(p.known <= q.known)
  {
    EmptyHeads(p.known);
    EmptyHeads(q.known);
    ClosedCoreIsLargest(p.known);
    NotAppliedNotKnown(q.known, Applied(p.known));
  }

  lemma UsefulChanges(p: Peer, q: Peer)
    requires Sides(p, q) && Useful(p, q)
    ensures Exchange(q, p).known != q.known
  {
    ClosedCoreIsLargest(p.known);
    if ToldAll(p, q) && !(Applied(p.known) <= Applied(q.known)) {
      NotAppliedNotKnown(q.known, Applied(p.known));
      var c :| c in Applied(p.known) && c !in q.known;
      AllIsSent(p, q, c);
    } else if Lacks(q, p) != {} && Lacks(q, p) <= Applied(p.known) {
      var c :| c in Lacks(q, p);
      LackingIsSent(p, q, c);
    } else {
      DocumentIsSent(p, q);
    }
  }

  /** A peer that was asked for what it has not applied falls silent. */
  lemma AskedInVain(p: Peer, q: Peer)
    requires Sides(p, q) && Told(p, q) && !Resets(p) && !Useful(p, q) && Lacks(q, p) != {}
    requires Applied(p.known) != {} || Applied(q.known) != {}
    ensures !Speaks(p)
  {
    EmptyHeads(q.known);
    var c :| c in Lacks(q, p) && c !in Applied(p.known);
    if c in p.state.sentHashes {
      SentIsKnown(p, q, c);
    }
  }

  /** A peer that asks for nothing has everything the other has. */
  lemma NothingMissing(p: Peer, q: Peer)
    requires Lacks(p, q) == {}
    ensures p.known == Applied(p.known) && Applied(q.known) <= p.known
  {
    QueueWaits(p.known);
    assert Wanting(p.known) <= Lacks(p, q);
    assert GetHeads(q.known) - p.known <= Lacks(p, q);
    ClosedCoreIsLargest(p.known);
    ClosedCoreIsLargest(q.known);
    HeadsIncluded(Applied(q.known), Applied(p.known));
  }

  /** A peer that must restart lacks something the other has applied. */
  lemma ResetsLacks(p: Peer, q: Peer)
    requires Sides(p, q) && Resets(p)
    ensures !(Applied(q.known) <= Applied(p.known))
  {
    var have := p.state.theirHave.value;
    assert have[0] in have;
  }

  /** How a round without a change of hands looks from q to p. */
  ghost predicate Advances(p: Peer, q: Peer, p': Peer, q': Peer) {
    && (Speaks(q) ==> Ready(p', q'))
    && (Resets(q) ==> ToldAll(p', q'))
    && (Speaks(q) && !Resets(q) && Ready(q, p) ==> Told(p', q'))
    && (Speaks(q) && !Resets(q) && !Speaks(p) ==> Waiting(q'))
  }

  lemma QuietSide(p: Peer, q: Peer)
    requires Exchange(p, q).known == p.known && Exchange(q, p).known == q.known
    ensures Advances(p, q, Exchange(p, q), Exchange(q, p))
  {
  }

  // Once the documents agree, with empty queues.

  ghost predicate Same(p: Peer, q: Peer) {
    p.known == q.known == Applied(p.known)
  }

  /** Where nothing is lacking, nothing needs a restart, and all that is asked
      for is there. */
  lemma SameIsClean(p: Peer, q: Peer)
    requires Sides(p, q) && Asking(p, q) && Same(p, q)
    ensures !Resets(p) && SelectChanges(p.known, p.state).Some?
    ensures p.state.theirHeads.Some? ==> MissingDeps(p.known, p.state.theirHeads.value) == {}
  {
    ClosedCoreIsLargest(p.known);
    if p.state.theirNeed.Some? {
      assert p.state.theirNeed.value <= p.known;
    }
  }

  /** p has heard its own heads from the other side, and has nothing to send. */
  predicate Content(p: Peer) {
    var selection := SelectChanges(p.known, p.state);
    && !Resets(p)
    && p.state.theirHeads == Some(GetHeads(p.known))
    && selection.Some?
    && selection.value.hashes == {}
  }

  /** Against its own summary, a document has nothing to send. */
  lemma NothingToSend(applied: set<Change>, lastSync: set<Change>)
    requires Closed(applied) && lastSync <= applied
    ensures HashesToSend(applied, [MakeHave(applied, lastSync)], {}) == {}
  {
    var have := [MakeHave(applied, lastSync)];
    assert have[0] in have;
    assert LastSyncs(have) == lastSync;
    PickedWereLacking(applied, applied, lastSync);
  }

  /** A peer with the same document asks for nothing. */
  lemma AgreedMessage(p: Peer, q: Peer)
    requires Sides(p, q) && Asking(p, q) && Same(p, q) && Speaks(q)
    ensures var m := MessageOf(q).value;
            && m.heads == GetHeads(p.known) && m.need == {} && KnownAfter(p.known, m) == p.known
            && m.have == [MakeHave(Applied(p.known), q.state.sharedHeads)]
  {
    SameIsClean(q, p);
    QueueWaits(q.known);
    SelectedIsKnown(q.known, q.state);
  }

  lemma NothingSelected(known: set<Change>, st: State, lastSync: set<Change>)
    requires lastSync <= Applied(known)
    requires st.theirHeads == Some(GetHeads(known)) && st.theirNeed == Some({})
    requires st.theirHave == Some([MakeHave(Applied(known), lastSync)])
    ensures SelectChanges(known, st).Some? && SelectChanges(known, st).value.hashes == {}
    ensures !MustReset(known, st)
  {
    ClosedCoreIsLargest(known);
    NothingToSend(Applied(known), lastSync);
    EmptyHeads(known);
  }

  /** Hearing from a peer with the same document leaves nothing to send. */
  lemma HeardIsContent(p: Peer, q: Peer)
    requires Sides(p, q) && Asking(p, q) && Same(p, q) && Speaks(q)
    ensures Content(Exchange(p, q)) && !Exchange(p, q).state.inFlight
  {
    AgreedMessage(p, q);
    NothingSelected(p.known, Exchange(p, q).state, q.state.sharedHeads);
  }

  lemma ReceivingOwnHeads(known: set<Change>, st: State, m: Message)
    requires m.heads == GetHeads(known) && KnownAfter(known, m) == known && st.lastSentHeads == GetHeads(known)
    ensures Receive(known, st, m).lastSentHeads == GetHeads(known)
    ensures Receive(known, st, m).haveResponded == st.haveResponded
  {
  }

  /** Speaking, a peer announces its heads. */
  lemma GeneratingIsSpeaking(p: Peer)
    requires Speaks(p) && !Resets(p)
    ensures Spoke(Peer(p.known, Generate(p.known, p.state).1))
  {
  }

  lemma SpeakingStaysSpoke(p: Peer, q: Peer)
    requires Sides(p, q) && Asking(p, q) && Same(p, q) && (Speaks(p) || Spoke(p))
    ensures Spoke(Exchange(p, q))
  {
    var st := Generate(p.known, p.state).1;
    SameIsClean(p, q);
    if Speaks(p) {
      GeneratingIsSpeaking(p);
    }
    assert Spoke(Peer(p.known, st));
    if Speaks(q) {
      AgreedMessage(p, q);
      ReceivingOwnHeads(p.known, st, MessageOf(q).value);
    }
  }

  lemma ContentStays(p: Peer, q: Peer)
    requires Sides(p, q) && Asking(p, q) && Same(p, q) && Content(p)
    ensures Content(Exchange(p, q))
  {
    if Speaks(q) {
      HeardIsContent(p, q);
    } else {
      var st' := Generate(p.known, p.state).1;
      assert st'.sentHashes == p.state.sentHashes;
      assert SelectChanges(p.known, st') == SelectChanges(p.known, p.state);
    }
  }

  /** p has told all and waits for no more than a first word of q. */
  predicate HalfDone(p: Peer, q: Peer) {
    Spoke(p) && Content(q) && (p.state.inFlight || Content(p))
  }

  lemma DoneIsSilent(p: Peer)
    requires Spoke(p) && Content(p)
    ensures !Speaks(p)
  {
  }

  /** p speaks although the documents agree: now it has announced its heads,
      and q has heard them; if q had already spoken, all is said. */
  lemma AgreedSide(p: Peer, q: Peer)
    requires Sides(p, q) && Asking(p, q) && Same(p, q) && Speaks(p)
    ensures HalfDone(Exchange(p, q), Exchange(q, p))
    ensures !HalfDone(p, q)
    ensures HalfDone(q, p) ==> !Speaks(Exchange(p, q)) && !Speaks(Exchange(q, p))
  {
    SameIsClean(p, q);
    SpeakingStaysSpoke(p, q);
    HeardIsContent(q, p);
    if Speaks(q) {
      HeardIsContent(p, q);
    }
    if HalfDone(q, p) {
      SpeakingStaysSpoke(q, p);
      ContentStays(p, q);
      DoneIsSilent(Exchange(p, q));
      DoneIsSilent(Exchange(q, p));
    }
  }

  // When neither document has applied anything.

  ghost predicate Blank(p: Peer, q: Peer) {
    Applied(p.known) == Applied(q.known) == {}
  }

  /** p has spoken, and waits or has heard that q has nothing either. */
  predicate Resigned(p: Peer) {
    p.state.haveResponded && (p.state.inFlight || p.state.theirHeads.Some?)
  }

  /** A peer without anything to offer speaks once. */
  lemma BlankSide(p: Peer, q: Peer)
    requires Sides(p, q) && Blank(p, q)
    ensures Resigned(p) ==> !Speaks(p)
    ensures Resigned(p) || Speaks(p) ==> Resigned(Exchange(p, q))
  {
    ResetsBlank(p, q);
    EmptyHeads(p.known);
    assert p.state.lastSentHeads == {} && (p.state.theirHeads.Some? ==> p.state.theirHeads.value == {});
    SelectedBlank(p.known, p.state);
  }

  lemma ResetsBlank(p: Peer, q: Peer)
    requires Sides(p, q) && Blank(p, q)
    ensures !Resets(p)
  {
    if Resets(p) {
      ResetsLacks(p, q);
    }
  }

  lemma SelectedBlank(known: set<Change>, st: State)
    requires Applied(known) == {}
    ensures SelectChanges(known, st).Some? ==> SelectChanges(known, st).value.hashes == {}
  {
  }

  // The potential.

  /** How many changes have still to reach a peer. */
  function Missing(n: Net): nat {
    |n.b.known - n.a.known| + |n.a.known - n.b.known|
  }

  /** One side is as far as that, and the other as well or waiting. */
  predicate BothTold(p: Peer, q: Peer) {
    (Told(p, q) && (Told(q, p) || Waiting(q))) || (Told(q, p) && Waiting(p))
  }

  predicate BothReady(p: Peer, q: Peer) {
    (Ready(p, q) && (Ready(q, p) || Waiting(q))) || (Ready(q, p) && Waiting(p))
  }

  /** How far the peers are from the next change of hands, or from rest. */
  ghost function Phase(n: Net): (k: nat)
    ensures k <= 5
  {
    if AtRest(n) then 0
    else if Blank(n.a, n.b) then (if Resigned(n.a) then 0 else 1) + if Resigned(n.b) then 0 else 1
    else if Same(n.a, n.b) then if HalfDone(n.a, n.b) || HalfDone(n.b, n.a) then 1 else 2
    else if Useful(n.a, n.b) || Useful(n.b, n.a) then 1
    else if Resets(n.a) || Resets(n.b) then 2
    else if BothTold(n.a, n.b) then 3
    else if BothReady(n.a, n.b) then 4
    else 5
  }

  /** Peers that never restart need one phase less. */
  ghost function Potential(n: Net): nat {
    if Trusted(n) then 5 * Missing(n) + (if Phase(n) > 2 then Phase(n) - 1 else Phase(n)) else 6 * Missing(n) + Phase(n)
  }

  lemma PotentialIsBounded(n: Net)
    ensures Potential(n) <= 6 * Missing(n) + 5
    ensures Trusted(n) ==> Potential(n) <= 5 * Missing(n) + 4
  {
  }

  lemma ExchangeConserves(p: Peer, q: Peer)
    ensures p.known <= Exchange(p, q).known <= p.known + q.known
  {
    SelectedIsKnown(q.known, q.state);
  }

  /** Between two peers that exchange messages, no change appears or is lost. */
  lemma RoundConserves(n: Net)
    ensures n.a.known <= Round(n).a.known && n.b.known <= Round(n).b.known
    ensures Round(n).a.known + Round(n).b.known == n.a.known + n.b.known
  {
    ExchangeConserves(n.a, n.b);
    ExchangeConserves(n.b, n.a);
  }

  lemma MissingDrops(n: Net)
    requires Round(n).a.known != n.a.known || Round(n).b.known != n.b.known
    ensures Missing(Round(n)) < Missing(n)
  {
    RoundConserves(n);
    var n' := Round(n);
    SubsetSize(n'.b.known - n'.a.known, n.b.known - n.a.known);
    SubsetSize(n'.a.known - n'.b.known, n.a.known - n.b.known);
    if n'.a.known != n.a.known {
      assert n'.b.known - n'.a.known != n.b.known - n.a.known;
    } else {
      assert n'.a.known - n'.b.known != n.a.known - n.b.known;
    }
  }

  /** A round in which no change goes from hand to hand. */
  ghost predicate QuietRound(n: Net, n': Net) {
    && Settled(n) && Settled(n') && n' == Round(n)
    && n'.a.known == n.a.known && n'.b.known == n.b.known
    && !AtRest(n)
  }

  lemma PhaseDropsBlank(n: Net, n': Net)
    requires QuietRound(n, n') && Blank(n.a, n.b)
    ensures Phase(n') < Phase(n)
  {
    BlankSide(n.a, n.b);
    BlankSide(n.b, n.a);
  }

  lemma PhaseDropsAgreed(n: Net, n': Net)
    requires QuietRound(n, n') && Same(n.a, n.b) && !Blank(n.a, n.b)
    ensures Phase(n') < Phase(n)
  {
    if Speaks(n.a) {
      AgreedSide(n.a, n.b);
    }
    if Speaks(n.b) {
      AgreedSide(n.b, n.a);
    }
  }

  ghost predicate Differ(p: Peer, q: Peer) {
    !Blank(p, q) && !Same(p, q)
  }

  /** Not both can have what they lack. */
  lemma SomethingLacks(p: Peer, q: Peer)
    requires !Same(p, q)
    ensures Lacks(p, q) != {} || Lacks(q, p) != {}
  {
    if Lacks(p, q) == {} && Lacks(q, p) == {} {
      NothingMissing(p, q);
      NothingMissing(q, p);
    }
  }

  /** A restart makes the other side send all it has. */
  lemma ResetHelps(p: Peer, q: Peer, p': Peer, q': Peer)
    requires Sides(p, q) && Advances(p, q, p', q') && Resets(q)
    requires p'.known == p.known && q'.known == q.known
    ensures Useful(p', q')
  {
    ResetsLacks(q, p);
  }

  /** Where one side speaks that has been told, and the other waits or falls
      silent, the answer helps, or restarts, or there is none. */
  lemma ToldSpeaks(p: Peer, q: Peer, p': Peer, q': Peer)
    requires Sides(p, q) && Sides(p', q') && Differ(p, q) && p'.known == p.known && q'.known == q.known
    requires Advances(q, p, q', p') && Told(p, q) && !Resets(p) && !Useful(p, q)
    requires Speaks(p) && !Speaks(q)
    ensures Useful(q', p') || Resets(q') || (!Speaks(q') && !Speaks(p'))
  {
    if Lacks(q, p) != {} {
      AskedInVain(p, q);
    }
    SomethingLacks(p, q);
    WaitingIsSilent(p');
    if !Useful(q', p') && !Resets(q') {
      AskedInVain(q', p');
    }
  }

  lemma PhaseDropsTold(n: Net, n': Net)
    requires QuietRound(n, n') && Differ(n.a, n.b) && Phase(n) == 3
    ensures Phase(n') <= 2
  {
    QuietSide(n.a, n.b);
    QuietSide(n.b, n.a);
    if Waiting(n.a) {
      WaitingIsSilent(n.a);
    }
    if Waiting(n.b) {
      WaitingIsSilent(n.b);
    }
    if Speaks(n.a) && Speaks(n.b) {
      SomethingLacks(n.a, n.b);
      if Lacks(n.b, n.a) != {} {
        AskedInVain(n.a, n.b);
      } else {
        AskedInVain(n.b, n.a);
      }
    } else if Speaks(n.a) {
      ToldSpeaks(n.a, n.b, n'.a, n'.b);
    } else {
      ToldSpeaks(n.b, n.a, n'.b, n'.a);
    }
  }

  /** Being heard makes ready, and being ready informs. */
  lemma PhaseDropsTalking(n: Net, n': Net)
    requires QuietRound(n, n') && Differ(n.a, n.b) && !Resets(n.a) && !Resets(n.b)
    ensures BothReady(n'.a, n'.b)
    ensures BothReady(n.a, n.b) ==> BothTold(n'.a, n'.b)
  {
    QuietSide(n.a, n.b);
    QuietSide(n.b, n.a);
    if Waiting(n.a) {
      WaitingIsSilent(n.a);
    }
    if Waiting(n.b) {
      WaitingIsSilent(n.b);
    }
  }

  lemma PhaseDropsDiffering(n: Net, n': Net)
    requires QuietRound(n, n') && Differ(n.a, n.b)
    ensures Phase(n') < Phase(n)
  {
    if Useful(n.a, n.b) {
      UsefulChanges(n.a, n.b);
    } else if Useful(n.b, n.a) {
      UsefulChanges(n.b, n.a);
    } else if Resets(n.a) {
      QuietSide(n.b, n.a);
      ResetHelps(n.b, n.a, n'.b, n'.a);
    } else if Resets(n.b) {
      QuietSide(n.a, n.b);
      ResetHelps(n.a, n.b, n'.a, n'.b);
    } else if BothTold(n.a, n.b) {
      PhaseDropsTold(n, n');
    } else {
      PhaseDropsTalking(n, n');
    }
  }

  /** A round without a change of hands brings the next one, or rest, nearer. */
  lemma PhaseDrops(n: Net)
    requires Settled(n) && !AtRest(n)
    requires Round(n).a.known == n.a.known && Round(n).b.known == n.b.known
    ensures Phase(Round(n)) < Phase(n)
  {
    RoundKeepsSettled(n);
    if Blank(n.a, n.b) {
      PhaseDropsBlank(n, Round(n));
    } else if Same(n.a, n.b) {
      PhaseDropsAgreed(n, Round(n));
    } else {
      PhaseDropsDiffering(n, Round(n));
    }
  }

  /** Peers that trust each other do not restart. */
  lemma TrustedNeverResets(n: Net)
    requires Trusted(n)
    ensures !Resets(n.a) && !Resets(n.b)
    ensures Phase(n) == 2 ==> Blank(n.a, n.b) || Same(n.a, n.b)
  {
  }

  /** Every round but the last lowers the potential, whatever the documents are
      and whatever waits in their queues. */
  lemma PotentialDrops(n: Net)
    requires Settled(n) && !AtRest(n)
    ensures Settled(Round(n)) && Potential(Round(n)) < Potential(n)
  {
    RoundKeepsSettled(n);
    if Round(n).a.known != n.a.known || Round(n).b.known != n.b.known {
      MissingDrops(n);
    } else {
      PhaseDrops(n);
      if Trusted(n) {
        TrustedNeverResets(n);
        TrustedNeverResets(Round(n));
      }
    }
  }

  // Rounds until rest.

  /** Successive states, a round apart. */
  ghost predicate Rounds(states: seq<Net>) {
    states != [] && forall i :: 0 <= i < |states| - 1 ==> states[i + 1] == Round(states[i])
  }

  /** Neither peer has anything more to say, and no change was lost on the way
      from `start`.  If what the queues missed there was applied at the other
      side, the documents agree. */
  ghost predicate Rested(n: Net, start: Net) {
    && Settled(n) && AtRest(n)
    && n.a.known + n.b.known == start.a.known + start.b.known
    && (Answered(start) ==> Agreed(n))
  }

  lemma RoundGetsOn(n: Net)
    requires Settled(n)
    ensures Settled(Round(n)) && (Answered(n) ==> Answered(Round(n)))
    ensures Round(n).a.known + Round(n).b.known == n.a.known + n.b.known
    ensures if AtRest(n) then Round(n) == n && Rested(n, n) else Potential(Round(n)) < Potential(n)
  {
    RoundKeepsSettled(n);
    RoundConserves(n);
    if !AtRest(n) {
      PotentialDrops(n);
    } else if Answered(n) {
      RestIsAgreement(n);
    }
  }

  /** Rounds end, within the potential, whatever the documents are. */
  lemma {:induction false} RoundsReachRest(n: Net) returns (states: seq<Net>)
    requires Settled(n)
    ensures Rounds(states) && states[0] == n && |states| <= Potential(n) + 1
    ensures Rested(states[|states| - 1], n)
    decreases Potential(n)
  {
    RoundGetsOn(n);
    if AtRest(n) {
      states := [n];
    } else {
      var later := RoundsReachRest(Round(n));
      states := [n] + later;
    }
  }

  // Rounds as runs.

  function Last(run: seq<Net>): Net
    requires run != []
  {
    run[|run| - 1]
  }

  ghost predicate Extends(run: seq<Net>, longer: seq<Net>) {
    IsRun(longer) && run <= longer
  }

  /** One more step, or none. */
  lemma OneMore(run: seq<Net>, n: Net) returns (longer: seq<Net>)
    requires IsRun(run) && (n == Last(run) || Step(Last(run), n))
    ensures Extends(run, longer) && Last(longer) == n && |longer| <= |run| + 1
  {
    longer := if n == Last(run) then run else run + [n];
  }

  lemma SentIsStep(n: Net)
    ensures Sent(n) == n || Step(n, Sent(n))
    ensures Flip(Sent(Flip(n))) == n || Step(n, Flip(Sent(Flip(n))))
  {
    if Speaks(n.a) {
      assert Send(n, Sent(n));
    }
    if Speaks(n.b) {
      assert Send(Flip(n), Sent(Flip(n)));
    }
  }

  lemma DeliveredIsStep(n: Net)
    ensures Delivered(n) == n || Step(n, Delivered(n))
    ensures Flip(Delivered(Flip(n))) == n || Step(n, Flip(Delivered(Flip(n))))
  {
    if n.toA != [] {
      assert Deliver(n, Delivered(n));
    }
    if n.toB != [] {
      assert Deliver(Flip(n), Delivered(Flip(n)));
    }
  }

  /** A round is at most four steps of a run. */
  lemma RoundIsRun(run: seq<Net>) returns (longer: seq<Net>)
    requires IsRun(run) && Last(run).toA == Last(run).toB == []
    ensures Extends(run, longer) && Last(longer) == Round(Last(run)) && |longer| <= |run| + 4
  {
    var n := Last(run);
    var n1 := Sent(n);
    var n2 := Flip(Sent(Flip(n1)));
    var n3 := Delivered(n2);
    var n4 := Flip(Delivered(Flip(n3)));
    SentIsStep(n);
    SentIsStep(n1);
    DeliveredIsStep(n2);
    DeliveredIsStep(n3);
    longer := OneMore(run, n1);
    longer := OneMore(longer, n2);
    longer := OneMore(longer, n3);
    longer := OneMore(longer, n4);
    assert n4 == Round(n);
  }

  lemma {:induction false} ReachRest(run: seq<Net>) returns (longer: seq<Net>)
    requires IsRun(run) && Settled(Last(run))
    ensures Extends(run, longer) && Rested(Last(longer), Last(run)) && |longer| <= |run| + 4 * Potential(Last(run))
    decreases Potential(Last(run))
  {
    RoundGetsOn(Last(run));
    if AtRest(Last(run)) {
      longer := run;
    } else {
      var next := RoundIsRun(run);
      longer := ReachRest(next);
    }
  }

  /** What is on its way can be delivered; no change is lost with it. */
  lemma {:induction false} DeliverAll(run: seq<Net>) returns (longer: seq<Net>)
    requires IsRun(run)
    ensures Extends(run, longer) && Last(longer).toA == Last(longer).toB == []
    ensures Last(longer).a.known + Last(longer).b.known == Last(run).a.known + Last(run).b.known
    decreases |Last(run).toA| + |Last(run).toB|
  {
    var n := Last(run);
    RunKeepsInv(run, |run| - 1);
    DeliveredIsStep(n);
    if n.toA != [] {
      DeliveryConserves(n);
      var next := OneMore(run, Delivered(n));
      longer := DeliverAll(next);
    } else if n.toB != [] {
      DeliveryConserves(Flip(n));
      var next := OneMore(run, Flip(Delivered(Flip(n))));
      longer := DeliverAll(next);
    } else {
      longer := run;
    }
  }

  lemma DeliveryConserves(n: Net)
    requires Inv(n) && n.toA != []
    ensures Delivered(n).a.known + Delivered(n).b.known == n.a.known + n.b.known
  {
    assert GoodMessage(n.toA[0], n.b);
  }

  lemma EndsAgreed(run: seq<Net>, longer: seq<Net>)
    requires IsRun(run) && Extends(run, longer) && AtRest(Last(longer))
    ensures QueuesAnswered(run[0]) ==> Agreed(Last(longer))
  {
    assert longer[0] == run[0];
    if QueuesAnswered(run[0]) {
      AgreementAtRest(longer, |longer| - 1);
    }
  }

  /** Whatever has happened, delivering and exchanging messages brings any run
      to rest without losing a change.  If what the queues missed at the start was
      applied at the other side, the documents then agree. */
  lemma EveryRunCanAgree(run: seq<Net>) returns (longer: seq<Net>)
    requires IsRun(run)
    ensures Extends(run, longer) && AtRest(Last(longer))
    ensures Last(longer).a.known + Last(longer).b.known == Last(run).a.known + Last(run).b.known
    ensures QueuesAnswered(run[0]) ==> Agreed(Last(longer))
  {
    var delivered := DeliverAll(run);
    RunKeepsInv(delivered, |delivered| - 1);
    RunKeepsSensible(delivered, |delivered| - 1);
    longer := ReachRest(delivered);
    EndsAgreed(run, longer);
  }
}
