/**
What receiving a message does to what is sent next, and what is not sent twice.
*/
module SyncEffects {
  import opened Wrappers
  import opened Dag
  import opened Bloom
  import opened SyncProtocol
  import opened SyncRuns
  import opened SyncConvergence

  /** After a message, the next summary goes from a sync point that has the heads
      of the message that are there.  If all are, it has nothing else.  Otherwise
      it keeps what it had, if no changes came; and of the heads after changes came
      it has those that are new and those that it had. */
  lemma NextSummary(known: set<Change>, st: State, m: Message, next: Message, h: Change)
    requires Generate(KnownAfter(known, m), Receive(known, st, m)).0 == Some(next)
    requires next.have != [] && !AsksAgain(next)
    ensures var known' := KnownAfter(known, m);
            && |next.have| == 1
            && next.have[0].bloom == FilterOf(|Applied(known') - AncestorsOf(next.have[0].lastSync * Applied(known'))|,
                                              Applied(known') - AncestorsOf(next.have[0].lastSync * Applied(known')))
            && (h in next.have[0].lastSync <==>
                 || (h in m.heads && h in Applied(known'))
                 || (!(m.heads <= Applied(known')) && m.changes.None? && h in st.sharedHeads)
                 || (!(m.heads <= Applied(known')) && m.changes.Some? && h in GetHeads(known') && (h in st.sharedHeads || h !in GetHeads(known))))
  {
    var known', st' := KnownAfter(known, m), Receive(known, st, m);
    assert next.have == [MakeHave(Applied(known'), st'.sharedHeads)];
    SharedAfter(known, st, m, h);
  }

  /** What a message makes of the shared heads. */
  lemma SharedAfter(known: set<Change>, st: State, m: Message, h: Change)
    ensures var known' := KnownAfter(known, m);
            h in Receive(known, st, m).sharedHeads <==>
              || (h in m.heads && h in Applied(known'))
              || (!(m.heads <= Applied(known')) && m.changes.None? && h in st.sharedHeads)
              || (!(m.heads <= Applied(known')) && m.changes.Some? && h in GetHeads(known') && (h in st.sharedHeads || h !in GetHeads(known)))
  {
  }

  /** A message asks for the heads of the other side that are not known, and for
      what queued changes wait for; with more than those heads to ask for, it has no
      summary. */
  lemma AsksForMissing(known: set<Change>, st: State, next: Message, d: Change)
    requires Generate(known, st).0 == Some(next) && !AsksAgain(next)
    ensures var heads := if st.theirHeads.Some? then st.theirHeads.value else {};
            && (d in next.need <==> d !in known && (d in heads || exists c :: c in known && c !in Applied(known) && d in c.deps))
            && (next.have == [] <==> exists e :: e in next.need && e !in heads)
  {
  }

  /** A message that asks for everything. */
  predicate AsksAgain(m: Message) {
    m.have == [Have({}, EmptyFilter)] && m.need == {} && m.changes == None
  }

  /** Hearing its own heads from a peer that asks for nothing more, a peer that has
      spoken before stays silent, whatever it announced last. */
  lemma EchoIsSilent(known: set<Change>, st: State, m: Message, lastSync: set<Change>)
    requires st.haveResponded && m.heads == GetHeads(known) && m.need == {} && m.changes == None
    requires lastSync <= Applied(known) && m.have == [MakeHave(Applied(known), lastSync)]
    ensures Generate(known, Receive(known, st, m)).0 == None
  {
    NothingSelected(known, Receive(known, st, m), lastSync);
    EmptyHeads(known);
  }

  /** Of what was sent, what lies below the heads of a message is crossed off, and
      nothing else; all of it if the other side has no heads. */
  lemma TrimmedExactly(known: set<Change>, st: State, m: Message, c: Change)
    ensures c in Receive(known, st, m).sentHashes <==>
      && m.heads != {} && c in st.sentHashes
      && forall h :: h in m.heads && h in Applied(KnownAfter(known, m)) ==> c !in Ancestors(h)
  {
  }

  /** The first message over a new connection summarises from the heads that were
      shared. */
  lemma ReconnectKeepsSyncPoint(known: set<Change>, st: State)
    requires Wanting(known) == {}
    ensures var m := Generate(known, Restored(st)).0;
            m.Some? && m.value.have == [MakeHave(Applied(known), st.sharedHeads)] && m.value.changes == None
  {
  }

  // In a run.

  /** At step j peer a sends a message with change c. */
  ghost predicate Sends(run: seq<Net>, j: nat, c: Change) {
    && j + 1 < |run| && Send(run[j], run[j + 1])
    && var m := run[j + 1].toB[|run[j].toB|]; m.changes.Some? && c in m.changes.value
  }

  /** At step k peer a learns that b has c, or that b has nothing, or the
      connection breaks. */
  ghost predicate Excuses(run: seq<Net>, k: nat, c: Change) {
    && k + 1 < |run|
    && (Reconnect(run[k], run[k + 1])
        || (Deliver(run[k], run[k + 1]) && (run[k].toA[0].heads == {} || c in AncestorsOf(run[k].toA[0].heads))))
  }

  lemma SendNotes(n: Net, n': Net, c: Change)
    requires Send(n, n') && n'.toB[|n.toB|].changes.Some? && c in n'.toB[|n.toB|].changes.value && c in Applied(n.a.known)
    ensures c in n'.a.state.sentHashes
    ensures n.a.state.theirHeads != Some({}) ==> c !in n.a.state.sentHashes
  {
  }

  /** What was sent stays noted, unless there is an excuse. */
  lemma NotedStays(run: seq<Net>, k: nat, c: Change)
    requires IsRun(run) && k + 1 < |run| && c in run[k].a.state.sentHashes && !Excuses(run, k, c)
    ensures c in run[k + 1].a.state.sentHashes
  {
    var n, n' := run[k], run[k + 1];
    assert Step(n, n');
    if Deliver(n, n') {
      TrimmedExactly(n.a.known, n.a.state, n.toA[0], c);
    }
  }

  lemma {:induction false} NotedUntil(run: seq<Net>, i: nat, j: nat, c: Change)
    requires IsRun(run) && i <= j < |run| && c in run[i].a.state.sentHashes
    requires forall k :: i <= k < j ==> !Excuses(run, k, c)
    ensures c in run[j].a.state.sentHashes
  {
    if i < j {
      NotedUntil(run, i, j - 1, c);
      NotedStays(run, j - 1, c);
    }
  }

  /** An applied change is sent twice only with an excuse in between, or to a peer
      that was last heard to have nothing. */
  lemma SentOnce(run: seq<Net>, i: nat, j: nat, c: Change)
    requires IsRun(run) && i < j && Sends(run, i, c) && Sends(run, j, c) && c in Applied(run[i].a.known)
    ensures (exists k :: i < k < j && Excuses(run, k, c)) || run[j].a.state.theirHeads == Some({})
  {
    if !(exists k :: i < k < j && Excuses(run, k, c)) {
      SendNotes(run[i], run[i + 1], c);
      NotedUntil(run, i + 1, j, c);
      AppliedStays(run, i, j, c);
      if run[j].a.state.theirHeads != Some({}) {
        SendNotes(run[j], run[j + 1], c);
      }
    }
  }

  lemma {:induction false} AppliedStays(run: seq<Net>, i: nat, j: nat, c: Change)
    requires IsRun(run) && i <= j < |run| && c in Applied(run[i].a.known)
    ensures c in Applied(run[j].a.known)
  {
    if i < j {
      AppliedStays(run, i, j - 1, c);
      assert Step(run[j - 1], run[j]);
      ClosedCoreMonotone(run[j - 1].a.known, run[j - 1].a.known + run[j].a.known);
      assert run[j - 1].a.known <= run[j].a.known;
      assert run[j - 1].a.known + run[j].a.known == run[j].a.known;
    }
  }
}
