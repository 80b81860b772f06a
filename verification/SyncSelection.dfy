/**
What a peer sends in answer to a summary: which changes the Bloom filters pick,
which they withhold, and when that is exactly what the other side lacks.
*/
module SyncSelection {
  import opened Dag
  import opened Bloom
  import opened SyncProtocol

  /** Whatever of the range depends on a member is a member. */
  ghost predicate ClosedUpwards(range: set<Change>, s: set<Change>) {
    forall c, d :: c in range && d in s && d in c.deps ==> c in s
  }

  ghost predicate HoldsDenied(range: set<Change>, have: seq<Have>, s: set<Change>) {
    forall c :: c in range && Denied(have, c) ==> c in s
  }

  /** Between a change in range and one it is an ancestor of, all is in range. */
  lemma BetweenInRange(applied: set<Change>, lastSync: set<Change>, a: Change, d: Change)
    requires a in GetHashes(applied, lastSync) && a in Ancestors(d) && d in applied
    ensures d in GetHashes(applied, lastSync)
  {
    if d in AncestorsOf(lastSync * applied) {
      var h :| h in lastSync * applied && d in Ancestors(h);
      AncestorsTransitive(a, d, h);
      assert false;
    }
  }

  /** The picked changes are the least set that has the denied ones and is
      closed under dependents. */
  lemma PickedIsLeast(applied: set<Change>, have: seq<Have>, s: set<Change>)
    requires Closed(applied)
    ensures var range := GetHashes(applied, LastSyncs(have));
            var picked := Picked(range, have);
            && HoldsDenied(range, have, picked) && ClosedUpwards(range, picked)
            && (HoldsDenied(range, have, s) && ClosedUpwards(range, s) ==> picked <= s)
  {
    var range := GetHashes(applied, LastSyncs(have));
    var picked := Picked(range, have);
    forall c | c in range && Denied(have, c)
      ensures c in picked
    {
      assert c in Ancestors(c);
    }
    forall c, d | c in range && d in picked && d in c.deps
      ensures c in picked
    {
      var a :| a in range && a in Ancestors(d) && Denied(have, a);
      assert a in Ancestors(c);
    }
    if HoldsDenied(range, have, s) && ClosedUpwards(range, s) {
      forall c | c in picked
        ensures c in s
      {
        var a :| a in range && a in Ancestors(c) && Denied(have, a);
        ReachedUpwards(applied, LastSyncs(have), s, a, c);
      }
    }
  }

  lemma {:induction false} ReachedUpwards(applied: set<Change>, lastSync: set<Change>, s: set<Change>, a: Change, c: Change)
    requires Closed(applied) && ClosedUpwards(GetHashes(applied, lastSync), s)
    requires a in GetHashes(applied, lastSync) && a in s && a in Ancestors(c) && c in applied
    ensures c in s
    decreases c
  {
    if c != a {
      var d :| d in c.deps && a in Ancestors(d);
      ReachedUpwards(applied, lastSync, s, a, d);
      BetweenInRange(applied, lastSync, a, c);
    }
  }

  /** What is withheld does not depend on what is sent: its dependencies are
      withheld too, or lie behind the last sync. */
  lemma WithheldIsClosed(applied: set<Change>, have: seq<Have>, c: Change, d: Change)
    requires Closed(applied) && d in c.deps
    requires c in GetHashes(applied, LastSyncs(have)) && c !in Picked(GetHashes(applied, LastSyncs(have)), have)
    ensures d in GetHashes(applied, LastSyncs(have)) - Picked(GetHashes(applied, LastSyncs(have)), have)
         || d in AncestorsOf(LastSyncs(have) * applied)
  {
    PickedIsLeast(applied, have, {});
  }

  /** Of several summaries each protects what its builder held. */
  lemma EachSummaryCounts(applied: set<Change>, have: seq<Have>, k: nat, peerApplied: set<Change>, lastSync: set<Change>)
    requires Closed(applied) && Closed(peerApplied)
    requires lastSync <= applied && lastSync <= peerApplied
    requires k < |have| && have[k] == MakeHave(peerApplied, lastSync)
    ensures Picked(GetHashes(applied, LastSyncs(have)), have) !! peerApplied
  {
    var range, theirs := GetHashes(applied, LastSyncs(have)), GetHashes(peerApplied, lastSync);
    assert lastSync * applied == lastSync * peerApplied == lastSync;
    assert lastSync <= LastSyncs(have) * applied;
    forall c | c in Picked(range, have)
      ensures c !in peerApplied
    {
      var a :| a in range && a in Ancestors(c) && Denied(have, a);
      assert have[k] in have;
      if c in peerApplied {
        AncestorsInClosed(peerApplied, c);
        assert a in theirs;
        NoFalseNegatives(theirs, |theirs|, a);
        assert false;
      }
    }
  }

  /** Nothing that the builder of the Have held is picked by its filter. */
  lemma PickedWereLacking(applied: set<Change>, peerApplied: set<Change>, lastSync: set<Change>)
    requires Closed(applied) && Closed(peerApplied)
    requires lastSync <= applied && lastSync <= peerApplied
    ensures Picked(GetHashes(applied, lastSync), [MakeHave(peerApplied, lastSync)]) !! peerApplied
  {
    var have := MakeHave(peerApplied, lastSync);
    OnlyLastSync(have);
    EachSummaryCounts(applied, [have], 0, peerApplied, lastSync);
  }

  /** A change the other side lacks, although it has all its dependencies. */
  predicate Frontier(c: Change, applied: set<Change>, peerApplied: set<Change>) {
    c in applied && c !in peerApplied && forall d | d in c.deps :: d in peerApplied
  }

  /** Below a change the other side lacks there is one on its frontier. */
  lemma {:induction false} AboveFrontier(applied: set<Change>, peerApplied: set<Change>, c: Change) returns (f: Change)
    requires Closed(applied) && c in applied && c !in peerApplied
    ensures f in Ancestors(c) && Frontier(f, applied, peerApplied)
    decreases c
  {
    if d :| d in c.deps && d !in peerApplied {
      f := AboveFrontier(applied, peerApplied, d);
    } else {
      f := c;
    }
  }

  /** A frontier change that was picked was denied itself. */
  lemma FrontierDenied(range: set<Change>, have: Have, peerApplied: set<Change>, f: Change)
    requires Closed(peerApplied) && Picked(range, [have]) !! peerApplied
    requires f in Picked(range, [have]) && forall d <- f.deps :: d in peerApplied
    ensures !ContainsHash(have.bloom, f)
  {
    var a :| a in range && a in Ancestors(f) && Denied([have], a);
    assert have in [have];
    assert a in Ancestors(a) && a in Picked(range, [have]);
    if a != f {
      var d :| d in f.deps && a in Ancestors(d);
      AncestorsInClosed(peerApplied, d);
      assert false;
    }
  }

  /** The changes sent are exactly the ones the other side lacks if, and only if,
      its filter has no false positive on the frontier. */
  lemma SendsExactlyTheDifference(applied: set<Change>, peerApplied: set<Change>, lastSync: set<Change>)
    requires Closed(applied) && Closed(peerApplied)
    requires lastSync <= applied && lastSync <= peerApplied
    ensures var have := MakeHave(peerApplied, lastSync);
            HashesToSend(applied, [have], {}) == applied - peerApplied
            <==> forall f :: Frontier(f, applied, peerApplied) ==> !ContainsHash(have.bloom, f)
  {
    var have, range := MakeHave(peerApplied, lastSync), GetHashes(applied, lastSync);
    OnlyLastSync(have);
    PickedWereLacking(applied, peerApplied, lastSync);
    LackedInRange(applied, peerApplied, lastSync);
    if applied - peerApplied <= Picked(range, [have]) {
      forall f | Frontier(f, applied, peerApplied) {
        FrontierDenied(range, have, peerApplied, f);
      }
    }
    if forall f :: Frontier(f, applied, peerApplied) ==> !ContainsHash(have.bloom, f) {
      FrontierSuffices(applied, peerApplied, range, have);
    }
  }

  lemma OnlyLastSync(have: Have)
    ensures LastSyncs([have]) == have.lastSync
  {
    assert [have][0] in [have];
  }

  lemma LackedInRange(applied: set<Change>, peerApplied: set<Change>, lastSync: set<Change>)
    requires Closed(peerApplied) && lastSync <= applied && lastSync <= peerApplied
    ensures applied - peerApplied <= GetHashes(applied, lastSync)
  {
    assert lastSync * applied == lastSync;
    AncestorsOfInClosed(peerApplied, lastSync);
  }

  lemma FrontierSuffices(applied: set<Change>, peerApplied: set<Change>, range: set<Change>, have: Have)
    requires Closed(applied) && applied - peerApplied <= range
    requires forall f :: Frontier(f, applied, peerApplied) ==> !ContainsHash(have.bloom, f)
    ensures applied - peerApplied <= Picked(range, [have])
  {
    forall c | c in applied - peerApplied
      ensures c in Picked(range, [have])
    {
      var f := AboveFrontier(applied, peerApplied, c);
      assert f in range && Denied([have], f);
    }
  }

  /** A failing input: two changes whose hashes probe the same bits.  The peer
      has one, and its filter hides that it lacks the other. */
  lemma FalsePositiveHides(d: Digest)
    ensures var theirs := Change(d, [1], 1, 1, 0, []);
            var ours := Change(d, [2], 1, 1, 0, []);
            HashesToSend({ours}, [MakeHave({theirs}, {})], {}) == {} != {ours} - {theirs}
  {
    var theirs, ours := Change(d, [1], 1, 1, 0, []), Change(d, [2], 1, 1, 0, []);
    assert GetHashes({theirs}, {}) == {theirs} && GetHashes({ours}, {}) == {ours};
    var have := MakeHave({theirs}, {});
    NoFalseNegatives({theirs}, 1, theirs);
    OnlyLastSync(have);
    assert have in [have];
    assert ContainsHash(have.bloom, ours);
    assert Ancestors(ours) == {ours};
  }
}
