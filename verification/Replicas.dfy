/**
Any number of replicas that commit changes and merge from each other, in any
order: what a replica holds is decided by whose work has reached it.
*/
module Replicas {
  import opened Dag

  /** One replica merges another, or commits a change of its own. */
  datatype Event = Pull(into: nat, from: nat) | Commit(at: nat, change: Change)

  /** Where changes come from: what a replica started with, or an event. */
  datatype Origin = Start(replica: nat) | Local(event: nat)

  predicate Possible(docs: seq<set<Change>>, e: Event) {
    match e
    case Pull(into, from) => into < |docs| && from < |docs|
    case Commit(at, c) => at < |docs| && forall d | d in c.deps :: d in docs[at]
  }

  /** A merge brings over what the other has applied. */
  function Step(docs: seq<set<Change>>, e: Event): (r: seq<set<Change>>)
    requires Possible(docs, e)
    ensures |r| == |docs|
  {
    match e
    case Pull(into, from) => docs[into := docs[into] + ClosedCore(docs[from])]
    case Commit(at, c) => docs[at := docs[at] + {c}]
  }

  ghost predicate IsHistory(docs: seq<set<Change>>, events: seq<Event>, after: seq<set<Change>>)
    decreases events
  {
    if events == [] then
      after == docs && forall i :: 0 <= i < |docs| ==> Closed(docs[i])
    else
      var last := |events| - 1;
      exists before :: IsHistory(docs, events[..last], before) && Possible(before, events[last]) && after == Step(before, events[last])
  }

  /** Whose work has reached each of n replicas. */
  function Heard(n: nat, events: seq<Event>): (r: seq<set<Origin>>)
    ensures |r| == n
  {
    if events == [] then
      seq(n, i requires 0 <= i < n => {Start(i)})
    else
      var last := |events| - 1;
      var before := Heard(n, events[..last]);
      match events[last]
      case Pull(into, from) => if into < n && from < n then before[into := before[into] + before[from]] else before
      case Commit(at, _) => if at < n then before[at := before[at] + {Local(last)}] else before
  }

  function WorkOf(docs: seq<set<Change>>, events: seq<Event>, o: Origin): set<Change> {
    match o
    case Start(i) => if i < |docs| then docs[i] else {}
    case Local(k) => if k < |events| && events[k].Commit? then {events[k].change} else {}
  }

  function WorkOfAll(docs: seq<set<Change>>, events: seq<Event>, origins: set<Origin>): set<Change> {
    set o, c | o in origins && c in WorkOf(docs, events, o) :: c
  }

  lemma {:induction false} HeardIsPast(n: nat, events: seq<Event>, i: nat, k: nat)
    requires i < n && Local(k) in Heard(n, events)[i]
    ensures k < |events|
  {
    if events != [] {
      var last := |events| - 1;
      var before := Heard(n, events[..last]);
      if Local(k) in before[i] {
        HeardIsPast(n, events[..last], i, k);
      } else if events[last].Pull? && Local(k) in before[events[last].from] {
        HeardIsPast(n, events[..last], events[last].from, k);
      }
    }
  }

  lemma SameWork(docs: seq<set<Change>>, events: seq<Event>, i: nat)
    requires i < |docs| && events != []
    ensures var init, heard := events[..|events| - 1], Heard(|docs|, events[..|events| - 1])[i];
            WorkOfAll(docs, events, heard) == WorkOfAll(docs, init, heard)
  {
    var init, heard := events[..|events| - 1], Heard(|docs|, events[..|events| - 1])[i];
    forall o | o in heard
      ensures WorkOf(docs, events, o) == WorkOf(docs, init, o)
    {
      if o.Local? {
        HeardIsPast(|docs|, init, i, o.event);
      }
    }
  }

  /** A replica holds exactly the work that has reached it, and no change
      without its dependencies. */
  lemma {:induction false} HoldsWhatItHeard(docs: seq<set<Change>>, events: seq<Event>, after: seq<set<Change>>, i: nat)
    requires IsHistory(docs, events, after) && i < |docs|
    ensures |after| == |docs| && Closed(after[i])
    ensures after[i] == WorkOfAll(docs, events, Heard(|docs|, events)[i])
    decreases |events|
  {
    if events == [] {
      assert Heard(|docs|, events)[i] == {Start(i)} && WorkOf(docs, events, Start(i)) == docs[i];
    } else {
      var last := |events| - 1;
      var e, init := events[last], events[..last];
      var before :| IsHistory(docs, init, before) && Possible(before, e) && after == Step(before, e);
      HoldsWhatItHeard(docs, init, before, i);
      SameWork(docs, events, i);
      match e {
        case Pull(into, from) =>
          if i == into {
            HoldsWhatItHeard(docs, init, before, from);
            SameWork(docs, events, from);
            ClosedCoreIsLargest(before[from]);
            assert ClosedCore(before[from]) == before[from];
          }
        case Commit(at, c) =>
          if i == at {
            assert WorkOf(docs, events, Local(last)) == {c};
          }
      }
    }
  }

  /** Two replicas that heard of the same work agree, in whatever order it
      reached them. */
  lemma HeardAlikeAgree(docs: seq<set<Change>>, events: seq<Event>, after: seq<set<Change>>, i: nat, j: nat)
    requires IsHistory(docs, events, after) && i < |docs| && j < |docs|
    requires Heard(|docs|, events)[i] == Heard(|docs|, events)[j]
    ensures |after| == |docs| && after[i] == after[j] && Heads(after[i]) == Heads(after[j])
  {
    HoldsWhatItHeard(docs, events, after, i);
    HoldsWhatItHeard(docs, events, after, j);
  }

  /** And documents merged in any two orders agree once each heard of all. */
  lemma AnyOrderConverges(docs: seq<set<Change>>, es: seq<Event>, fs: seq<Event>, x: seq<set<Change>>, y: seq<set<Change>>, i: nat, j: nat)
    requires IsHistory(docs, es, x) && IsHistory(docs, fs, y) && i < |docs| && j < |docs|
    requires forall e :: e in es + fs ==> e.Pull?
    requires forall k :: 0 <= k < |docs| ==> Start(k) in Heard(|docs|, es)[i] && Start(k) in Heard(|docs|, fs)[j]
    ensures |x| == |y| == |docs| && x[i] == y[j] && Heads(x[i]) == Heads(y[j])
    ensures x[i] == set k, c | 0 <= k < |docs| && c in docs[k] :: c
  {
    HoldsWhatItHeard(docs, es, x, i);
    HoldsWhatItHeard(docs, fs, y, j);
    OnlyStarts(docs, es, x, i);
    OnlyStarts(docs, fs, y, j);
  }

  lemma OnlyStarts(docs: seq<set<Change>>, events: seq<Event>, after: seq<set<Change>>, i: nat)
    requires IsHistory(docs, events, after) && i < |docs| && forall e :: e in events ==> e.Pull?
    requires forall k :: 0 <= k < |docs| ==> Start(k) in Heard(|docs|, events)[i]
    ensures WorkOfAll(docs, events, Heard(|docs|, events)[i]) == set k, c | 0 <= k < |docs| && c in docs[k] :: c
  {
    var heard := Heard(|docs|, events)[i];
    forall o | o in heard && o.Local?
      ensures WorkOf(docs, events, o) == {}
    {
      assert o.event < |events| ==> events[o.event] in events;
    }
    forall k, c | 0 <= k < |docs| && c in docs[k]
      ensures c in WorkOfAll(docs, events, heard)
    {
      assert c in WorkOf(docs, events, Start(k));
    }
  }
}
