/**
The sync protocol as the document runs it: building and receiving messages,
and the loop that exchanges them until both sides have nothing more to say.
Each step is tied to the protocol functions.
*/
module SyncDocs {
  import opened Wrappers
  import opened Dag
  import opened Bloom
  import opened ChangeGraphs
  import opened Histories
  import opened DocumentParts
  import opened Documents
  import Sync = SyncProtocol
  import Runs = SyncRuns
  import Selection = SyncSelection
  import Convergence = SyncConvergence

  class SyncState {
    var sharedHeads: set<Change>
    var lastSentHeads: set<Change>
    var theirHeads: Option<set<Change>>
    var theirNeed: Option<set<Change>>
    var theirHave: Option<seq<Sync.Have>>
    var sentHashes: set<Change>
    var inFlight: bool
    var haveResponded: bool
    var theirCapabilities: Option<seq<Sync.Capability>>

    constructor ()
      ensures View() == Sync.NewState
    {
      sharedHeads, lastSentHeads, sentHashes := {}, {}, {};
      theirHeads, theirNeed, theirHave := None, None, None;
      inFlight, haveResponded, theirCapabilities := false, false, None;
    }

    function View(): Sync.State
      reads this
    {
      Sync.State(sharedHeads, lastSentHeads, theirHeads, theirNeed, theirHave,
                 sentHashes, inFlight, haveResponded, theirCapabilities)
    }

    /** Builds the message, unless there is nothing new to say or an answer is
        still due, and notes what it says. */
    method Compose(heads: set<Change>, need: set<Change>, have: seq<Sync.Have>, reset: bool, selection: Option<Sync.Selection>, ghost known: set<Change>)
      returns (m: Option<Sync.Message>)
      requires heads == Sync.GetHeads(known) && need == Sync.OurNeed(known, View()) && have == Sync.OurHave(known, View())
      requires reset == Sync.MustReset(known, View()) && selection == Sync.SelectChanges(known, View())
      modifies this
      ensures (m, View()) == Sync.Generate(known, old(View()))
    {
      if reset {
        return Some(Sync.Message(heads, {}, [Sync.Have({}, EmptyFilter)], None, Some(Sync.OUR_CAPABILITIES), Sync.V1));
      }
      if selection == None {
        return None;
      }
      var sent := selection.value.hashes;
      if lastSentHeads == heads && haveResponded {
        if theirHeads == Some(heads) && sent == {} {
          return None;
        }
        if inFlight {
          return None;
        }
      }
      var capabilities := if haveResponded then None else Some(Sync.OUR_CAPABILITIES);
      haveResponded := true;
      lastSentHeads := heads;
      sentHashes := sentHashes + sent;
      m := Some(Sync.Message(heads, need, have, selection.value.changes, capabilities, selection.value.version));
      inFlight := true;
    }

    /** Notes that the other side was heard from. */
    method Hear(m: Sync.Message)
      modifies this
      ensures View() == Heard(old(View()), m)
    {
      inFlight := false;
      if m.supportedCapabilities.Some? {
        theirCapabilities := m.supportedCapabilities;
      }
    }

    /** Takes note of a message whose changes were loaded.  `before` and `after`
        are the document's heads, `knownHeads` the heads of the message that it
        has, `unseen` the sent hashes that those do not cover. */
    method Acknowledge(m: Sync.Message, before: set<Change>, after: set<Change>, knownHeads: set<Change>, unseen: set<Change>)
      modifies this
      ensures View() == Acknowledged(old(View()), m, before, after, knownHeads, unseen)
    {
      if m.changes.Some? {
        sharedHeads := AdvanceHeads(before, after, sharedHeads);
      }
      sentHashes := unseen;
      if m.changes.None? && m.heads == before {
        lastSentHeads := m.heads;
      }
      if knownHeads == m.heads {
        sharedHeads := m.heads;
        if m.heads == {} {
          lastSentHeads, sentHashes := {}, {};
        }
      } else {
        sharedHeads := sharedHeads + knownHeads;
      }
      theirHave, theirHeads, theirNeed := Some(m.have), Some(m.heads), Some(m.need);
    }
  }

  function Heard(st: Sync.State, m: Sync.Message): Sync.State {
    st.(inFlight := false,
        theirCapabilities := if m.supportedCapabilities.Some? then m.supportedCapabilities else st.theirCapabilities)
  }

  function Acknowledged(st: Sync.State, m: Sync.Message, before: set<Change>, after: set<Change>, knownHeads: set<Change>, unseen: set<Change>): Sync.State {
    var lostAll := knownHeads == m.heads == {};
    var shared := if m.changes.Some? then Sync.AdvanceHeads(before, after, st.sharedHeads) else st.sharedHeads;
    st.(sharedHeads := if knownHeads == m.heads then m.heads else shared + knownHeads,
        lastSentHeads := if lostAll then {} else if m.changes.None? && m.heads == before then m.heads else st.lastSentHeads,
        sentHashes := if lostAll then {} else unseen,
        theirHeads := Some(m.heads), theirNeed := Some(m.need), theirHave := Some(m.have))
  }

  lemma ReceiveInSteps(known: set<Change>, st: Sync.State, m: Sync.Message)
    ensures Sync.Receive(known, st, m) == Acknowledged(
      Heard(st, m), m, Sync.GetHeads(known), Sync.GetHeads(Sync.KnownAfter(known, m)), m.heads * Sync.Applied(Sync.KnownAfter(known, m)),
      st.sentHashes - AncestorsOf(m.heads * Sync.Applied(Sync.KnownAfter(known, m))))
  {
    var known' := Sync.KnownAfter(known, m);
    assert m.heads * Sync.Applied(known') == m.heads <==> m.heads <= Sync.Applied(known');
  }

  /** A document with everything applied that can be. */
  ghost predicate Drained(doc: Automerge)
    reads doc, doc.graph
  {
    doc.Valid() && doc.Applied() == Sync.Applied(doc.Known())
  }

  /** The same for a document whose changes need not build on their actor's
      previous ones. */
  ghost predicate UpToDate(doc: Automerge)
    reads doc, doc.graph
  {
    doc.Sound() && doc.Applied() == Sync.Applied(doc.Known())
  }

  // Choosing what to send.

  method MakeBloomFilter(doc: Automerge, lastSync: set<Change>) returns (have: Sync.Have)
    requires doc.ValidGraph()
    ensures have == Sync.MakeHave(doc.Applied(), lastSync)
  {
    var hashes := doc.GetChanges(lastSync);
    NoRepeatsSize(hashes);
    var bloom := FromHashes(hashes);
    have := Sync.Have(lastSync, bloom);
  }

  function DependentsOn(hashes: set<Change>, d: Change): set<Change> {
    set h | h in hashes && d in h.deps
  }

  function Entry(dependents: map<Change, set<Change>>, d: Change): set<Change> {
    if d in dependents then dependents[d] else {}
  }

  /** `dependents` lists, for each change, which of the hashes depend on it. */
  ghost predicate ListsDependents(dependents: map<Change, set<Change>>, hashes: set<Change>) {
    forall d :: Entry(dependents, d) == DependentsOn(hashes, d)
  }

  method AddDependents(dependents: map<Change, set<Change>>, h: Change, ghost hashes: set<Change>) returns (r: map<Change, set<Change>>)
    requires ListsDependents(dependents, hashes)
    ensures ListsDependents(r, hashes + {h})
  {
    r := dependents;
    for k := 0 to |h.deps|
      invariant forall d :: Entry(r, d) == Entry(dependents, d) + if d in h.deps[..k] then {h} else {}
    {
      var dep := h.deps[k];
      r := r[dep := Entry(r, dep) + {h}];
      assert h.deps[..k + 1] == h.deps[..k] + [dep];
    }
    assert h.deps[..|h.deps|] == h.deps;
    forall d
      ensures Entry(r, d) == DependentsOn(hashes + {h}, d)
    {
      assert DependentsOn(hashes + {h}, d) == DependentsOn(hashes, d) + if d in h.deps then {h} else {};
    }
  }

  /** What of the range builds on a denied change. */
  ghost function Above(range: set<Change>, denied: set<Change>): set<Change> {
    set c | c in range && exists a :: a in denied && a in Ancestors(c)
  }

  lemma AboveSpreads(range: set<Change>, denied: set<Change>, d: Change)
    requires d in Above(range, denied)
    ensures DependentsOn(range, d) <= Above(range, denied)
  {
    var a :| a in denied && a in Ancestors(d);
    forall h | h in DependentsOn(range, d)
      ensures a in Ancestors(h)
    {
    }
  }

  lemma DeniedIsAbove(range: set<Change>, denied: set<Change>)
    requires denied <= range
    ensures denied <= Above(range, denied)
  {
    forall c | c in denied
      ensures c in Ancestors(c)
    {
    }
  }

  /** The closure so far: it stays within `above`, and what is not on the stack
      has its dependents in it. */
  ghost predicate Spreading(range: set<Change>, denied: set<Change>, above: set<Change>, toSend: set<Change>, stack: set<Change>) {
    && stack <= toSend <= above <= range
    && denied <= toSend
    && forall d {:trigger DependentsOn(range, d)} :: d in toSend && d !in stack ==> DependentsOn(range, d) <= toSend
  }

  lemma SpreadStep(range: set<Change>, denied: set<Change>, above: set<Change>, toSend: set<Change>, stack: set<Change>, d: Change)
    requires Spreading(range, denied, above, toSend, stack) && d in stack && DependentsOn(range, d) <= above
    ensures var deps := DependentsOn(range, d);
            Spreading(range, denied, above, toSend + deps, stack - {d} + (deps - toSend))
  {
    var toSend' := toSend + DependentsOn(range, d);
    var stack' := stack - {d} + (DependentsOn(range, d) - toSend);
    forall e | e in toSend' && e !in stack'
      ensures DependentsOn(range, e) <= toSend'
    {
      assert e == d || (e in toSend && e !in stack);
    }
  }

  lemma SpreadAdvances(range: set<Change>, toSend: set<Change>, stack: set<Change>, d: Change, deps: set<Change>)
    requires stack <= toSend <= range && deps <= range && d in stack
    ensures range - (toSend + deps) + (stack - {d} + (deps - toSend)) < range - toSend + stack
  {
    assert d !in range - (toSend + deps) + (stack - {d} + (deps - toSend));
  }

  lemma {:induction false} SpreadReaches(applied: set<Change>, lastSync: set<Change>, denied: set<Change>, toSend: set<Change>, a: Change, c: Change)
    requires Closed(applied) && Spreading(Sync.GetHashes(applied, lastSync), denied, Above(Sync.GetHashes(applied, lastSync), denied), toSend, {})
    requires a in denied && a in Ancestors(c) && c in applied
    ensures c in toSend
    decreases c
  {
    if c != a {
      var d :| d in c.deps && a in Ancestors(d);
      Selection.BetweenInRange(applied, lastSync, a, d);
      Selection.BetweenInRange(applied, lastSync, a, c);
      SpreadReaches(applied, lastSync, denied, toSend, a, d);
      assert c in DependentsOn(Sync.GetHashes(applied, lastSync), d);
    }
  }

  /** With an empty stack, the closure is what the protocol picks. */
  lemma SpreadEnds(applied: set<Change>, lastSync: set<Change>, have: seq<Sync.Have>, denied: set<Change>, toSend: set<Change>)
    requires Closed(applied) && Spreading(Sync.GetHashes(applied, lastSync), denied, Above(Sync.GetHashes(applied, lastSync), denied), toSend, {})
    requires denied == set c | c in Sync.GetHashes(applied, lastSync) && Sync.Denied(have, c)
    ensures toSend == Sync.Picked(Sync.GetHashes(applied, lastSync), have)
  {
    var range := Sync.GetHashes(applied, lastSync);
    forall c | c in toSend
      ensures c in Sync.Picked(range, have)
    {
      var a :| a in denied && a in Ancestors(c);
    }
    forall c | c in Sync.Picked(range, have)
      ensures c in toSend
    {
      var a :| a in range && a in Ancestors(c) && Sync.Denied(have, a);
      SpreadReaches(applied, lastSync, denied, toSend, a, c);
    }
  }

  /** The clock slices of the graph are the range the protocol speaks of, for all
      sync points, if and only if each actor's changes form a chain. */
  lemma SlicesAreTheRange(g: NodeTable)
    requires g.ValidNodes() && g.ValidIndex()
    ensures ChainsHold(g) <==>
            forall lastSync :: g.Changes() - Covered(g, AncestorsOf(lastSync * g.Changes())) == Sync.GetHashes(g.Changes(), lastSync)
  {
    FastComplementIsExact(g);
    if !ChainsHold(g) {
      var heads :| heads <= g.Changes() && Covered(g, AncestorsOf(heads)) != AncestorsOf(heads);
      assert heads * g.Changes() == heads;
      CoveredInGraph(g, heads);
    }
  }

  lemma CoveredInGraph(g: NodeTable, heads: set<Change>)
    requires g.ValidNodes() && heads <= g.Changes()
    ensures Covered(g, AncestorsOf(heads)) <= g.Changes() && AncestorsOf(heads) <= g.Changes()
  {
    assert heads * g.Changes() == heads;
    ChangesClosed(g, heads);
  }

  /** The slices of a document are right, for all sync points, if and only if
      each of its changes builds on its actor's previous one. */
  lemma DocumentSlices(doc: Automerge)
    requires doc.SoundGraph()
    ensures AllNumbered(doc.Applied()) <==>
            forall lastSync :: doc.Applied() - Covered(doc.graph.nodes, AncestorsOf(lastSync * doc.Applied())) == Sync.GetHashes(doc.Applied(), lastSync)
  {
    ChainsAreNumbered(doc.graph.nodes, doc.actors);
    SlicesAreTheRange(doc.graph.nodes);
  }

  method LastSyncs(have: seq<Sync.Have>) returns (r: set<Change>)
    ensures r == Sync.LastSyncs(have)
  {
    r := {};
    for k := 0 to |have|
      invariant r == Sync.LastSyncs(have[..k])
    {
      assert have[..k + 1] == have[..k] + [have[k]];
      assert forall h :: h in have[..k + 1] <==> h in have[..k] || h == have[k];
      r := r + have[k].lastSync;
    }
    assert have[..|have|] == have;
  }

  /** Which changes the filters deny, and who depends on whom among the hashes. */
  method FilterHashes(hashes: seq<Change>, have: seq<Sync.Have>) returns (denied: set<Change>, dependents: map<Change, set<Change>>)
    ensures denied == set c | c in hashes && Sync.Denied(have, c)
    ensures ListsDependents(dependents, Elements(hashes))
  {
    denied, dependents := {}, map[];
    for k := 0 to |hashes|
      invariant denied == set c | c in hashes[..k] && Sync.Denied(have, c)
      invariant ListsDependents(dependents, Elements(hashes[..k]))
    {
      dependents := AddDependents(dependents, hashes[k], Elements(hashes[..k]));
      PrefixStep([], hashes, k);
      ElementsOfAppend(hashes[..k], hashes[k]);
      assert forall c :: c in hashes[..k + 1] <==> c in hashes[..k] || c == hashes[k];
      if Sync.Denied(have, hashes[k]) {
        denied := denied + {hashes[k]};
      }
    }
    assert hashes[..|hashes|] == hashes;
  }

  /** What the other side's filters deny, with everything in range that builds
      on it, and what it asked for. */
  method GetHashesToSend(doc: Automerge, have: seq<Sync.Have>, need: set<Change>) returns (r: set<Change>)
    requires doc.ValidGraph()
    ensures r == Sync.HashesToSend(doc.Applied(), have, need)
  {
    if have == [] {
      r := need;
    } else {
      var lastSync := LastSyncs(have);
      var hashes := doc.GetChanges(lastSync);
      var denied, dependents := FilterHashes(hashes, have);
      var toSend := Spread(Elements(hashes), denied, dependents);
      ChangesClosed(doc.graph.nodes, {});
      SpreadEnds(doc.Applied(), lastSync, have, denied, toSend);
      r := need + toSend;
    }
  }

  /** Follows dependents from the denied changes. */
  method Spread(ghost range: set<Change>, denied: set<Change>, dependents: map<Change, set<Change>>) returns (toSend: set<Change>)
    requires denied <= range && ListsDependents(dependents, range)
    ensures Spreading(range, denied, Above(range, denied), toSend, {})
  {
    toSend := denied;
    var stack := toSend;
    ghost var above := Above(range, denied);
    DeniedIsAbove(range, denied);
    while stack != {}
      invariant Spreading(range, denied, above, toSend, stack)
      decreases range - toSend + stack
    {
      var d :| d in stack;
      var deps := Entry(dependents, d);
      AboveSpreads(range, denied, d);
      SpreadStep(range, denied, above, toSend, stack, d);
      SpreadAdvances(range, toSend, stack, d, deps);
      stack := stack - {d} + (deps - toSend);
      toSend := toSend + deps;
    }
  }

  // Sending.

  function OrNone(heads: Option<set<Change>>): set<Change> {
    if heads.Some? then heads.value else {}
  }

  method OurNeed(doc: Automerge, heads: set<Change>) returns (need: set<Change>)
    requires Drained(doc)
    ensures need == Sync.MissingDeps(doc.Known(), heads)
  {
    var hs := ToVec(heads);
    need := doc.GetMissingDeps(hs);
    QueueIsQueued(doc.Applied(), doc.queue);
  }

  lemma QueueIsQueued(applied: set<Change>, queue: seq<Change>)
    requires Sifted(applied, [], queue, applied + Elements(queue)) && applied == Sync.Applied(applied + Elements(queue))
    ensures Sync.Queued(applied + Elements(queue)) == Elements(queue)
    ensures DepsOf(queue) == set q, d | q in Sync.Queued(applied + Elements(queue)) && d in q.deps :: d
  {
  }

  method OurHave(doc: Automerge, need: set<Change>, theirHeads: set<Change>, sharedHeads: set<Change>) returns (have: seq<Sync.Have>)
    requires doc.ValidGraph()
    ensures have == if need <= theirHeads then [Sync.MakeHave(doc.Applied(), sharedHeads)] else []
  {
    if need <= theirHeads {
      var h := MakeBloomFilter(doc, sharedHeads);
      have := [h];
    } else {
      have := [];
    }
  }

  predicate HasAll(doc: Automerge, cs: set<Change>)
    reads doc.graph
  {
    forall c | c in cs :: doc.HasChange(c)
  }

  lemma HasAllMeans(doc: Automerge, cs: set<Change>)
    requires doc.graph.Valid()
    ensures HasAll(doc, cs) <==> cs <= doc.Applied()
  {
    InGraph(doc.graph.nodes);
  }

  /** A saved document holds the applied changes and, as orphans, the queue. */
  method Save(doc: Automerge) returns (bytes: set<Change>, hashes: set<Change>)
    requires doc.ValidGraph()
    ensures bytes == doc.Known() && hashes == doc.Applied()
  {
    var all := doc.GetChanges({});
    AncestorsOfUnion({}, {});
    assert {} * doc.Applied() == {};
    hashes := Elements(all);
    bytes := hashes + Elements(doc.queue);
  }

  /** The changes to send that were not sent before, if the document has them. */
  method Unsent(doc: Automerge, have: seq<Sync.Have>, need: set<Change>, sent: set<Change>) returns (r: Option<set<Change>>)
    requires doc.ValidGraph()
    ensures var hashes := Sync.HashesToSend(doc.Applied(), have, need) - sent;
            r == if hashes <= doc.Applied() then Some(hashes) else None
  {
    var all := GetHashesToSend(doc, have, need);
    var hashes := all - sent;
    HasAllMeans(doc, hashes);
    r := if HasAll(doc, hashes) then Some(hashes) else None;
  }

  /** What goes on the wire, and the hashes to remember as sent; nothing if a
      requested change is not in the document. */
  method Select(doc: Automerge, st: Sync.State) returns (r: Option<Sync.Selection>)
    requires Drained(doc)
    ensures r == Sync.SelectChanges(doc.Known(), st)
  {
    if st.theirHave.Some? && st.theirNeed.Some? {
      if st.theirHeads == Some({}) && st.SupportsV2() {
        var bytes, hashes := Save(doc);
        r := Some(Sync.Selection(Some(bytes), hashes, Sync.V2));
      } else {
        var unsent := Unsent(doc, st.theirHave.value, st.theirNeed.value, st.sentHashes);
        r := match unsent
          case None => None
          case Some(hashes) => Some(Sync.Selection(if hashes == {} then None else Some(hashes), hashes, st.Version()));
      }
    } else {
      r := Some(Sync.Selection(None, {}, st.Version()));
    }
  }

  method SeesReset(doc: Automerge, theirHave: Option<seq<Sync.Have>>) returns (reset: bool)
    requires doc.ValidGraph()
    ensures reset <==> theirHave.Some? && theirHave.value != [] && !(theirHave.value[0].lastSync <= doc.Applied())
  {
    if theirHave.Some? && theirHave.value != [] {
      HasAllMeans(doc, theirHave.value[0].lastSync);
      reset := !HasAll(doc, theirHave.value[0].lastSync);
    } else {
      reset := false;
    }
  }

  method GenerateSyncMessage(doc: Automerge, st: SyncState) returns (m: Option<Sync.Message>)
    requires Drained(doc)
    modifies st
    ensures (m, st.View()) == Sync.Generate(doc.Known(), old(st.View()))
  {
    var theirHeads := OrNone(st.theirHeads);
    var need := OurNeed(doc, theirHeads);
    var have := OurHave(doc, need, theirHeads, st.sharedHeads);
    var reset := SeesReset(doc, st.theirHave);
    var selection := Select(doc, st.View());
    m := st.Compose(doc.deps, need, have, reset, selection, doc.Known());
  }

  // Receiving.

  method AdvanceHeads(before: set<Change>, after: set<Change>, shared: set<Change>) returns (r: set<Change>)
    ensures forall h :: h in r <==> h in after && (h in shared || h !in before)
  {
    var newHeads := set h | h in after && h !in before;
    var common := set h | h in shared && h in after;
    r := newHeads + common;
  }

  /** Drops what the heads have among their ancestors. */
  method FilterChanges(doc: Automerge, heads: set<Change>, changes: set<Change>) returns (r: set<Change>)
    requires doc.graph.Valid()
    ensures r == changes - AncestorsOf(heads * doc.Applied())
  {
    var known := KnownHeads(doc, heads);
    var hs := ToVec(known);
    assert known * doc.Applied() == heads * doc.Applied();
    r := doc.graph.RemoveAncestors(changes, hs);
  }

  /** What loading changes does with the batch it makes: it panics exactly if the
      batch does not continue what is applied, which does not happen as long as
      every change builds on its actor's previous one. */
  ghost predicate Loaded(r: Result<(), ApplyError>, doc: Automerge, batch: seq<Change>, applied: set<Change>, known: set<Change>)
    reads doc, doc.graph
  {
    && BatchOf(applied, batch, known)
    && (r == Err(AssertionFailed) <==> !Continues(applied, batch))
    && (r != Err(AssertionFailed) ==> doc.Sound() && doc.Applied() == applied + Elements(batch) && (r.Ok? <==> NumbersFit(known)))
    && (r.Ok? ==> UpToDate(doc) && doc.Known() == known)
    && (AllNumbered(known) ==> r != Err(AssertionFailed) && doc.Valid())
  }

  /** Loads the changes of a message, which fails if a number is taken. */
  method LoadIncremental(doc: Automerge, changes: set<Change>) returns (r: Result<(), ApplyError>, ghost batch: seq<Change>)
    requires UpToDate(doc)
    modifies doc, doc.graph
    ensures Loaded(r, doc, batch, old(doc.Applied()), old(doc.Known()) + changes)
    ensures r != Err(AssertionFailed) ==> doc.GetActor() == old(doc.GetActor())
  {
    var cs := ToVec(changes);
    ghost var n, hashes := 0, doc.graph.nodes.hashes;
    r, n, batch := doc.ApplyChanges(cs);
    assert cs[..|cs|] == cs;
    ElementsOfConcat(hashes, batch);
  }

  method LoadMessage(doc: Automerge, m: Sync.Message) returns (r: Result<(), ApplyError>, ghost batch: seq<Change>)
    requires UpToDate(doc)
    modifies doc, doc.graph
    ensures Loaded(r, doc, batch, old(doc.Applied()), Sync.KnownAfter(old(doc.Known()), m))
    ensures r != Err(AssertionFailed) ==> doc.GetActor() == old(doc.GetActor())
  {
    if m.changes.Some? {
      r, batch := LoadIncremental(doc, m.changes.value);
    } else {
      r, batch := Ok(()), [];
    }
  }

  method KnownHeads(doc: Automerge, heads: set<Change>) returns (r: set<Change>)
    requires doc.graph.Valid()
    ensures r == heads * doc.Applied()
  {
    InGraph(doc.graph.nodes);
    r := set h | h in heads && doc.HasChange(h);
  }

  method ReceiveSyncMessage(doc: Automerge, st: SyncState, m: Sync.Message) returns (r: Result<(), ApplyError>, ghost batch: seq<Change>)
    requires UpToDate(doc)
    modifies doc, doc.graph, st
    ensures Loaded(r, doc, batch, old(doc.Applied()), Sync.KnownAfter(old(doc.Known()), m))
    ensures r != Err(AssertionFailed) ==> doc.GetActor() == old(doc.GetActor())
    ensures r.Ok? ==> st.View() == Sync.Receive(old(doc.Known()), old(st.View()), m)
    ensures r.Err? ==> st.View() == Heard(old(st.View()), m)
  {
    st.Hear(m);
    var before := doc.deps;
    ReceiveInSteps(doc.Known(), old(st.View()), m);
    r, batch := LoadMessage(doc, m);
    if r.Ok? {
      var unseen := FilterChanges(doc, m.heads, st.sentHashes);
      var knownHeads := KnownHeads(doc, m.heads);
      st.Acknowledge(m, before, doc.deps, knownHeads, unseen);
    }
  }

  // The loop that brings two documents together.

  ghost predicate Apart(doc1: Automerge, s1: SyncState, doc2: Automerge, s2: SyncState) {
    doc1 != doc2 && doc1.graph != doc2.graph && s1 != s2
  }

  /** The two ends, as the protocol sees them, with nothing on its way. */
  ghost function NetOf(doc1: Automerge, s1: SyncState, doc2: Automerge, s2: SyncState): Runs.Net
    reads doc1, doc1.graph, s1, doc2, doc2.graph, s2
  {
    Runs.Net(Runs.Peer(doc1.Known(), s1.View()), Runs.Peer(doc2.Known(), s2.View()), [], [])
  }

  /** One end receives what the other generated, if anything. */
  method Decode(doc: Automerge, st: SyncState, m: Option<Sync.Message>) returns (r: Result<(), ApplyError>)
    requires Drained(doc) && (m.Some? && m.value.changes.Some? ==> AllNumbered(m.value.changes.value))
    modifies doc, doc.graph, st
    ensures doc.Valid()
    ensures r.Ok? <==> m.None? || NoTwins(Sync.KnownAfter(old(doc.Known()), m.value))
    ensures r.Ok? ==> Drained(doc)
    ensures r.Ok? ==> Runs.Peer(doc.Known(), st.View()) == Decoded(Runs.Peer(old(doc.Known()), old(st.View())), m)
  {
    match m {
      case None => r := Ok(());
      case Some(message) =>
        NumberedAfter(doc, message);
        ghost var batch;
        r, batch := ReceiveSyncMessage(doc, st, message);
    }
  }

  lemma NumberedAfter(doc: Automerge, m: Sync.Message)
    requires Drained(doc) && (m.changes.Some? ==> AllNumbered(m.changes.value))
    ensures AllNumbered(Sync.KnownAfter(doc.Known(), m))
    ensures NumbersFit(Sync.KnownAfter(doc.Known(), m)) <==> NoTwins(Sync.KnownAfter(doc.Known(), m))
  {
  }

  function Decoded(p: Runs.Peer, m: Option<Sync.Message>): Runs.Peer {
    match m
    case None => p
    case Some(message) => Runs.Peer(Sync.KnownAfter(p.known, message), Sync.Receive(p.known, p.state, message))
  }

  /** A round, message by message; messages carry changes the sender holds. */
  lemma RoundInSteps(n: Runs.Net, m1: Option<Sync.Message>, st1: Sync.State, m2: Option<Sync.Message>, st2: Sync.State)
    requires n.toA == n.toB == [] && AllNumbered(n.a.known) && AllNumbered(n.b.known)
    requires (m1, st1) == Sync.Generate(n.a.known, n.a.state) && (m2, st2) == Sync.Generate(n.b.known, n.b.state)
    ensures MessageFits(m1, n.a.known) && MessageFits(m2, n.b.known)
    ensures Runs.AtRest(n) <==> m1.None? && m2.None?
    ensures Convergence.Round(n).a == Decoded(Runs.Peer(n.a.known, st1), m2)
    ensures Convergence.Round(n).b == Decoded(Runs.Peer(n.b.known, st2), m1)
  {
    Runs.SelectedIsKnown(n.a.known, n.a.state);
    Runs.SelectedIsKnown(n.b.known, n.b.state);
  }

  ghost predicate MessageFits(m: Option<Sync.Message>, known: set<Change>) {
    m.Some? && m.value.changes.Some? ==> m.value.changes.value <= known && AllNumbered(m.value.changes.value)
  }

  lemma DocNumbered(doc: Automerge)
    requires doc.Valid()
    ensures AllNumbered(doc.Known()) && NoTwins(doc.Known())
  {
  }

  /** Both ends receive, the second one first. */
  method Deliver(doc1: Automerge, s1: SyncState, m1: Option<Sync.Message>, doc2: Automerge, s2: SyncState, m2: Option<Sync.Message>)
    returns (r: Result<(), ApplyError>)
    requires Drained(doc1) && Drained(doc2) && Apart(doc1, s1, doc2, s2)
    requires MessageFits(m1, doc2.Known()) && MessageFits(m2, doc1.Known())
    modifies doc1, doc1.graph, s1, doc2, doc2.graph, s2
    ensures doc1.Valid() && doc2.Valid()
    ensures r.Ok? ==> Drained(doc1) && Drained(doc2)
    ensures r.Ok? ==> Runs.Peer(doc1.Known(), s1.View()) == Decoded(old(Runs.Peer(doc1.Known(), s1.View())), m1)
    ensures r.Ok? ==> Runs.Peer(doc2.Known(), s2.View()) == Decoded(old(Runs.Peer(doc2.Known(), s2.View())), m2)
    ensures r.Err? ==> !NoTwins(old(doc1.Known() + doc2.Known()))
  {
    ghost var known1, known2 := doc1.Known(), doc2.Known();
    r := Decode(doc2, s2, m2);
    if r.Err? {
      MessageTwins(known2, known1, m2);
    } else {
      r := Decode(doc1, s1, m1);
      if r.Err? {
        MessageTwins(known1, known2, m1);
      }
    }
  }

  /** One round.  It ends with an error only if the documents hold twins. */
  method SyncRound(doc1: Automerge, s1: SyncState, doc2: Automerge, s2: SyncState) returns (r: Result<bool, ApplyError>)
    requires Drained(doc1) && Drained(doc2) && Apart(doc1, s1, doc2, s2)
    modifies doc1, doc1.graph, s1, doc2, doc2.graph, s2
    ensures doc1.Valid() && doc2.Valid()
    ensures r.Ok? ==> Drained(doc1) && Drained(doc2)
    ensures r.Ok? ==> (r.value <==> Runs.AtRest(old(NetOf(doc1, s1, doc2, s2))))
    ensures r.Ok? ==> NetOf(doc1, s1, doc2, s2) == Convergence.Round(old(NetOf(doc1, s1, doc2, s2)))
    ensures r.Err? ==> !NoTwins(old(doc1.Known() + doc2.Known()))
  {
    ghost var net := NetOf(doc1, s1, doc2, s2);
    DocNumbered(doc1);
    DocNumbered(doc2);
    var msg1 := GenerateSyncMessage(doc1, s1);
    var msg2 := GenerateSyncMessage(doc2, s2);
    RoundInSteps(net, msg1, s1.View(), msg2, s2.View());
    if msg1.None? && msg2.None? {
      return Ok(true);
    }
    var delivered := Deliver(doc1, s1, msg2, doc2, s2, msg1);
    if delivered.Err? {
      return Err(delivered.error);
    }
    r := Ok(false);
  }

  lemma MessageTwins(known: set<Change>, peer: set<Change>, m: Option<Sync.Message>)
    requires m.Some? && MessageFits(m, peer) && !NoTwins(Sync.KnownAfter(known, m.value))
    ensures !NoTwins(known + peer) && !NoTwins(peer + known)
  {
    var c, d :| c in Sync.KnownAfter(known, m.value) && d in Sync.KnownAfter(known, m.value) && Twins(c, d);
    assert c in known + peer && d in known + peer && c in peer + known && d in peer + known;
  }

  /** What the queue of a document misses is applied in the other. */
  ghost predicate QueueAnswered(doc: Automerge, other: Automerge)
    reads doc, doc.graph, other.graph
  {
    DepsOf(doc.queue) - doc.Known() <= other.Applied()
  }

  /** What waits in the queue of a document is applied in the other. */
  ghost predicate QueueCovered(doc: Automerge, other: Automerge)
    reads doc, other.graph
  {
    Elements(doc.queue) <= other.Applied()
  }

  lemma QueueInProtocol(doc: Automerge, other: Automerge)
    requires Drained(doc) && Drained(other)
    ensures QueueAnswered(doc, other) <==> Runs.Wanting(doc.Known()) <= Sync.Applied(other.Known())
    ensures QueueCovered(doc, other) <==> Sync.Queued(doc.Known()) <= Sync.Applied(other.Known())
  {
    assert Sync.Queued(doc.Known()) == Elements(doc.queue);
    assert Runs.Wanting(doc.Known()) == DepsOf(doc.queue) - doc.Known();
  }

  lemma FreshSettled(n: Runs.Net)
    requires Runs.Initial(n)
    ensures Convergence.Settled(n)
    ensures Runs.QueuesAnswered(n) <==> Runs.Answered(n)
    ensures Convergence.Potential(n) <= 6 * Convergence.Missing(n) + 5
    ensures Runs.QueuesCovered(n) ==> Convergence.Potential(n) <= 5 * Convergence.Missing(n) + 4
  {
    assert Runs.IsRun([n]);
    Runs.RunKeepsInv([n], 0);
    Runs.RunKeepsSensible([n], 0);
    Convergence.PotentialIsBounded(n);
  }

  /** Exchanges messages until neither side has more to say.  That always
      happens, whatever the documents and their queues, within a number of rounds
      bounded by how many changes are missing; `end` is how the two ends stand
      then.  No change is lost.  If what the queue of each document misses is
      applied in the other, both documents then hold all changes of both, and it
      fails exactly when two changes of the two share actor and sequence number. */
  method AmSync(doc1: Automerge, doc2: Automerge) returns (r: Result<nat, ApplyError>, ghost end: Runs.Net)
    requires Drained(doc1) && Drained(doc2) && doc1 != doc2 && doc1.graph != doc2.graph
    modifies doc1, doc1.graph, doc2, doc2.graph
    ensures doc1.Valid() && doc2.Valid()
    ensures NoTwins(old(doc1.Known() + doc2.Known())) ==> r.Ok?
    ensures r.Ok? ==> Runs.AtRest(end) && end.a.known == doc1.Known() && end.b.known == doc2.Known()
    ensures r.Ok? ==> doc1.Known() + doc2.Known() == old(doc1.Known() + doc2.Known())
    ensures r.Ok? ==> r.value <= 6 * old(|doc2.Known() - doc1.Known()| + |doc1.Known() - doc2.Known()|) + 6
    ensures r.Ok? && old(QueueCovered(doc1, doc2) && QueueCovered(doc2, doc1)) ==>
      r.value <= 5 * old(|doc2.Known() - doc1.Known()| + |doc1.Known() - doc2.Known()|) + 5
    ensures old(QueueAnswered(doc1, doc2) && QueueAnswered(doc2, doc1)) ==>
      (r.Ok? <==> NoTwins(old(doc1.Known() + doc2.Known())))
    ensures r.Ok? && old(QueueAnswered(doc1, doc2) && QueueAnswered(doc2, doc1)) ==>
      doc1.Known() == doc2.Known() == doc1.Applied() == old(doc1.Known() + doc2.Known()) && doc1.deps == doc2.deps
  {
    var s1 := new SyncState();
    var s2 := new SyncState();
    QueueInProtocol(doc1, doc2);
    QueueInProtocol(doc2, doc1);
    ghost var start := NetOf(doc1, s1, doc2, s2);
    FreshSettled(start);
    var round := 0;
    var done := false;
    while !done
      invariant Drained(doc1) && Drained(doc2)
      invariant Onwards(start, NetOf(doc1, s1, doc2, s2), round, done)
      decreases !done, Convergence.Potential(NetOf(doc1, s1, doc2, s2))
    {
      ghost var net := NetOf(doc1, s1, doc2, s2);
      round := round + 1;
      var step := SyncRound(doc1, s1, doc2, s2);
      if step.Err? {
        return Err(step.error), start;
      }
      RoundAdvances(start, net, round - 1);
      done := step.value;
    }
    end := NetOf(doc1, s1, doc2, s2);
    RestIsUnion(start, end);
    DocNumbered(doc1);
    r := Ok(round);
  }

  /** So many rounds from the start. */
  ghost predicate Onwards(start: Runs.Net, n: Runs.Net, round: nat, done: bool) {
    && Convergence.Settled(n) && n.a.known + n.b.known == start.a.known + start.b.known
    && (Runs.Answered(start) ==> Runs.Answered(n))
    && (done ==> Runs.AtRest(n))
    && round + Convergence.Potential(n) <= Convergence.Potential(start) + if done then 1 else 0
  }

  lemma RoundAdvances(start: Runs.Net, n: Runs.Net, round: nat)
    requires Onwards(start, n, round, false)
    ensures Onwards(start, Convergence.Round(n), round + 1, Runs.AtRest(n))
    ensures !Runs.AtRest(n) ==> Convergence.Potential(Convergence.Round(n)) < Convergence.Potential(n)
  {
    Convergence.RoundGetsOn(n);
  }

  /** At rest after a run of rounds: both hold the union, if all could be
      answered at the start. */
  lemma RestIsUnion(start: Runs.Net, n: Runs.Net)
    requires Convergence.Settled(n) && Runs.AtRest(n) && (Runs.Answered(start) ==> Runs.Answered(n))
    ensures Runs.Answered(start) ==> Runs.Agreed(n)
  {
    if Runs.Answered(start) {
      Runs.RestIsAgreement(n);
    }
  }
}
