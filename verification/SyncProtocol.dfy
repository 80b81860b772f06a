/**
The sync protocol between two peers, one step at a time: what a peer sends,
and what receiving a message does to its document and its sync state.

A document is given by the set `known` of changes it holds.  The changes it
has applied are the dependency-closed core of that set; the rest wait in the
queue.  Sorted hash vectors are sets.
*/
module SyncProtocol {
  import opened Wrappers
  import opened Dag
  import opened Bloom

  datatype Have = Have(lastSync: set<Change>, bloom: BloomFilter)

  datatype Capability = CapabilityV1 | CapabilityV2 | CapabilityUnknown(code: nat)

  datatype MessageVersion = V1 | V2

  /** `changes` is `None` when the list of chunks is empty.  A saved document is
      one chunk even when it holds no change. */
  datatype Message = Message(
    heads: set<Change>,
    need: set<Change>,
    have: seq<Have>,
    changes: Option<set<Change>>,
    supportedCapabilities: Option<seq<Capability>>,
    version: MessageVersion)

  datatype State = State(
    sharedHeads: set<Change>,
    lastSentHeads: set<Change>,
    theirHeads: Option<set<Change>>,
    theirNeed: Option<set<Change>>,
    theirHave: Option<seq<Have>>,
    sentHashes: set<Change>,
    inFlight: bool,
    haveResponded: bool,
    theirCapabilities: Option<seq<Capability>>)
  {
    predicate SupportsV2() {
      theirCapabilities.Some? && CapabilityV2 in theirCapabilities.value
    }

    /** The version of the next ordinary message. */
    function Version(): MessageVersion {
      if SupportsV2() then V2 else V1
    }
  }

  const NewState := State({}, {}, None, None, None, {}, false, false, None)

  /** A state that was encoded and decoded again keeps its shared heads only. */
  function Restored(st: State): State {
    NewState.(sharedHeads := st.sharedHeads, theirHave := Some([]))
  }

  const OUR_CAPABILITIES := [CapabilityV1, CapabilityV2]

  function Applied(known: set<Change>): set<Change> {
    ClosedCore(known)
  }

  function Queued(known: set<Change>): set<Change> {
    known - Applied(known)
  }

  function GetHeads(known: set<Change>): set<Change> {
    Heads(Applied(known))
  }

  /** What is neither applied nor queued, but is a head of the peer or a
      dependency of a queued change. */
  function MissingDeps(known: set<Change>, heads: set<Change>): set<Change> {
    heads + (set q, d | q in Queued(known) && d in q.deps :: d) - known
  }

  /** Every applied change that is not an ancestor of `haveDeps`. */
  function GetHashes(applied: set<Change>, haveDeps: set<Change>): set<Change> {
    applied - AncestorsOf(haveDeps * applied)
  }

  function MakeHave(applied: set<Change>, lastSync: set<Change>): Have {
    var hashes := GetHashes(applied, lastSync);
    Have(lastSync, FilterOf(|hashes|, hashes))
  }

  function LastSyncs(have: seq<Have>): set<Change> {
    set h, c | h in have && c in h.lastSync :: c
  }

  /** Every filter denies having the change. */
  predicate Denied(have: seq<Have>, c: Change) {
    forall h | h in have :: !ContainsHash(h.bloom, c)
  }

  /** The changes in range that are denied, or depend on one that is. */
  function Picked(range: set<Change>, have: seq<Have>): set<Change> {
    set c | c in range && exists a | a in range :: a in Ancestors(c) && Denied(have, a)
  }

  function HashesToSend(applied: set<Change>, have: seq<Have>, need: set<Change>): set<Change> {
    if have == [] then need else need + Picked(GetHashes(applied, LastSyncs(have)), have)
  }

  /** The changes chosen for a message: what goes on the wire, and the hashes
      remembered as sent. */
  datatype Selection = Selection(changes: Option<set<Change>>, hashes: set<Change>, version: MessageVersion)

  /** `None` when a requested change is not in the graph. */
  function SelectChanges(known: set<Change>, st: State): Option<Selection> {
    if st.theirHave.Some? && st.theirNeed.Some? then
      if st.theirHeads == Some({}) && st.SupportsV2() then
        Some(Selection(Some(known), Applied(known), V2))
      else
        var hashes := HashesToSend(Applied(known), st.theirHave.value, st.theirNeed.value) - st.sentHashes;
        if hashes <= Applied(known) then
          Some(Selection(if hashes == {} then None else Some(hashes), hashes, st.Version()))
        else
          None
    else
      Some(Selection(None, {}, st.Version()))
  }

  /** The peer refers to a sync point this document has never seen. */
  predicate MustReset(known: set<Change>, st: State) {
    st.theirHave.Some? && st.theirHave.value != [] && !(st.theirHave.value[0].lastSync <= Applied(known))
  }

  /** Nothing new to say, or still waiting for an answer. */
  predicate HoldsBack(known: set<Change>, st: State, toSend: set<Change>) {
    && st.lastSentHeads == GetHeads(known)
    && st.haveResponded
    && ((st.theirHeads == Some(GetHeads(known)) && toSend == {}) || st.inFlight)
  }

  function OurNeed(known: set<Change>, st: State): set<Change> {
    MissingDeps(known, if st.theirHeads.Some? then st.theirHeads.value else {})
  }

  function OurHave(known: set<Change>, st: State): seq<Have> {
    if OurNeed(known, st) <= (if st.theirHeads.Some? then st.theirHeads.value else {})
    then [MakeHave(Applied(known), st.sharedHeads)]
    else []
  }

  function ResetMessage(known: set<Change>): Message {
    Message(GetHeads(known), {}, [Have({}, EmptyFilter)], None, Some(OUR_CAPABILITIES), V1)
  }

  /** The message a peer sends next, if any, and its state afterwards. */
  function Generate(known: set<Change>, st: State): (Option<Message>, State) {
    if MustReset(known, st) then
      (Some(ResetMessage(known)), st)
    else
      var selection := SelectChanges(known, st);
      if selection == None || HoldsBack(known, st, selection.value.hashes) then
        (None, st)
      else
        var m := Message(GetHeads(known), OurNeed(known, st), OurHave(known, st), selection.value.changes,
                         if st.haveResponded then None else Some(OUR_CAPABILITIES), selection.value.version);
        (Some(m), st.(haveResponded := true, lastSentHeads := GetHeads(known),
                      sentHashes := st.sentHashes + selection.value.hashes, inFlight := true))
  }

  /** Both sides share the heads that just arrived, and the old shared heads
      that are still heads. */
  function AdvanceHeads(before: set<Change>, after: set<Change>, shared: set<Change>): set<Change> {
    (after - before) + shared * after
  }

  function KnownAfter(known: set<Change>, m: Message): set<Change> {
    if m.changes.Some? then known + m.changes.value else known
  }

  function Receive(known: set<Change>, st: State, m: Message): State {
    var before, known' := GetHeads(known), KnownAfter(known, m);
    var shared := if m.changes.Some? then AdvanceHeads(before, GetHeads(known'), st.sharedHeads) else st.sharedHeads;
    var sent := st.sentHashes - AncestorsOf(m.heads * Applied(known'));
    var lastSent := if m.changes.None? && m.heads == before then m.heads else st.lastSentHeads;
    var allKnown := m.heads <= Applied(known');
    var lostAll := allKnown && m.heads == {};
    State(
      if allKnown then m.heads else shared + m.heads * Applied(known'),
      if lostAll then {} else lastSent,
      Some(m.heads), Some(m.need), Some(m.have),
      if lostAll then {} else sent,
      false, st.haveResponded,
      if m.supportedCapabilities.Some? then m.supportedCapabilities else st.theirCapabilities)
  }
}
