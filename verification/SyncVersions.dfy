/**
Which version of messages peers use: the newer one only with those who said that
they read it.
*/
module SyncVersions {
  import opened Wrappers
  import opened Dag
  import opened Bloom
  import opened SyncProtocol
  import opened SyncRuns

  /** The capabilities that were announced include the newer messages. */
  predicate ReadsV2(capabilities: Option<seq<Capability>>) {
    capabilities.Some? && CapabilityV2 in capabilities.value
  }

  /** A message that asks for a restart. */
  predicate AsksRestart(m: Message) {
    m.need == {} && m.have == [Have({}, EmptyFilter)] && m.changes == None
  }

  /** A message is of the newer version exactly if the other side announced it,
      and it does not ask for a restart. */
  lemma VersionAsAnnounced(known: set<Change>, st: State)
    requires Generate(known, st).0.Some?
    ensures var m := Generate(known, st).0.value;
            && (m.version == V2 ==> ReadsV2(st.theirCapabilities))
            && (ReadsV2(st.theirCapabilities) ==> m.version == V2 || AsksRestart(m))
  {
  }

  /** What is sent first, and what asks for a restart, announces both versions;
      whoever takes it in knows. */
  lemma AnnouncesBoth(known: set<Change>, st: State, known': set<Change>, st': State)
    requires Generate(known, st).0.Some?
    ensures var m := Generate(known, st).0.value;
            && (!st.haveResponded ==> m.supportedCapabilities == Some([CapabilityV1, CapabilityV2]))
            && (st.haveResponded ==> m.supportedCapabilities == None || AsksRestart(m))
            && (m.supportedCapabilities.Some? ==> m.supportedCapabilities.value == [CapabilityV1, CapabilityV2])
            && (m.supportedCapabilities.Some? ==> Receive(known', st', m).theirCapabilities == m.supportedCapabilities)
            && (m.supportedCapabilities.None? ==> Receive(known', st', m).theirCapabilities == st'.theirCapabilities)
  {
  }

  /** Before step i of a run, peer a took in a message that announced the newer
      version. */
  ghost predicate TookIn(run: seq<Net>, i: nat) {
    exists j :: 0 <= j < i < |run| && Deliver(run[j], run[j + 1]) && ReadsV2(run[j].toA[0].supportedCapabilities)
  }

  lemma TookInStays(run: seq<Net>, i: nat)
    requires i + 1 < |run|
    ensures TookIn(run, i) ==> TookIn(run, i + 1)
    ensures Deliver(run[i], run[i + 1]) && ReadsV2(run[i].toA[0].supportedCapabilities) ==> TookIn(run, i + 1)
  {
  }

  /** What peer a knows and sends. */
  ghost predicate OnlyAsAnnounced(run: seq<Net>, i: nat)
    requires i < |run|
  {
    && (ReadsV2(run[i].a.state.theirCapabilities) ==> TookIn(run, i))
    && forall m :: m in run[i].toB && m.version == V2 ==> TookIn(run, i)
  }

  lemma {:induction false} VersionsAreAgreed(run: seq<Net>, i: nat)
    requires IsRun(run) && i < |run|
    ensures OnlyAsAnnounced(run, i)
  {
    if i > 0 {
      var n, n' := run[i - 1], run[i];
      VersionsAreAgreed(run, i - 1);
      TookInStays(run, i - 1);
      if Send(n, n') {
        VersionAsAnnounced(n.a.known, n.a.state);
      }
    }
  }

  const BOTH := Some([CapabilityV1, CapabilityV2])

  /** Once peer a has spoken, b knows what a reads, or is about to. */
  ghost predicate Arriving(n: Net) {
    && (forall m :: m in n.toB && m.supportedCapabilities.Some? ==> m.supportedCapabilities == BOTH)
    && (n.a.state.haveResponded ==>
          n.b.state.theirCapabilities == BOTH || exists m :: m in n.toB && m.supportedCapabilities == BOTH)
  }

  lemma SendArrives(n: Net, n': Net)
    requires Arriving(n) && Send(n, n')
    ensures Arriving(n')
  {
    AnnouncesBoth(n.a.known, n.a.state, {}, n.b.state);
    var m := n'.toB[|n.toB|];
    assert m in n'.toB;
    if k :| k in n.toB && k.supportedCapabilities == BOTH {
      assert k in n'.toB;
    }
  }

  lemma DeliverArrives(n: Net, n': Net)
    requires Arriving(n) && Deliver(Flip(n), Flip(n'))
    ensures Arriving(n')
  {
    if k :| k in n.toB && k.supportedCapabilities == BOTH && k != n.toB[0] {
      assert k in n'.toB;
    }
    assert n.toB[0] in n.toB;
  }

  lemma StepArrives(n: Net, n': Net)
    requires Arriving(n) && Step(n, n')
    ensures Arriving(n')
  {
    if Send(n, n') {
      SendArrives(n, n');
    } else if Deliver(Flip(n), Flip(n')) {
      DeliverArrives(n, n');
    } else {
      OtherArrives(n, n');
    }
  }

  lemma OtherArrives(n: Net, n': Net)
    requires Arriving(n) && Step(n, n') && !Send(n, n') && !Deliver(Flip(n), Flip(n'))
    ensures Arriving(n')
  {
  }

  lemma {:induction false} CapabilitiesArrive(run: seq<Net>, i: nat)
    requires IsRun(run) && i < |run|
    ensures Arriving(run[i])
    ensures run[i].a.state.haveResponded && run[i].toB == [] ==> ReadsV2(run[i].b.state.theirCapabilities)
  {
    if i > 0 {
      CapabilitiesArrive(run, i - 1);
      StepArrives(run[i - 1], run[i]);
    }
  }
}
