/**
The history of a document: a directed acyclic graph of changes.

A change hash covers the content of the change and the hashes of its
dependencies, so a hash determines the change and, through it, everything the
change depends on.  The model takes that literally: a `Change` holds the
changes it depends on, and stands for its own hash.  Acyclicity is then
structural.
*/
module Dag {
  /** The three words of a hash that a Bloom filter probes with. */
  datatype Digest = Digest(x: nat, y: nat, z: nat)

  type Byte = b: int | 0 <= b < 256

  type ActorId = seq<Byte>

  /** `seqNum` numbers the changes of one actor from 1; `maxOp` is the counter of
      the last operation. */
  datatype Change = Change(digest: Digest, actor: ActorId, seqNum: nat, maxOp: nat, content: nat, deps: seq<Change>)

  /** A change and everything it transitively depends on. */
  function Ancestors(c: Change): (r: set<Change>)
    ensures c in r
  {
    {c} + set d, a | d in c.deps && a in Ancestors(d) :: a
  }

  function AncestorsOf(heads: set<Change>): set<Change> {
    set h, a | h in heads && a in Ancestors(h) :: a
  }

  function Elements(s: seq<Change>): set<Change> {
    set c | c in s
  }

  /** No change without its dependencies. */
  ghost predicate Closed(s: set<Change>) {
    forall c, d {:trigger d in c.deps, c in s} :: c in s && d in c.deps ==> d in s
  }

  /** The changes of `s` that nothing in `s` depends on. */
  function Heads(s: set<Change>): set<Change> {
    set c | c in s && forall d {:trigger c in d.deps} :: d in s ==> c !in d.deps
  }

  /** The largest dependency-closed part of `s`. */
  function ClosedCore(s: set<Change>): set<Change> {
    set c | c in s && Ancestors(c) <= s
  }

  /** Each actor's changes form one chain: of any two, the one with the higher
      sequence number depends on the other. */
  ghost predicate ActorChains(s: set<Change>) {
    forall c, d :: c in s && d in s && c.actor == d.actor && c.seqNum <= d.seqNum ==> c in Ancestors(d)
  }

  lemma {:induction false} AncestorIsSmaller(a: Change, c: Change)
    requires a in Ancestors(c)
    ensures a == c || a < c
    decreases c
  {
    if a != c {
      var d :| d in c.deps && a in Ancestors(d);
      AncestorIsSmaller(a, d);
    }
  }

  lemma {:induction false} AncestorsTransitive(a: Change, b: Change, c: Change)
    requires a in Ancestors(b) && b in Ancestors(c)
    ensures a in Ancestors(c)
    decreases c
  {
    if b != c {
      var d :| d in c.deps && b in Ancestors(d);
      AncestorsTransitive(a, b, d);
    }
  }

  lemma AncestorsAntisymmetric(a: Change, c: Change)
    requires a in Ancestors(c) && c in Ancestors(a)
    ensures a == c
  {
    AncestorIsSmaller(a, c);
    AncestorIsSmaller(c, a);
  }

  lemma DepIsAncestor(c: Change, d: Change)
    requires d in c.deps
    ensures d in Ancestors(c) && c !in Ancestors(d) && Ancestors(d) <= Ancestors(c)
  {
    if c in Ancestors(d) {
      AncestorIsSmaller(c, d);
    }
  }

  /** A closed set holds the ancestors of its members. */
  lemma {:induction false} AncestorsInClosed(s: set<Change>, c: Change)
    requires Closed(s) && c in s
    ensures Ancestors(c) <= s
    decreases c
  {
    forall a | a in Ancestors(c) && a != c
      ensures a in s
    {
      var d :| d in c.deps && a in Ancestors(d);
      AncestorsInClosed(s, d);
    }
  }

  lemma AncestorsOfInClosed(s: set<Change>, heads: set<Change>)
    requires Closed(s) && heads <= s
    ensures AncestorsOf(heads) <= s
  {
    forall h | h in heads
      ensures Ancestors(h) <= s
    {
      AncestorsInClosed(s, h);
    }
  }

  lemma AncestorsOfClosed(heads: set<Change>)
    ensures Closed(AncestorsOf(heads))
  {
    forall c, d | c in AncestorsOf(heads) && d in c.deps
      ensures d in AncestorsOf(heads)
    {
      var h :| h in heads && c in Ancestors(h);
      DepIsAncestor(c, d);
      AncestorsTransitive(d, c, h);
    }
  }

  /** Every change of a finite history lies below one of its heads. */
  lemma {:induction false} BelowAHead(s: set<Change>, c: Change) returns (h: Change)
    requires c in s
    ensures h in Heads(s) && c in Ancestors(h)
    decreases |set e | e in s && c in Ancestors(e)|
  {
    if c in Heads(s) {
      h := c;
    } else {
      var d :| d in s && c in d.deps;
      DepIsAncestor(d, c);
      var above := set e | e in s && c in Ancestors(e);
      var aboveD := set e | e in s && d in Ancestors(e);
      forall e | e in aboveD
        ensures e in above - {c}
      {
        AncestorsTransitive(c, d, e);
      }
      assert c in above;
      SubsetSize(aboveD, above - {c});
      h := BelowAHead(s, d);
      AncestorsTransitive(c, d, h);
    }
  }

  lemma {:induction false} SubsetSize<T>(a: set<T>, b: set<T>)
    requires a <= b
    ensures |a| <= |b|
    ensures |a| == |b| ==> a == b
  {
    if a != {} {
      var x :| x in a;
      SubsetSize(a - {x}, b - {x});
    }
  }

  /** A closed history is exactly what its heads reach. */
  lemma HeadsReachAll(s: set<Change>)
    requires Closed(s)
    ensures AncestorsOf(Heads(s)) == s
  {
    AncestorsOfInClosed(s, Heads(s));
    forall c | c in s
      ensures c in AncestorsOf(Heads(s))
    {
      var h := BelowAHead(s, c);
    }
  }

  /** Holding another history's heads is holding all of it. */
  lemma HeadsIncluded(s: set<Change>, t: set<Change>)
    requires Closed(s) && Closed(t)
    ensures Heads(s) <= t <==> s <= t
  {
    HeadsReachAll(s);
    if Heads(s) <= t {
      AncestorsOfInClosed(t, Heads(s));
    }
  }

  /** Equal heads mean equal histories. */
  lemma HeadsDetermine(s: set<Change>, t: set<Change>)
    requires Closed(s) && Closed(t)
    ensures Heads(s) == Heads(t) <==> s == t
  {
    HeadsReachAll(s);
    HeadsReachAll(t);
  }

  /** The closed core is the largest closed subset. */
  lemma ClosedCoreIsLargest(s: set<Change>)
    ensures Closed(ClosedCore(s)) && ClosedCore(s) <= s
    ensures forall t :: t <= s && Closed(t) ==> t <= ClosedCore(s)
  {
    forall c, d | c in ClosedCore(s) && d in c.deps
      ensures d in ClosedCore(s)
    {
      DepIsAncestor(c, d);
    }
    forall t, c | t <= s && Closed(t) && c in t
      ensures c in ClosedCore(s)
    {
      AncestorsInClosed(t, c);
    }
  }

  lemma ClosedCoreMonotone(s: set<Change>, t: set<Change>)
    requires s <= t
    ensures ClosedCore(s) <= ClosedCore(t)
  {
  }

  /** A change outside the closed core always waits for something that is
      missing altogether. */
  lemma {:induction false} WaitsForMissing(s: set<Change>, c: Change) returns (w: Change, m: Change)
    requires c in s && c !in ClosedCore(s)
    ensures w in s && w !in ClosedCore(s) && m in w.deps && m !in s
    decreases c
  {
    if exists m :: m in c.deps && m !in s {
      w := c;
      m :| m in c.deps && m !in s;
    } else {
      var a :| a in Ancestors(c) && a !in s;
      var d :| d in c.deps && a in Ancestors(d);
      w, m := WaitsForMissing(s, d);
    }
  }
}
