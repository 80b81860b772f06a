/**
Actor ids, their order, the sorted actor table, and operation ids that refer to
actors by their place in it.
*/
module Actors {
  import opened Wrappers
  import opened Dag
  import opened ChangeGraphs

  // Actor ids are ordered as byte strings.

  /** A proper start of the other, or smaller in the first byte that differs. */
  ghost predicate Lexicographic(a: ActorId, b: ActorId) {
    a < b || exists k :: SmallerAt(a, b, k)
  }

  ghost predicate SmallerAt(a: ActorId, b: ActorId, k: nat) {
    k < |a| && k < |b| && a[..k] == b[..k] && a[k] < b[k]
  }

  /** The comparison of byte vectors. */
  predicate Less(a: ActorId, b: ActorId) {
    if b == [] then false
    else if a == [] then true
    else if a[0] != b[0] then a[0] < b[0]
    else Less(a[1..], b[1..])
  }

  lemma SameStart(a: ActorId, b: ActorId, k: nat)
    requires 0 < k <= |a| && k <= |b| && a[..k] == b[..k]
    ensures a[0] == b[0]
  {
    assert a[..k][0] == b[..k][0];
  }

  lemma {:induction false} LessIsLexicographic(a: ActorId, b: ActorId)
    ensures Less(a, b) <==> Lexicographic(a, b)
  {
    if a != [] && b != [] && a[0] == b[0] {
      var a', b' := a[1..], b[1..];
      LessIsLexicographic(a', b');
      assert a == [a[0]] + a' && b == [b[0]] + b';
      assert a' < b' <==> a < b;
      forall k: nat | SmallerAt(a', b', k)
        ensures SmallerAt(a, b, k + 1)
      {
        assert a[..k + 1] == [a[0]] + a'[..k] && b[..k + 1] == [b[0]] + b'[..k];
      }
      forall k: nat | SmallerAt(a, b, k)
        ensures k > 0 && SmallerAt(a', b', k - 1)
      {
        assert a'[..k - 1] == a[..k][1..] && b'[..k - 1] == b[..k][1..];
      }
    } else if a != [] && b != [] {
      assert a[..0] == b[..0] == [];
      assert a[0] < b[0] ==> SmallerAt(a, b, 0);
      forall k: nat | SmallerAt(a, b, k)
        ensures k == 0
      {
        if k > 0 {
          SameStart(a, b, k);
        }
      }
    }
  }

  lemma {:induction false} LessTotal(a: ActorId, b: ActorId)
    ensures Less(a, b) || Less(b, a) || a == b
    ensures !(Less(a, b) && Less(b, a)) && (a == b ==> !Less(a, b))
  {
    if a != [] && b != [] && a[0] == b[0] {
      LessTotal(a[1..], b[1..]);
      assert a == [a[0]] + a[1..] && b == [b[0]] + b[1..];
    }
  }

  lemma {:induction false} LessTransitive(a: ActorId, b: ActorId, c: ActorId)
    requires Less(a, b) && Less(b, c)
    ensures Less(a, c)
  {
    if a != [] && a[0] == b[0] == c[0] {
      LessTransitive(a[1..], b[1..], c[1..]);
    }
  }

  predicate Sorted(table: seq<ActorId>) {
    forall i, j {:trigger Less(table[i], table[j])} | 0 <= i < j < |table| :: Less(table[i], table[j])
  }

  /** Of any two actors the first is lexicographically smaller. */
  ghost predicate InByteOrder(table: seq<ActorId>) {
    forall i, j {:trigger table[i], table[j]} :: 0 <= i < j < |table| ==> Lexicographic(table[i], table[j])
  }

  /** The lexicographically smaller ones come before i, the others from there. */
  ghost predicate SplitsBytes(table: seq<ActorId>, x: ActorId, i: nat) {
    && i <= |table|
    && (forall k :: 0 <= k < i ==> Lexicographic(table[k], x))
    && (forall k :: i <= k < |table| ==> Lexicographic(x, table[k]))
  }

  lemma SortedByBytes(table: seq<ActorId>, x: ActorId, idx: nat)
    ensures Sorted(table) <==> InByteOrder(table)
    ensures Splits(table, x, idx) <==> SplitsBytes(table, x, idx)
  {
    forall a, b {:trigger Less(a, b)}
      ensures Less(a, b) <==> Lexicographic(a, b)
    {
      LessIsLexicographic(a, b);
    }
    assert forall i, j {:trigger table[i], table[j]} :: 0 <= i < j < |table| ==> (Less(table[i], table[j]) <==> Lexicographic(table[i], table[j]));
  }

  /** Splits the table at x. */
  predicate Splits(table: seq<ActorId>, x: ActorId, i: nat) {
    && i <= |table|
    && (forall k | 0 <= k < i :: Less(table[k], x))
    && (forall k | i <= k < |table| :: Less(x, table[k]))
  }

  /** The place of an actor in a sorted table, or where it belongs. */
  method BinarySearch(table: seq<ActorId>, x: ActorId) returns (r: Result<nat, nat>)
    requires Sorted(table)
    ensures r.Ok? ==> r.value < |table| && table[r.value] == x
    ensures r.Err? ==> Splits(table, x, r.error) && SplitsBytes(table, x, r.error) && x !in table
  {
    var lo, hi := 0, |table|;
    while lo < hi
      invariant 0 <= lo <= hi <= |table|
      invariant forall k :: 0 <= k < lo ==> Less(table[k], x)
      invariant forall k :: hi <= k < |table| ==> Less(x, table[k])
    {
      var mid := (lo + hi) / 2;
      LessTotal(table[mid], x);
      if table[mid] == x {
        return Ok(mid);
      } else if Less(table[mid], x) {
        forall k | 0 <= k < mid
          ensures Less(table[k], x)
        {
          LessTransitive(table[k], table[mid], x);
        }
        lo := mid + 1;
      } else {
        forall k | mid < k < |table|
          ensures Less(x, table[k])
        {
          LessTransitive(x, table[mid], table[k]);
        }
        hi := mid;
      }
    }
    LessTotal(x, x);
    SortedByBytes(table, x, lo);
    r := Err(lo);
  }

  lemma SortedDistinct(table: seq<ActorId>, i: nat, j: nat)
    requires Sorted(table) && i < |table| && j < |table| && table[i] == table[j]
    ensures i == j
  {
    LessTotal(table[i], table[j]);
  }

  /** Inserting at the split keeps the table sorted and every actor findable
      under its shifted index. */
  lemma InsertKeepsTable(table: seq<ActorId>, x: ActorId, idx: nat)
    requires Sorted(table) && Splits(table, x, idx)
    ensures Sorted(InsertAt(table, idx, x)) && InsertAt(table, idx, x)[idx] == x
    ensures forall a :: 0 <= a < |table| ==> InsertAt(table, idx, x)[WithNewActor(a, idx)] == table[a]
  {
  }

  lemma RemoveKeepsTable(table: seq<ActorId>, idx: nat)
    requires Sorted(table) && idx < |table|
    ensures Sorted(RemoveAt(table, idx))
    ensures forall a :: 0 <= a < |table| && a != idx ==> RemoveAt(table, idx)[WithoutActor(a, idx)] == table[a]
  {
  }

  // Operation ids.

  datatype OpId = OpId(counter: nat, actor: nat) {
    predicate Before(o: OpId) {
      counter < o.counter || (counter == o.counter && actor < o.actor)
    }

    function ShiftedIn(idx: nat): OpId {
      OpId(counter, WithNewActor(actor, idx))
    }

    function ShiftedOut(idx: nat): Option<OpId> {
      if actor == idx then None else Some(OpId(counter, WithoutActor(actor, idx)))
    }
  }

  /** The external form of an operation id names the actor itself. */
  datatype ExId = Root | ExId(counter: nat, actor: ActorId) {
    predicate Before(e: ExId) {
      if e.Root? then false
      else if Root? then true
      else if counter == e.counter then Less(actor, e.actor)
      else counter < e.counter
    }
  }

  /** External ids are totally ordered. */
  lemma ExIdsAreOrdered(d: ExId, e: ExId, f: ExId)
    ensures d.Before(e) || e.Before(d) || d == e
    ensures !(d.Before(e) && e.Before(d)) && (d == e ==> !d.Before(e))
    ensures d.Before(e) && e.Before(f) ==> d.Before(f)
  {
    if d.ExId? && e.ExId? {
      LessTotal(d.actor, e.actor);
      if f.ExId? && Less(d.actor, e.actor) && Less(e.actor, f.actor) {
        LessTransitive(d.actor, e.actor, f.actor);
      }
    }
  }

  function ToExId(o: OpId, table: seq<ActorId>): ExId
    requires o.actor < |table|
  {
    if o.counter == 0 then Root else ExId(o.counter, table[o.actor])
  }

  /** Internal and external ids sort the same way. */
  lemma OpIdOrderIsExIdOrder(o: OpId, p: OpId, table: seq<ActorId>)
    requires Sorted(table) && o.actor < |table| && p.actor < |table|
    requires o.counter > 0 && p.counter > 0
    ensures o.Before(p) <==> ToExId(o, table).Before(ToExId(p, table))
    ensures o.Before(p) <==> o.counter < p.counter || (o.counter == p.counter && Lexicographic(table[o.actor], table[p.actor]))
  {
    LessTotal(table[o.actor], table[p.actor]);
    LessIsLexicographic(table[o.actor], table[p.actor]);
  }

  /** Through any insertion and removal of actors an operation id keeps its
      meaning; removing what was inserted is the identity. */
  lemma OpIdSurvivesRenumbering(o: OpId, table: seq<ActorId>, x: ActorId, idx: nat)
    requires Sorted(table) && Splits(table, x, idx) && o.actor < |table|
    ensures var table' := InsertAt(table, idx, x);
            && o.ShiftedIn(idx).actor < |table'|
            && ToExId(o.ShiftedIn(idx), table') == ToExId(o, table)
            && o.ShiftedIn(idx).ShiftedOut(idx) == Some(o)
            && RemoveAt(table', idx) == table
  {
    InsertKeepsTable(table, x, idx);
  }

  lemma OpIdSurvivesRemoval(o: OpId, table: seq<ActorId>, idx: nat)
    requires Sorted(table) && idx < |table| && o.actor < |table|
    ensures o.ShiftedOut(idx).None? <==> o.actor == idx
    ensures o.actor != idx ==>
      var o' := o.ShiftedOut(idx).value;
      o'.actor < |table| - 1 && ToExId(o', RemoveAt(table, idx)) == ToExId(o, table)
  {
    RemoveKeepsTable(table, idx);
  }

  // Actors for concurrent work by one replica.

  const CONCURRENCY_MAGIC_BYTES: ActorId := [0x13, 0xb2, 0x23, 0x09]

  /** Unsigned LEB128, section 7.6 of DWARF Version 5. */
  function Leb128(n: nat): (r: seq<Byte>)
    ensures r != []
  {
    if n < 128 then [n] else [n % 128 + 128] + Leb128(n / 128)
  }

  /** No number's encoding starts another's. */
  lemma {:induction false} Leb128PrefixFree(m: nat, n: nat, s: seq<Byte>, t: seq<Byte>)
    requires Leb128(m) + s == Leb128(n) + t
    ensures m == n && s == t
  {
    var l, r := Leb128(m) + s, Leb128(n) + t;
    assert l[0] == Leb128(m)[0] && r[0] == Leb128(n)[0];
    if m >= 128 {
      assert l[1..] == Leb128(m / 128) + s && r[1..] == Leb128(n / 128) + t;
      Leb128PrefixFree(m / 128, n / 128, s, t);
    } else {
      assert l[1..] == s && r[1..] == t;
    }
  }

  function WithConcurrency(actor: ActorId, level: nat): ActorId {
    CONCURRENCY_MAGIC_BYTES + Leb128(level) + actor
  }

  /** Different levels give different actors, none of them the actor itself. */
  lemma ConcurrencyLevelsDiffer(actor: ActorId, i: nat, j: nat)
    ensures WithConcurrency(actor, i) == WithConcurrency(actor, j) <==> i == j
    ensures WithConcurrency(actor, i) != actor
  {
    if WithConcurrency(actor, i) == WithConcurrency(actor, j) {
      var magic := |CONCURRENCY_MAGIC_BYTES|;
      assert WithConcurrency(actor, i)[magic..] == Leb128(i) + actor;
      assert WithConcurrency(actor, j)[magic..] == Leb128(j) + actor;
      Leb128PrefixFree(i, j, actor, actor);
    }
    assert |WithConcurrency(actor, i)| > |actor|;
  }
}
