/**
Searching a run-length column that is sorted in a range: a binary search over
the slabs narrows the search, and a scan over runs finds the value.
*/
module SortedSearch {
  import opened Wrappers

  type Value = Option<int>

  /** Null comes before every item. */
  predicate Less(a: Value, b: Value) {
    if a.Some? && b.Some? then a.value < b.value else a.None? && b.Some?
  }

  datatype Run = Run(count: nat, value: Value)

  type Slab = seq<Run>

  function Expand(slab: Slab): seq<Value> {
    if slab == [] then [] else seq(slab[0].count, _ => slab[0].value) + Expand(slab[1..])
  }

  function All(slabs: seq<Slab>): seq<Value> {
    if slabs == [] then [] else Expand(slabs[0]) + All(slabs[1..])
  }

  /** No empty run, and no empty slab but for the one of an empty column. */
  ghost predicate ValidSlabs(slabs: seq<Slab>) {
    && slabs != []
    && (forall k, i :: 0 <= k < |slabs| && 0 <= i < |slabs[k]| ==> slabs[k][i].count > 0)
    && (|slabs| > 1 ==> forall k :: 0 <= k < |slabs| ==> slabs[k] != [])
  }

  lemma {:induction false} AllConcat(a: seq<Slab>, b: seq<Slab>)
    ensures All(a + b) == All(a) + All(b)
  {
    if a == [] {
      assert a + b == b;
    } else {
      assert (a + b)[1..] == a[1..] + b;
      AllConcat(a[1..], b);
    }
  }

  lemma {:induction false} ExpandLength(slab: Slab)
    requires forall i :: 0 <= i < |slab| ==> slab[i].count > 0
    ensures |Expand(slab)| >= |slab|
    ensures slab != [] ==> Expand(slab)[0] == slab[0].value
  {
    if slab != [] {
      ExpandLength(slab[1..]);
    }
  }

  function Position(slabs: seq<Slab>, k: nat): nat
    requires k <= |slabs|
  {
    |All(slabs[..k])|
  }

  lemma SlabAt(slabs: seq<Slab>, k: nat)
    requires k < |slabs|
    ensures Position(slabs, k + 1) == Position(slabs, k) + |Expand(slabs[k])| <= |All(slabs)|
    ensures All(slabs)[Position(slabs, k)..] == Expand(slabs[k]) + All(slabs[k + 1..])
  {
    AllSplit(slabs, k);
    PositionNext(slabs, k);
    DropFirst(All(slabs), All(slabs[..k]), Expand(slabs[k]), All(slabs[k + 1..]));
  }

  lemma PositionNext(slabs: seq<Slab>, k: nat)
    requires k < |slabs|
    ensures Position(slabs, k + 1) == Position(slabs, k) + |Expand(slabs[k])|
  {
    var last := [slabs[k]];
    AllConcat(slabs[..k], last);
    assert slabs[..k + 1] == slabs[..k] + last;
    assert last[1..] == [];
  }

  lemma {:induction false} AllSplit(slabs: seq<Slab>, k: nat)
    requires k < |slabs|
    ensures All(slabs) == All(slabs[..k]) + Expand(slabs[k]) + All(slabs[k + 1..])
  {
    if k > 0 {
      AllSplit(slabs[1..], k - 1);
      assert slabs[..k][1..] == slabs[1..][..k - 1] && slabs[1..][k..] == slabs[k + 1..];
      Grouped(Expand(slabs[0]), All(slabs[..k][1..]), Expand(slabs[k]), All(slabs[k + 1..]));
    }
  }

  lemma Grouped(a: seq<Value>, b: seq<Value>, c: seq<Value>, d: seq<Value>)
    ensures a + (b + c + d) == a + b + c + d
  {
  }

  lemma DropFirst(s: seq<Value>, a: seq<Value>, b: seq<Value>, c: seq<Value>)
    requires s == a + b + c
    ensures |a| <= |s| && s[|a|..] == b + c
  {
  }

  lemma {:induction false} PositionsGrow(slabs: seq<Slab>, j: nat, k: nat)
    requires ValidSlabs(slabs) && j < k < |slabs|
    ensures Position(slabs, j) + |Expand(slabs[j])| <= Position(slabs, k)
    ensures Position(slabs, j) < Position(slabs, k)
  {
    SlabAt(slabs, k - 1);
    ExpandLength(slabs[k - 1]);
    if j < k - 1 {
      PositionsGrow(slabs, j, k - 1);
    }
  }

  /** The first value of a slab, at its position. */
  lemma FirstOfSlab(slabs: seq<Slab>, k: nat)
    requires ValidSlabs(slabs) && 0 < k < |slabs|
    ensures slabs[k] != [] && Position(slabs, k) < |All(slabs)| && All(slabs)[Position(slabs, k)] == slabs[k][0].value
  {
    SlabAt(slabs, k);
    ExpandLength(slabs[k]);
  }

  ghost predicate SortedIn(values: seq<Value>, lo: nat, hi: nat)
    requires hi <= |values|
  {
    forall i, j :: lo <= i < j < hi ==> !Less(values[j], values[i])
  }

  /** The slab that holds the position, or the last one. */
  ghost predicate HoldsOrLast(slabs: seq<Slab>, k: nat, pos: nat) {
    k < |slabs| && Position(slabs, k) <= pos && (k + 1 < |slabs| ==> pos < Position(slabs, k + 1))
  }

  method SlabFor(slabs: seq<Slab>, pos: nat) returns (k: nat)
    requires ValidSlabs(slabs)
    ensures HoldsOrLast(slabs, k, pos)
  {
    k := 0;
    var start := 0;
    assert slabs[..0] == [];
    while k + 1 < |slabs| && pos >= start + |Expand(slabs[k])|
      invariant k < |slabs| && start == Position(slabs, k) <= pos
    {
      SlabAt(slabs, k);
      start := start + |Expand(slabs[k])|;
      k := k + 1;
    }
    if k + 1 < |slabs| {
      SlabAt(slabs, k);
    }
  }

  /** No slab from here on starts below the target, as far as slabs are looked
      at: this one does not, or it holds the end of the range. */
  ghost predicate SearchEnds(slabs: seq<Slab>, k: nat, target: Value, max: nat) {
    k < |slabs| && (HoldsOrLast(slabs, k, max) || (slabs[k] != [] && !Less(slabs[k][0].value, target)))
  }

  /** A slab after the current one that starts below the target, if it pays to
      go there.  Only first values of slabs within the range are compared; the
      look ahead skips one slab. */
  method BinarySearchFor(slabs: seq<Slab>, current: nat, target: Value, max: nat) returns (r: Option<nat>)
    requires ValidSlabs(slabs) && current < |slabs|
    ensures r.Some? ==>
      && current < r.value < |slabs|
      && slabs[r.value] != [] && Less(slabs[r.value][0].value, target)
      && Position(slabs, r.value) < max
      && SearchEnds(slabs, r.value + 1, target, max)
    ensures current + 2 < |slabs| ==> slabs[current + 2] != [] && (r.Some? ==> !Less(target, slabs[current + 2][0].value))
    ensures r.None? && current + 2 < |slabs| && !Less(target, slabs[current + 2][0].value) ==>
      max < Position(slabs, current + 1) || SearchEnds(slabs, current + 1, target, max)
  {
    if current + 2 >= |slabs| {
      return None;
    }
    var ahead := slabs[current + 2][0].value;
    if Less(target, ahead) {
      return None;
    }
    var start: nat := current;
    var end: nat := SlabFor(slabs, max);
    var mid: nat := (start + end + 1) / 2;
    while start < mid < end
      invariant current <= start && end < |slabs| && Position(slabs, end) <= max && mid == (start + end + 1) / 2
      invariant HoldsOrLast(slabs, end, max) || (end > current && SearchEnds(slabs, end, target, max))
      invariant start > current ==>
        start < end && slabs[start] != [] && Less(slabs[start][0].value, target) && Position(slabs, start) < max
      decreases end - start
    {
      PositionsGrow(slabs, mid, end);
      if Less(slabs[mid][0].value, target) {
        start := mid;
      } else {
        end := mid;
      }
      mid := (start + end + 1) / 2;
    }
    if end < current {
      PositionsGrow(slabs, end + 1, current + 1);
    }
    r := if start != current then Some(start) else None;
  }

  // Iterating.

  function RunValues(run: Option<Run>): seq<Value> {
    if run.Some? then seq(run.value.count, _ => run.value.value) else []
  }

  /** A place in the column: a slab, the run after the current one, and what is
      left of the current one. */
  datatype Place = Place(slab: nat, offset: nat, run: Option<Run>)

  ghost predicate InColumn(slabs: seq<Slab>, p: Place) {
    p.slab < |slabs| && p.offset <= |slabs[p.slab]|
  }

  function Rest(slabs: seq<Slab>, p: Place): seq<Value>
    requires p.slab < |slabs| && p.offset <= |slabs[p.slab]|
  {
    RunValues(p.run) + (Expand(slabs[p.slab][p.offset..]) + All(slabs[p.slab + 1..]))
  }

  /** The place is at the position. */
  ghost predicate IsAt(slabs: seq<Slab>, p: Place, pos: nat) {
    InColumn(slabs, p) && pos <= |All(slabs)| && Rest(slabs, p) == All(slabs)[pos..]
  }

  lemma SlabStart(slabs: seq<Slab>, k: nat)
    requires k < |slabs|
    ensures IsAt(slabs, Place(k, 0, None), Position(slabs, k))
  {
    SlabAt(slabs, k);
    assert slabs[k][0..] == slabs[k];
    assert [] + (Expand(slabs[k]) + All(slabs[k + 1..])) == Expand(slabs[k]) + All(slabs[k + 1..]);
  }

  /** The next run of the slab, or the first one of the next slab. */
  method PopRun(slabs: seq<Slab>, p: Place) returns (p': Place, run: Option<Run>)
    requires ValidSlabs(slabs) && InColumn(slabs, p) && p.run.None?
    ensures InColumn(slabs, p') && p'.run.None?
    ensures Rest(slabs, p) == RunValues(run) + Rest(slabs, p')
    ensures run.None? ==> Rest(slabs, p) == []
    ensures run.Some? ==> run.value.count > 0
  {
    p' := p;
    if p.offset == |slabs[p.slab]| && p.slab + 1 < |slabs| {
      p' := Place(p.slab + 1, 0, None);
      assert slabs[p.slab + 1..][0] == slabs[p'.slab] && slabs[p.slab + 1..][1..] == slabs[p'.slab + 1..];
      assert slabs[p'.slab][0..] == slabs[p'.slab];
    }
    if p'.offset < |slabs[p'.slab]| {
      var r := slabs[p'.slab][p'.offset];
      RunPopped(slabs, p');
      run := Some(r);
      p' := p'.(offset := p'.offset + 1);
    } else {
      run := None;
    }
  }

  lemma RunPopped(slabs: seq<Slab>, p: Place)
    requires InColumn(slabs, p) && p.run.None? && p.offset < |slabs[p.slab]|
    ensures Rest(slabs, p) == RunValues(Some(slabs[p.slab][p.offset])) + Rest(slabs, p.(offset := p.offset + 1))
  {
    var runs := slabs[p.slab][p.offset..];
    assert runs[0] == slabs[p.slab][p.offset] && runs[1..] == slabs[p.slab][p.offset + 1..];
  }

  /** What is left of the current run, or the next one. */
  method TakeRun(slabs: seq<Slab>, p: Place, ghost pos: nat) returns (p': Place, run: Option<Run>)
    requires ValidSlabs(slabs) && IsAt(slabs, p, pos)
    ensures InColumn(slabs, p') && p'.run.None?
    ensures run.None? ==> pos == |All(slabs)| && IsAt(slabs, p', pos)
    ensures run.Some? ==>
      && pos + run.value.count <= |All(slabs)| && IsAt(slabs, p', pos + run.value.count)
      && (forall i :: pos <= i < pos + run.value.count ==> All(slabs)[i] == run.value.value)
    ensures p.run.None? && run.Some? ==> run.value.count > 0
    decreases if p.run.Some? then 1 else 0
  {
    if p.run.Some? {
      p', run := p.(run := None), p.run;
      WithoutRun(slabs, p);
    } else {
      p', run := PopRun(slabs, p);
    }
    RunTaken(slabs, p', pos, run);
  }

  lemma WithoutRun(slabs: seq<Slab>, p: Place)
    requires InColumn(slabs, p)
    ensures Rest(slabs, p) == RunValues(p.run) + Rest(slabs, p.(run := None))
  {
  }

  lemma RunTaken(slabs: seq<Slab>, p: Place, pos: nat, run: Option<Run>)
    requires InColumn(slabs, p) && pos <= |All(slabs)| && All(slabs)[pos..] == RunValues(run) + Rest(slabs, p)
    ensures IsAt(slabs, p, pos + |RunValues(run)|)
    ensures run.Some? ==> forall i :: pos <= i < pos + run.value.count ==> All(slabs)[i] == run.value.value
    ensures Rest(slabs, p) == [] ==> pos + |RunValues(run)| == |All(slabs)|
  {
    var values, taken, rest := All(slabs), RunValues(run), Rest(slabs, p);
    DropMore(values, pos, |taken|);
    assert (taken + rest)[|taken|..] == rest;
    if run.Some? {
      assert forall i :: pos <= i < pos + run.value.count ==> values[i] == values[pos..][i - pos] == taken[i - pos];
    }
  }

  lemma DropMore(s: seq<Value>, m: nat, n: nat)
    requires m + n <= |s|
    ensures s[m..][n..] == s[m + n..]
  {
  }

  /** Puts back the last part of a run. */
  lemma PutBack(slabs: seq<Slab>, p: Place, run: Run, pos: nat, n: nat)
    requires IsAt(slabs, p, pos) && p.run.None? && n <= run.count <= pos
    requires forall i :: pos - run.count <= i < pos ==> All(slabs)[i] == run.value
    ensures IsAt(slabs, p.(run := Some(Run(n, run.value))), pos - n)
  {
    SameValues(All(slabs), pos - n, n, run.value);
    WithoutRun(slabs, p.(run := Some(Run(n, run.value))));
    assert p.(run := Some(Run(n, run.value))).(run := None) == p;
  }

  lemma SameValues(values: seq<Value>, at: nat, n: nat, v: Value)
    requires at + n <= |values| && forall i :: at <= i < at + n ==> values[i] == v
    ensures values[at..] == RunValues(Some(Run(n, v))) + values[at + n..]
  {
  }

  /** The positions of the value in a sorted range, and what is around them. */
  ghost predicate Found(values: seq<Value>, target: Value, lo: nat, hi: nat, start: nat, end: nat) {
    && start <= end <= hi <= |values|
    && (lo <= hi ==> lo <= start)
    && (forall i :: lo <= i < start ==> Less(values[i], target))
    && (forall i :: start <= i < end ==> values[i] == target)
    && (forall i :: lo <= i < hi && end <= i ==> Less(target, values[i]))
  }

  /** The answer tells exactly where the value lies, and what lies below it. */
  lemma FoundExactly(values: seq<Value>, target: Value, lo: nat, hi: nat, start: nat, end: nat, i: nat)
    requires Found(values, target, lo, hi, start, end) && lo <= i < hi
    ensures Less(values[i], target) <==> i < start
    ensures values[i] == target <==> start <= i < end
  {
  }

  /** Only one pair of positions can be the answer. */
  lemma FoundOnce(values: seq<Value>, target: Value, lo: nat, hi: nat, start: nat, end: nat, start': nat, end': nat)
    requires lo <= hi && Found(values, target, lo, hi, start, end) && Found(values, target, lo, hi, start', end')
    ensures start == start' && end == end'
  {
    var places := [start, start', end, end'];
    forall k | 0 <= k < 4 && places[k] < hi
      ensures places[k] < start <==> places[k] < start'
      ensures start <= places[k] < end <==> start' <= places[k] < end'
    {
      FoundExactly(values, target, lo, hi, start, end, places[k]);
      FoundExactly(values, target, lo, hi, start', end', places[k]);
    }
    assert places[0] == start && places[1] == start' && places[2] == end && places[3] == end';
  }

  class ColumnDataIter {
    const slabs: seq<Slab>
    var pos: nat
    var max: nat
    var place: Place

    ghost predicate Valid()
      reads this
    {
      ValidSlabs(slabs) && IsAt(slabs, place, pos) && pos <= max <= |All(slabs)|
    }

    constructor (slabs: seq<Slab>)
      requires ValidSlabs(slabs)
      ensures Valid() && this.slabs == slabs && pos == 0 && max == |All(slabs)|
    {
      this.slabs := slabs;
      pos, max, place := 0, |All(slabs)|, Place(0, 0, None);
      SlabStart(slabs, 0);
      assert slabs[..0] == [];
    }

    /** Skips values up to a position, or to the end. */
    method AdvanceTo(target: nat)
      requires Valid() && target >= pos
      modifies `pos, `place
      ensures Valid() && pos == if target <= max then target else max
    {
      var goal := if target <= max then target else max;
      while pos < goal
        invariant Valid() && pos <= goal
        decreases goal - pos, if place.run.Some? then 1 else 0
      {
        place, pos := Skip(slabs, place, pos, goal);
      }
    }

    /** The positions in a range that hold the value, or the empty range where
        it belongs; for a fresh iterator, and a column sorted in that range. */
    method SeekToValue(target: Value, lo: nat, hi: nat) returns (start: nat, end: nat)
      requires Valid() && pos == 0
      requires SortedIn(All(slabs), lo, if hi <= max then hi else max)
      modifies `pos, `place
      ensures Found(All(slabs), target, lo, if hi <= max then hi else max, start, end)
      ensures lo <= hi ==> Valid()
    {
      var top := if hi <= max then hi else max;
      if lo > pos {
        AdvanceTo(lo);
      }
      var jump := BinarySearchFor(slabs, place.slab, target, top);
      if jump.Some? {
        JumpKeepsBelow(slabs, place, pos, jump.value, target, lo, top);
        place, pos := Place(jump.value, 0, None), Position(slabs, jump.value);
      }
      place, start, end := ScanFrom(slabs, place, pos, target, lo, top);
      pos := start;
    }
  }

  /** The matching positions from here on, and the place of the first, or where
      it would be. */
  method ScanFrom(slabs: seq<Slab>, p: Place, pos: nat, target: Value, lo: nat, hi: nat) returns (p': Place, start: nat, end: nat)
    requires ValidSlabs(slabs) && IsAt(slabs, p, pos) && hi <= |All(slabs)| && (lo <= pos || hi <= pos)
    requires SortedIn(All(slabs), lo, hi) && Scanned(All(slabs), target, lo, hi, pos, pos)
    ensures Found(All(slabs), target, lo, hi, start, end)
    ensures pos <= hi ==> IsAt(slabs, p', start)
  {
    var s := Scan(slabs, p, pos, target, lo, hi);
    end := if s.pos <= hi then s.pos else hi;
    p' := if s.found.Some? then s.found.value.0 else s.place;
    start := if s.From() <= hi then s.From() else hi;
  }

  /** A jump passes over nothing but smaller values. */
  lemma JumpKeepsBelow(slabs: seq<Slab>, p: Place, pos: nat, k: nat, target: Value, lo: nat, hi: nat)
    requires ValidSlabs(slabs) && IsAt(slabs, p, pos) && p.slab < k < |slabs| && hi <= |All(slabs)|
    requires slabs[k] != [] && Less(slabs[k][0].value, target) && Position(slabs, k) < hi
    requires SortedIn(All(slabs), lo, hi)
    ensures pos <= Position(slabs, k) && IsAt(slabs, Place(k, 0, None), Position(slabs, k))
    ensures forall i :: lo <= i < Position(slabs, k) ==> Less(All(slabs)[i], target)
  {
    SlabAt(slabs, p.slab);
    if p.slab + 1 < k {
      PositionsGrow(slabs, p.slab, k);
    }
    SlabStart(slabs, k);
    FirstOfSlab(slabs, k);
  }

  /** What the scan knows at a position: below it the values are smaller, up to
      where the target was found, and equal to the target from there. */
  ghost predicate Scanned(values: seq<Value>, target: Value, lo: nat, hi: nat, from: nat, pos: nat)
    requires hi <= |values|
  {
    && (forall i {:trigger values[i]} :: lo <= i < from && i < hi ==> Less(values[i], target))
    && (forall i {:trigger values[i]} :: from <= i < pos && i < hi ==> values[i] == target)
  }

  /** One more run of a value that is not greater: if the target was found
      already, the value is the target. */
  lemma ScannedMore(values: seq<Value>, target: Value, lo: nat, hi: nat, from: nat, pos: nat, count: nat, value: Value)
    requires hi <= |values| && SortedIn(values, lo, hi) && Scanned(values, target, lo, hi, from, pos)
    requires from <= pos && pos + count <= |values| && (lo <= from || hi <= from) && !Less(target, value)
    requires forall i :: pos <= i < pos + count ==> values[i] == value
    ensures Scanned(values, target, lo, hi, if from < pos || value == target then from else pos + count, pos + count)
  {
    if from < pos < hi && count > 0 {
      assert values[from] == target && !Less(values[pos], values[from]);
    }
  }

  /** From a greater value on, all are greater. */
  lemma GreaterFromHere(values: seq<Value>, target: Value, lo: nat, hi: nat, pos: nat)
    requires hi <= |values| && SortedIn(values, lo, hi) && (lo <= pos || hi <= pos)
    requires pos < |values| && Less(target, values[pos])
    ensures forall i {:trigger values[i]} :: pos <= i < hi ==> Less(target, values[i])
  {
  }

  datatype ScanState = ScanState(place: Place, pos: nat, found: Option<(Place, nat)>, done: bool)
  {
    function From(): nat {
      if found.Some? then found.value.1 else pos
    }
  }

  /** The places of a scan that began at a position. */
  ghost predicate Placed(slabs: seq<Slab>, begin: nat, hi: nat, s: ScanState) {
    && (!s.done || begin <= hi ==> IsAt(slabs, s.place, s.pos) && begin <= s.pos)
    && (s.found.Some? ==> begin <= s.From() && IsAt(slabs, s.found.value.0, s.From()))
  }

  /** Its position relative to the range. */
  predicate Ranged(begin: nat, hi: nat, s: ScanState) {
    && (!s.done ==> (s.pos == begin || s.pos < hi) && (s.found.Some? ==> s.From() < s.pos))
    && (begin <= hi ==> s.pos <= hi && s.From() <= s.pos)
    && (s.pos >= begin || s.pos >= hi)
  }

  ghost predicate Scanning(slabs: seq<Slab>, target: Value, lo: nat, hi: nat, begin: nat, s: ScanState)
    requires hi <= |All(slabs)|
  {
    && Placed(slabs, begin, hi, s)
    && Ranged(begin, hi, s)
    && Scanned(All(slabs), target, lo, hi, s.From(), s.pos)
    && (s.done ==> forall i {:trigger All(slabs)[i]} :: s.pos <= i < hi ==> Less(target, All(slabs)[i]))
  }

  /** Takes runs until one is greater than the target, or the range ends.  Gives
      the end of the matching runs, and where the first of them was found. */
  method Scan(slabs: seq<Slab>, p: Place, pos: nat, target: Value, lo: nat, hi: nat) returns (s: ScanState)
    requires ValidSlabs(slabs) && IsAt(slabs, p, pos) && hi <= |All(slabs)| && (lo <= pos || hi <= pos)
    requires SortedIn(All(slabs), lo, hi) && Scanned(All(slabs), target, lo, hi, pos, pos)
    ensures s.done && Scanning(slabs, target, lo, hi, pos, s)
  {
    s := ScanState(p, pos, None, false);
    while !s.done
      invariant Scanning(slabs, target, lo, hi, pos, s)
      decreases !s.done, |All(slabs)| - s.pos, if s.place.run.Some? then 1 else 0
    {
      s := ScanRun(slabs, target, lo, hi, pos, s);
    }
  }

  method ScanRun(slabs: seq<Slab>, target: Value, lo: nat, hi: nat, ghost begin: nat, s: ScanState) returns (s': ScanState)
    requires ValidSlabs(slabs) && hi <= |All(slabs)| && (lo <= begin || hi <= begin) && SortedIn(All(slabs), lo, hi)
    requires Scanning(slabs, target, lo, hi, begin, s) && !s.done
    ensures Placed(slabs, begin, hi, s') && Ranged(begin, hi, s') && Scanned(All(slabs), target, lo, hi, s'.From(), s'.pos)
    ensures s'.done ==> forall i {:trigger All(slabs)[i]} :: s'.pos <= i < hi ==> Less(target, All(slabs)[i])
    ensures s'.done || s'.pos > s.pos || (s'.pos == s.pos && s.place.run.Some? && s'.place.run.None?)
  {
    var here, next, run := LookAt(slabs, s.place, s.pos);
    if run.None? {
      s' := s.(done := true);
    } else if run.value.count == 0 {
      s' := s.(place := next);
    } else if Less(target, run.value.value) {
      s' := s.(place := here, done := true);
      GreaterFromHere(All(slabs), target, lo, hi, s'.pos);
    } else {
      ScannedMore(All(slabs), target, lo, hi, s.From(), s.pos, run.value.count, run.value.value);
      s' := Took(slabs, target, lo, hi, begin, s, here, next, run.value);
    }
  }

  /** Where the scan found the target, once it has also taken a run. */
  function FromAfter(s: ScanState, target: Value, run: Run): nat {
    if s.found.Some? then s.found.value.1 else if run.value == target then s.pos else s.pos + run.count
  }

  /** The scan goes on behind a run that is not greater, or ends inside it with
      the range. */
  method Took(slabs: seq<Slab>, target: Value, lo: nat, hi: nat, ghost begin: nat, s: ScanState, here: Place, next: Place, run: Run)
      returns (s': ScanState)
    requires hi <= |All(slabs)| && !s.done && Placed(slabs, begin, hi, s) && Ranged(begin, hi, s)
    requires run.count > 0 && IsAt(slabs, here, s.pos) && IsAt(slabs, next, s.pos + run.count) && next.run.None?
    requires forall i :: s.pos <= i < s.pos + run.count ==> All(slabs)[i] == run.value
    requires Scanned(All(slabs), target, lo, hi, FromAfter(s, target, run), s.pos + run.count)
    ensures Placed(slabs, begin, hi, s') && Ranged(begin, hi, s') && (s'.done || s'.pos > s.pos)
    ensures Scanned(All(slabs), target, lo, hi, s'.From(), s'.pos) && (s'.done ==> s'.pos == hi)
  {
    var found := if run.value == target && s.found.None? then Some((here, s.pos)) else s.found;
    var after := s.pos + run.count;
    if after >= hi {
      var back := BackTo(slabs, next, run, after, hi);
      s' := ScanState(back, hi, found, true);
    } else {
      s' := ScanState(next, after, found, false);
    }
  }

  /** The run at a position: the place with it, and the place behind it. */
  method LookAt(slabs: seq<Slab>, p: Place, ghost pos: nat) returns (here: Place, next: Place, run: Option<Run>)
    requires ValidSlabs(slabs) && IsAt(slabs, p, pos)
    ensures run.None? ==> pos == |All(slabs)|
    ensures run.Some? ==>
      && pos + run.value.count <= |All(slabs)|
      && IsAt(slabs, here, pos) && IsAt(slabs, next, pos + run.value.count)
      && (forall i :: pos <= i < pos + run.value.count ==> All(slabs)[i] == run.value.value)
      && next.run.None? && (p.run.None? ==> run.value.count > 0)
  {
    next, run := TakeRun(slabs, p, pos);
    here := next.(run := run);
    if run.Some? {
      PutBack(slabs, next, run.value, pos + run.value.count, run.value.count);
    }
  }

  method BackTo(slabs: seq<Slab>, next: Place, run: Run, pos: nat, hi: nat) returns (p: Place)
    requires IsAt(slabs, next, pos) && next.run.None? && hi <= pos && run.count <= pos
    requires forall i :: pos - run.count <= i < pos ==> All(slabs)[i] == run.value
    ensures pos - hi <= run.count ==> IsAt(slabs, p, hi)
  {
    if pos - hi <= run.count {
      PutBack(slabs, next, run, pos, pos - hi);
    }
    p := next.(run := Some(run.(count := pos - hi)));
  }

  /** Takes one run, or as much of it as lies before the goal. */
  method Skip(slabs: seq<Slab>, p: Place, pos: nat, goal: nat) returns (p': Place, pos': nat)
    requires ValidSlabs(slabs) && IsAt(slabs, p, pos) && pos < goal <= |All(slabs)|
    ensures IsAt(slabs, p', pos') && pos <= pos' <= goal
    ensures pos' > pos || (p.run.Some? && p'.run.None?)
  {
    var run;
    p', run := TakeRun(slabs, p, pos);
    var after := pos + run.value.count;
    if after <= goal {
      pos' := after;
    } else {
      PutBack(slabs, p', run.value, after, after - goal);
      p', pos' := p'.(run := Some(run.value.(count := after - goal))), goal;
    }
  }
}
