/**
A column of booleans, stored in slabs of alternating runs, and its splice.

A slab is a list of run lengths; offsets count runs.  Sizes are those of the
encoded bytes, so that the writer ends slabs where the program does.
*/
module BooleanColumns {
  import opened Wrappers
  import opened RunLengths

  datatype Run = Run(count: nat, value: bool)

  datatype Slab = Slab(runs: Runs, len: nat, acc: nat)

  function Values(slab: Slab): seq<bool> {
    Decode(slab.runs, false)
  }

  /** Runs alternate from false, and length and accumulator are exact. */
  ghost predicate ValidSlab(slab: Slab) {
    && Alternating(slab.runs)
    && slab.len == |Values(slab)|
    && slab.acc == CountTrue(Values(slab))
  }

  function AllValues(slabs: seq<Slab>): seq<bool> {
    if slabs == [] then [] else Values(slabs[0]) + AllValues(slabs[1..])
  }

  ghost predicate AllValid(slabs: seq<Slab>) {
    forall i :: 0 <= i < |slabs| ==> ValidSlab(slabs[i])
  }

  predicate AllFilled(slabs: seq<Slab>) {
    forall i | 0 <= i < |slabs| :: slabs[i].len > 0
  }

  /** No slab takes more bytes than that. */
  ghost predicate Bounded(slabs: seq<Slab>, bound: nat) {
    forall i :: 0 <= i < |slabs| ==> Width(slabs[i].runs) <= bound
  }

  lemma {:induction false} AllValuesConcat(a: seq<Slab>, b: seq<Slab>)
    ensures AllValues(a + b) == AllValues(a) + AllValues(b)
  {
    if a == [] {
      assert a + b == b;
    } else {
      assert (a + b)[1..] == a[1..] + b;
      AllValuesConcat(a[1..], b);
    }
  }

  // Reading.

  datatype Cursor = Cursor(value: bool, index: nat, offset: nat, acc: nat, lastOffset: nat)

  const START := Cursor(false, 0, 0, 0, 0)

  /** The cursor stands before run number `offset`. */
  ghost predicate At(c: Cursor, runs: Runs) {
    && c.offset <= |runs|
    && c.value == After(runs[..c.offset], false)
    && c.index == |Decode(runs[..c.offset], false)|
    && c.acc == CountTrue(Decode(runs[..c.offset], false))
  }

  /** What the cursor has yet to read. */
  function Rest(c: Cursor, runs: Runs): seq<bool>
    requires c.offset <= |runs|
  {
    Decode(runs[c.offset..], c.value)
  }

  method TryNext(c: Cursor, runs: Runs) returns (c': Cursor, run: Option<Run>)
    requires At(c, runs)
    ensures At(c', runs)
    ensures run.None? <==> c.offset == |runs|
    ensures run.None? ==> c' == c && Rest(c, runs) == []
    ensures run.Some? ==>
      && c'.offset == c.offset + 1 && c'.lastOffset == c.offset
      && run.value == Run(runs[c.offset], c.value) && c'.value == !c.value
      && c'.index == c.index + run.value.count && c'.acc == c.acc + (if c.value then run.value.count else 0)
      && Rest(c, runs) == Repeat(c.value, run.value.count) + Rest(c', runs)
  {
    if c.offset >= |runs| {
      return c, None;
    }
    var count, value := runs[c.offset], c.value;
    c' := Cursor(!value, c.index + count, c.offset + 1, c.acc + if value then count else 0, c.offset);
    run := Some(Run(count, value));
    RunAt(runs, c.offset, false);
    CountConcat(Decode(runs[..c.offset], false), Repeat(value, count));
    CountRepeat(value, count);
    assert runs[c.offset..][0] == count && runs[c.offset..][1..] == runs[c'.offset..];
  }

  /** Skips empty runs. */
  method Next(c: Cursor, runs: Runs) returns (c': Cursor, run: Option<Run>)
    requires At(c, runs)
    ensures At(c', runs) && c'.offset >= c.offset
    ensures run.None? ==> Rest(c, runs) == [] && c'.offset == |runs|
    ensures run.Some? ==>
      && c'.offset > c.offset && c'.lastOffset + 1 == c'.offset
      && run.value == Run(runs[c'.lastOffset], !c'.value) && run.value.count > 0
      && c'.index == c.index + run.value.count && c'.acc == c.acc + (if run.value.value then run.value.count else 0)
      && Rest(c, runs) == Repeat(run.value.value, run.value.count) + Rest(c', runs)
    decreases |runs| - c.offset
  {
    c', run := TryNext(c, runs);
    if run.Some? && run.value.count == 0 {
      var skipped := c';
      assert Repeat(c.value, 0) + Rest(skipped, runs) == Rest(skipped, runs);
      c', run := Next(skipped, runs);
    }
  }

  /** The run that holds the position, and the cursor behind it. */
  method Seek(index: nat, slab: Slab) returns (run: Option<Run>, c: Cursor)
    requires ValidSlab(slab) && index <= slab.len
    ensures At(c, slab.runs)
    ensures run.None? <==> index == 0
    ensures run.None? ==> c == START
    ensures run.Some? ==>
      && c.lastOffset + 1 == c.offset && run.value == Run(slab.runs[c.lastOffset], !c.value)
      && c.index - run.value.count < index <= c.index
  {
    c := START;
    run := None;
    assert slab.runs[0..] == slab.runs && slab.runs[..0] == [];
    if index > 0 {
      RunsFrom(slab.runs, 0, false);
      c, run := Next(c, slab.runs);
      while c.index < index
        invariant At(c, slab.runs) && run.Some? && c.lastOffset + 1 == c.offset
        invariant run.value == Run(slab.runs[c.lastOffset], !c.value)
        invariant c.index - run.value.count < index
        decreases |slab.runs| - c.offset
      {
        RunsFrom(slab.runs, c.offset, false);
        c, run := Next(c, slab.runs);
      }
    }
  }

  // Writing.

  /** Slabs that are done, and the one under way with its bytes. */
  ghost predicate Tidy(slabs: seq<Slab>, last: Slab, width: nat) {
    AllValid(slabs) && ValidSlab(last) && width == Width(last.runs)
  }

  function Joined(slabs: seq<Slab>, runs: Runs): seq<bool> {
    AllValues(slabs) + Decode(runs, false)
  }

  /** Collects runs into slabs of about `max` bytes.  `next` is the value of the
      run that may follow in the same slab. */
  class SlabWriter {
    const max: nat
    var slabs: seq<Slab>
    var runs: Runs
    var items: nat
    var acc: nat
    var width: nat
    ghost const bound: nat
    ghost var next: bool

    ghost predicate Sane()
      reads this
    {
      && 2 <= max <= bound
      && Tidy(slabs, Slab(runs, items, acc), width) && Bounded(slabs, bound)
      && (runs != [] ==> After(runs, false) == next)
    }

    /** Moreover no slab was ended without values, and the one under way is not
        full. */
    ghost predicate Valid()
      reads this
    {
      Sane() && AllFilled(slabs) && width < max
    }

    /** The slab holds an empty run and nothing else. */
    predicate Hollow()
      reads this
    {
      runs != [] && items == 0
    }

    /** Everything that was written. */
    ghost function Written(): seq<bool>
      reads this
    {
      Joined(slabs, runs)
    }

    constructor (max: nat, ghost bound: nat)
      requires 2 <= max <= bound
      ensures Valid() && Written() == [] && runs == [] && slabs == [] && !next && this.max == max && this.bound == bound
    {
      this.max, this.bound := max, bound;
      slabs, runs, items, acc, width := [], [], 0, 0, 0;
      next := false;
    }

    /** Ends the slab. */
    method CloseSlab()
      requires Sane() && runs != [] && width <= bound
      modifies `slabs, `runs, `items, `acc, `width
      ensures Sane() && Written() == old(Written()) && runs == [] && width == 0
      ensures slabs == old(slabs) + [Slab(old(runs), old(items), old(acc))]
    {
      var slab := Slab(runs, items, acc);
      var more := slabs + [slab];
      OneMoreSlab(slabs, slab, width, more);
      slabs, runs, items, acc, width := more, [], 0, 0, 0;
    }

    /** Ends the slab if it is full. */
    method CheckMax()
      requires Sane() && width <= bound
      modifies this
      ensures Sane() && Written() == old(Written()) && next == old(next) && width < max
      ensures slabs == old(slabs) + if old(width) < max then [] else [Slab(old(runs), old(items), old(acc))]
      ensures AllFilled(slabs) <==> old(AllFilled(slabs))
      ensures Hollow() <==> old(Hollow())
    {
      if width >= max {
        FullHasValues(Slab(runs, items, acc));
        OneMoreFilled(slabs, Slab(runs, items, acc));
        CloseSlab();
      }
    }

    /** Ends the slab if what is about to be copied does not fit.  A slab that
        holds no more than an empty run is ended as well. */
    method CheckCopyOverflow(copy: nat)
      requires Valid()
      modifies this
      ensures Sane() && Written() == old(Written()) && next == old(next)
      ensures AllFilled(slabs) <==> !(old(Hollow()) && 1 + copy > max)
      ensures runs == [] || runs == old(runs)
      ensures width < max && (width + copy <= max || runs == [])
      ensures old(width) + copy <= max ==> slabs == old(slabs) && runs == old(runs)
    {
      WidthOfSlab(Slab(runs, items, acc));
      if width + copy > max && width > 0 {
        OneMoreFilled(slabs, Slab(runs, items, acc));
        CloseSlab();
      }
    }

    /** Appends runs that start with v.  A new slab that starts with a run of true
        gets an empty run first. */
    method Put(chunk: Runs, v: bool, size: nat, sum: nat)
      requires Sane() && chunk != [] && (runs == [] || next == v)
      requires forall i :: 0 <= i < |chunk| && (i > 0 || v || runs != []) ==> chunk[i] > 0
      requires size == |Decode(chunk, v)| && sum == CountTrue(Decode(chunk, v))
      modifies this
      ensures Sane() && Written() == old(Written()) + Decode(chunk, v) && next == After(chunk, v)
      ensures slabs == old(slabs) && runs != [] && items == old(items) + size
      ensures width == (if old(runs) == [] && v then 1 else old(width)) + Width(chunk)
    {
      PutRuns(slabs, Slab(runs, items, acc), width, chunk, v, size, sum);
      if runs == [] && v {
        runs, width := [0], 1;
      }
      runs, width := runs + chunk, width + Width(chunk);
      items, acc := items + size, acc + sum;
      next := After(chunk, v);
    }

    /** Writes a single run. */
    method FlushBoolRun(count: nat, value: bool)
      requires max + UlebSize(count) <= bound + 1
      requires Valid() && (runs == [] || next == value) && (count == 0 ==> runs == [] && !value)
      modifies this
      ensures Valid() && Written() == old(Written()) + Repeat(value, count) && next == !value
      ensures Hollow() <==> count == 0
    {
      DecodeOne(count, value);
      CountRepeat(value, count);
      assert [count][1..] == [] && Width([count]) == UlebSize(count);
      Put([count], value, count, if value then count else 0);
      CheckMax();
    }

    /** Copies encoded runs.  The result has a slab without values exactly if the
        one before it held no more than an empty run and the copy did not fit. */
    method Copy(chunk: Runs, v: bool, size: nat, sum: nat)
      requires Valid() && chunk != [] && (runs == [] || next == v)
      requires forall i :: 0 <= i < |chunk| && (i > 0 || v || runs != []) ==> chunk[i] > 0
      requires size == |Decode(chunk, v)| && sum == CountTrue(Decode(chunk, v))
      requires (if v then 1 else 0) + Width(chunk) <= bound
      modifies this
      ensures Sane() && Written() == old(Written()) + Decode(chunk, v) && next == After(chunk, v) && width < max
      ensures AllFilled(slabs) <==> !(old(Hollow()) && 1 + Width(chunk) > max)
    {
      CheckCopyOverflow(Width(chunk));
      Put(chunk, v, size, sum);
      CheckMax();
    }

    /** Ends the last slab, unless it has no values. */
    method Finish() returns (r: seq<Slab>)
      requires Sane() && width <= bound
      modifies this
      ensures AllValues(r) == old(Written()) && AllValid(r) && Bounded(r, bound)
      ensures AllFilled(r) <==> old(AllFilled(slabs))
    {
      if items > 0 {
        OneMoreFilled(slabs, Slab(runs, items, acc));
        CloseSlab();
      }
      r := slabs;
    }
  }

  /** Appending runs to the slab under way, behind an empty run where one is
      needed. */
  lemma PutRuns(slabs: seq<Slab>, last: Slab, width: nat, chunk: Runs, v: bool, size: nat, sum: nat)
    requires Tidy(slabs, last, width) && chunk != [] && (last.runs == [] || After(last.runs, false) == v)
    requires forall i :: 0 <= i < |chunk| && (i > 0 || v || last.runs != []) ==> chunk[i] > 0
    requires size == |Decode(chunk, v)| && sum == CountTrue(Decode(chunk, v))
    ensures var first := if last.runs == [] && v then [0] else last.runs;
            && Tidy(slabs, Slab(first + chunk, last.len + size, last.acc + sum),
                 (if last.runs == [] && v then 1 else width) + Width(chunk))
            && Joined(slabs, first + chunk) == Joined(slabs, last.runs) + Decode(chunk, v)
            && After(first + chunk, false) == After(chunk, v)
  {
    var first := if last.runs == [] && v then [0] else last.runs;
    DecodeOne(0, false);
    DecodeConcat(first, chunk, false);
    CountConcat(Values(last), Decode(chunk, v));
    WidthConcat(first, chunk);
    assert Values(last) == Decode(first, false);
    assert AllValues(slabs) + (Values(last) + Decode(chunk, v)) == AllValues(slabs) + Values(last) + Decode(chunk, v);
  }

  /** A slab that is full has values. */
  lemma FullHasValues(slab: Slab)
    requires ValidSlab(slab) && Width(slab.runs) >= 2
    ensures slab.runs != [] && slab.len > 0
  {
    if Values(slab) == [] {
      NothingDecoded(slab.runs);
    }
  }

  lemma WidthOfSlab(slab: Slab)
    requires ValidSlab(slab)
    ensures Width(slab.runs) > 0 <==> slab.runs != []
    ensures slab.runs != [] && slab.len == 0 ==> Width(slab.runs) == 1
  {
    if slab.len == 0 {
      NothingDecoded(slab.runs);
    }
  }

  lemma OneMoreFilled(slabs: seq<Slab>, slab: Slab)
    ensures AllFilled(slabs + [slab]) <==> AllFilled(slabs) && slab.len > 0
  {
    var more := slabs + [slab];
    assert forall i :: 0 <= i < |slabs| ==> more[i] == slabs[i];
    assert more[|slabs|] == slab;
  }

  lemma OneMoreSlab(slabs: seq<Slab>, slab: Slab, width: nat, more: seq<Slab>)
    requires Tidy(slabs, slab, width) && more == slabs + [slab]
    ensures Tidy(more, Slab([], 0, 0), 0) && Joined(more, []) == Joined(slabs, slab.runs)
  {
    AllValuesConcat(slabs, [slab]);
    assert [slab][1..] == [];
  }

  // Encoding.

  datatype BooleanState = BooleanState(value: bool, count: nat, flushed: bool)

  /** A run that may still grow, before it is written. */
  class Encoder {
    const writer: SlabWriter
    var state: BooleanState
    ghost const most: nat

    ghost predicate Valid()
      reads this, writer
    {
      && writer.Valid()
      && |Values()| <= most && writer.max + UlebSize(most) <= writer.bound + 1
      && (writer.runs == [] || writer.next == state.value)
      && (state.count == 0 ==> !state.flushed && writer.runs == [] && writer.slabs == [] && !state.value)
    }

    ghost function Values(): seq<bool>
      reads this, writer
    {
      writer.Written() + Repeat(state.value, state.count)
    }

    constructor (writer: SlabWriter, state: BooleanState, ghost most: nat)
      requires |writer.Written()| + state.count <= most && writer.max + UlebSize(most) <= writer.bound + 1
      requires writer.Valid() && (writer.runs == [] || writer.next == state.value)
      requires state.count == 0 ==> !state.flushed && writer.runs == [] && writer.slabs == [] && !state.value
      ensures Valid() && this.writer == writer && this.state == state && this.most == most
    {
      this.writer, this.state, this.most := writer, state, most;
    }

    method AppendItem(item: bool)
      requires Valid() && |Values()| < most
      modifies this, writer
      ensures Valid() && Values() == old(Values()) + [item] && state.count > 0
    {
      if state.value == item {
        RepeatMore(state.value, state.count, 1);
        state := state.(count := state.count + 1);
      } else {
        if state.count > 0 || !state.flushed {
          UlebGrows(state.count, most);
          writer.FlushBoolRun(state.count, state.value);
          state := state.(flushed := true);
        }
        state := state.(value := item, count := 1);
      }
      assert Repeat(item, 1) == [item];
    }

    method AppendAll(items: seq<bool>)
      requires Valid() && |Values()| + |items| <= most
      modifies this, writer
      ensures Valid() && Values() == old(Values()) + items
      ensures items != [] ==> state.count > 0
    {
      for k := 0 to |items|
        invariant Valid() && Values() == old(Values()) + items[..k]
        invariant k > 0 ==> state.count > 0
      {
        AppendItem(items[k]);
        assert items[..k + 1] == items[..k] + [items[k]];
      }
      assert items[..|items|] == items;
    }

    /** Writes the pending run. */
    method Flush()
      requires Valid()
      modifies writer
      ensures writer.Valid() && writer.Written() == old(Values()) && writer.next == !state.value
      ensures writer.Hollow() <==> state.count == 0
    {
      UlebGrows(state.count, most);
      writer.FlushBoolRun(state.count, state.value);
    }
  }

  // Splicing.

  function PostValues(post: Option<Run>): seq<bool> {
    if post.Some? then Repeat(post.value.value, post.value.count) else []
  }

  /** What is left behind the cursor: the remainder of the run before it, if
      any, and the runs from there on. */
  ghost predicate Ahead(post: Option<Run>, c: Cursor, slab: Slab, values: seq<bool>) {
    && At(c, slab.runs)
    && (post.Some? ==> post.value.count > 0 && post.value.value == !c.value && c.offset > 0)
    && values == PostValues(post) + Rest(c, slab.runs)
  }

  /** What is left of a run without its first n values. */
  function PopN(run: Run, n: nat): Option<Run> {
    if run.count <= n then None else Some(run.(count := run.count - n))
  }

  lemma SkipSome(post: Option<Run>, c: Cursor, slab: Slab, values: seq<bool>, n: nat)
    requires Ahead(post, c, slab, values) && post.Some? && n <= post.value.count
    ensures n <= |values|
    ensures Ahead(PopN(post.value, n), c, slab, values[n..])
  {
    var run := post.value;
    RepeatMore(run.value, n, run.count - n);
    assert values == Repeat(run.value, n) + (Repeat(run.value, run.count - n) + Rest(c, slab.runs));
  }

  lemma DropDrop(s: seq<bool>, m: nat, n: nat)
    requires m + n <= |s|
    ensures s[m..][n..] == s[m + n..]
  {
  }

  lemma SkipRest(post: Option<Run>, c: Cursor, slab: Slab, values: seq<bool>, deleted: nat, n: nat)
    requires deleted <= |values| && Ahead(post, c, slab, values[deleted..]) && post.Some? && n <= post.value.count
    ensures deleted + n <= |values| && Ahead(PopN(post.value, n), c, slab, values[deleted + n..])
    ensures n > 0 ==> values[deleted + n - 1] == post.value.value
  {
    SkipSome(post, c, slab, values[deleted..], n);
    DropDrop(values, deleted, n);
    assert n > 0 ==> values[deleted..][n - 1] == post.value.value;
  }

  method NextAhead(cursor: Cursor, slab: Slab, ghost values: seq<bool>) returns (cursor': Cursor, run: Option<Run>)
    requires Ahead(None, cursor, slab, values)
    ensures Ahead(run, cursor', slab, values) && (run.None? ==> values == [])
    ensures run.Some? ==> cursor'.offset > cursor.offset
  {
    cursor', run := Next(cursor, slab.runs);
    assert values == Rest(cursor, slab.runs);
  }

  /** What is known after some values were deleted and others are left to be. */
  ghost predicate Deleting(post: Option<Run>, c: Cursor, slab: Slab, values: seq<bool>, deleted: nat, left: nat, overflow: nat) {
    && deleted <= |values| && Ahead(post, c, slab, values[deleted..])
    && (overflow > 0 ==> deleted == |values| && left == 0)
    && (left == 0 && post.Some? && deleted > 0 ==> values[deleted - 1] == post.value.value)
  }

  lemma DeleteFromRun(post: Option<Run>, c: Cursor, slab: Slab, values: seq<bool>, deleted: nat, left: nat, n: nat)
    requires Deleting(post, c, slab, values, deleted, left, 0) && post.Some?
    requires 0 < left && n == if left < post.value.count then left else post.value.count
    ensures n > 0 && Deleting(PopN(post.value, n), c, slab, values, deleted + n, left - n, 0)
  {
    SkipRest(post, c, slab, values, deleted, n);
  }

  lemma DeleteOnward(post: Option<Run>, c: Cursor, slab: Slab, values: seq<bool>, deleted: nat, left: nat)
    requires deleted <= |values| && left > 0 && Ahead(post, c, slab, values[deleted..]) && (post.None? ==> values[deleted..] == [])
    ensures if post.Some? then Deleting(post, c, slab, values, deleted, left, 0) else Deleting(post, c, slab, values, deleted, 0, left)
  {
  }

  /** Skips values, run by run. */
  method SpliceDelete(post: Option<Run>, cursor: Cursor, del: nat, slab: Slab, ghost values: seq<bool>)
    returns (post': Option<Run>, cursor': Cursor, deleted: nat, overflow: nat)
    requires Ahead(post, cursor, slab, values)
    ensures deleted == if del <= |values| then del else |values|
    ensures deleted + overflow == del
    ensures Ahead(post', cursor', slab, values[deleted..])
    ensures post'.Some? && deleted > 0 ==> values[deleted - 1] == post'.value.value
  {
    post', cursor', deleted, overflow := post, cursor, 0, 0;
    var left: nat := del;
    assert values[0..] == values;
    while left > 0
      invariant deleted + left + overflow == del
      invariant Deleting(post', cursor', slab, values, deleted, left, overflow)
      decreases left, |slab.runs| - cursor'.offset
    {
      if post'.Some? {
        var n := if left < post'.value.count then left else post'.value.count;
        DeleteFromRun(post', cursor', slab, values, deleted, left, n);
        post', deleted, left := PopN(post'.value, n), deleted + n, left - n;
      } else {
        cursor', post' := NextAhead(cursor', slab, values[deleted..]);
        DeleteOnward(post', cursor', slab, values, deleted, left);
        if post'.None? {
          overflow, left := left, 0;
        }
      }
    }
  }

  /** A slab cut at a position within, or at the end of, the run before the
      cursor. */
  lemma CutAt(slab: Slab, c: Cursor, run: Run, index: nat)
    requires ValidSlab(slab) && At(c, slab.runs) && c.offset == c.lastOffset + 1
    requires run == Run(slab.runs[c.lastOffset], !c.value) && c.index - run.count < index <= c.index
    ensures var prefix, delta := Decode(slab.runs[..c.lastOffset], false), c.index - index;
            && After(slab.runs[..c.lastOffset], false) == run.value
            && |prefix| == c.index - run.count && index <= |Values(slab)|
            && CountTrue(prefix) + (if run.value then run.count else 0) == c.acc
            && Values(slab)[..index] == prefix + Repeat(run.value, run.count - delta)
            && Ahead(if delta > 0 then Some(Run(delta, run.value)) else None, c, slab, Values(slab)[index..])
  {
    var prefix, delta := Decode(slab.runs[..c.lastOffset], false), c.index - index;
    RunAt(slab.runs, c.lastOffset, false);
    RunsFrom(slab.runs, c.offset, false);
    CountConcat(prefix, Repeat(run.value, run.count));
    CountRepeat(run.value, run.count);
    RepeatMore(run.value, run.count - delta, delta);
    CutPieces(Values(slab), prefix, Repeat(run.value, run.count - delta), Repeat(run.value, delta), Rest(c, slab.runs), index);
  }

  lemma CutPieces(s: seq<bool>, a: seq<bool>, b: seq<bool>, c: seq<bool>, d: seq<bool>, at: nat)
    requires s == a + (b + c) + d && at == |a| + |b|
    ensures s[..at] == a + b && s[at..] == c + d
  {
  }

  lemma Grouped(a: seq<bool>, b: seq<bool>, c: seq<bool>)
    ensures a + (b + c) == a + b + c && [] + a == a
  {
  }

  /** Copies the runs before run number k. */
  method CopyPrefix(slab: Slab, k: nat, size: nat, acc: nat, max: nat, ghost bound: nat) returns (writer: SlabWriter)
    requires ValidSlab(slab) && k <= |slab.runs| && 2 <= max <= bound && Width(slab.runs) <= bound
    requires size == |Decode(slab.runs[..k], false)| && acc == CountTrue(Decode(slab.runs[..k], false))
    ensures fresh(writer) && writer.Valid() && writer.Written() == Decode(slab.runs[..k], false)
    ensures (writer.runs == [] || writer.next == After(slab.runs[..k], false)) && writer.max == max && writer.bound == bound
  {
    writer := new SlabWriter(max, bound);
    if k > 0 {
      WidthSplit(slab.runs, k);
      writer.Copy(slab.runs[..k], false, size, acc);
      Grouped(Decode(slab.runs[..k], false), [], []);
    }
  }

  lemma StartAhead(slab: Slab)
    ensures Ahead(None, START, slab, Values(slab)[0..]) && Values(slab)[..0] == []
  {
    assert slab.runs[..0] == [] && slab.runs[0..] == slab.runs;
    Grouped(Values(slab), [], []);
  }

  /** The bytes that slabs may take: those up to where a slab is full and one run
      more, or as many as the old slab takes. */
  function Room(slab: Slab, most: nat, max: nat): (r: nat)
    requires max >= 2
    ensures r >= max && r >= Width(slab.runs) && max + UlebSize(most) <= r + 1
  {
    var full: nat := max + UlebSize(most) - 1;
    if full < Width(slab.runs) then Width(slab.runs) else full
  }

  /** Keeps what is before the position. */
  method KeepBefore(index: nat, slab: Slab, max: nat, ghost most: nat) returns (encoder: Encoder, post: Option<Run>, cursor: Cursor)
    requires ValidSlab(slab) && index <= slab.len && max >= 2 && index <= most
    ensures fresh(encoder) && fresh(encoder.writer) && encoder.Valid() && encoder.Values() == Values(slab)[..index]
    ensures encoder.writer.max == max && Ahead(post, cursor, slab, Values(slab)[index..])
    ensures encoder.most == most && encoder.writer.bound == Room(slab, most, max)
  {
    ghost var bound := Room(slab, most, max);
    var run;
    run, cursor := Seek(index, slab);
    if run.Some? {
      var count, value := run.value.count, run.value.value;
      var delta := cursor.index - index;
      CutAt(slab, cursor, run.value, index);
      var writer := CopyPrefix(slab, cursor.lastOffset, cursor.index - count, cursor.acc - (if value then count else 0), max, bound);
      encoder := new Encoder(writer, BooleanState(value, count - delta, true), most);
      post := if delta > 0 then Some(Run(delta, value)) else None;
    } else {
      var writer := new SlabWriter(max, bound);
      encoder := new Encoder(writer, BooleanState(false, 0, false), most);
      post := None;
      StartAhead(slab);
    }
  }

  /** Keeps what is before the position, skips what is deleted, and stands ready
      for new values. */
  method SpliceEncoder(index: nat, del: nat, slab: Slab, max: nat, ghost most: nat)
    returns (encoder: Encoder, post: Option<Run>, cursor: Cursor, deleted: nat, overflow: nat)
    requires ValidSlab(slab) && index <= slab.len && max >= 2 && index <= most
    ensures fresh(encoder) && fresh(encoder.writer) && encoder.Valid() && encoder.Values() == Values(slab)[..index]
    ensures deleted + overflow == del && deleted == (if del <= slab.len - index then del else slab.len - index)
    ensures encoder.writer.max == max && Ahead(post, cursor, slab, Values(slab)[index + deleted..])
    ensures encoder.most == most && encoder.writer.bound == Room(slab, most, max)
    ensures post.Some? && deleted > 0 ==> Values(slab)[index + deleted - 1] == post.value.value
  {
    encoder, post, cursor := KeepBefore(index, slab, max, most);
    ghost var rest := Values(slab)[index..];
    post, cursor, deleted, overflow := SpliceDelete(post, cursor, del, slab, rest);
    DropDrop(Values(slab), index, deleted);
  }

  /** The cursor from which the rest of the old slab may be copied. */
  ghost predicate Resumes(slab: Slab, writer: SlabWriter, c: Cursor, all: seq<bool>)
    reads writer
  {
    && At(c, slab.runs)
    && writer.next == c.value
    && (forall i :: c.offset <= i < |slab.runs| ==> slab.runs[i] > 0)
    && writer.Written() + Rest(c, slab.runs) == all
  }

  predicate StartsTrue(s: seq<bool>) {
    s != [] && s[0]
  }

  /** Writes the pending run, joined with what comes next if that has the same
      value; tells where the rest of the old slab continues. */
  method FinalizeState(slab: Slab, encoder: Encoder, post: Option<Run>, cursor: Cursor, ghost rest: seq<bool>, ghost all: seq<bool>)
    returns (c: Option<Cursor>)
    requires ValidSlab(slab) && encoder.Valid() && Ahead(post, cursor, slab, rest)
    requires all == encoder.Values() + rest && |all| <= encoder.most
    modifies encoder, encoder.writer
    ensures encoder.writer.Valid()
    ensures if c.Some? then Resumes(slab, encoder.writer, c.value, all) else encoder.writer.Written() == all
    ensures c.Some? ==> (encoder.writer.Hollow() <==> old(encoder.Values()) == [] && post.None? && StartsTrue(rest))
    ensures c.Some? && encoder.writer.Hollow() ==> encoder.writer.Written() == []
    ensures c.None? ==> post.Some? || rest == []
  {
    match post {
      case Some(p) =>
        if p.value == encoder.state.value {
          JoinPost(encoder, p, Rest(cursor, slab.runs), all);
          c := FinalizeRest(slab, encoder, cursor, all);
        } else {
          FlushPost(slab, encoder, p, cursor, all);
          c := Some(cursor);
        }
      case None =>
        Grouped(Rest(cursor, slab.runs), [], []);
        c := FinalizeRest(slab, encoder, cursor, all);
    }
  }

  method JoinPost(encoder: Encoder, p: Run, ghost rest: seq<bool>, ghost all: seq<bool>)
    requires encoder.Valid() && p.value == encoder.state.value && p.count > 0
    requires all == encoder.Values() + (Repeat(p.value, p.count) + rest) && |all| <= encoder.most
    modifies encoder
    ensures encoder.Valid() && all == encoder.Values() + rest && encoder.Values() != []
  {
    RepeatMore(p.value, encoder.state.count, p.count);
    Grouped(encoder.writer.Written(), Repeat(p.value, encoder.state.count), Repeat(p.value, p.count));
    Grouped(encoder.Values(), Repeat(p.value, p.count), rest);
    encoder.state := encoder.state.(count := encoder.state.count + p.count);
  }

  method FlushPost(slab: Slab, encoder: Encoder, p: Run, cursor: Cursor, ghost all: seq<bool>)
    requires ValidSlab(slab) && encoder.Valid() && p.value != encoder.state.value && At(cursor, slab.runs)
    requires Ahead(Some(p), cursor, slab, Repeat(p.value, p.count) + Rest(cursor, slab.runs))
    requires all == encoder.Values() + (Repeat(p.value, p.count) + Rest(cursor, slab.runs)) && |all| <= encoder.most
    modifies encoder.writer
    ensures encoder.writer.Valid() && Resumes(slab, encoder.writer, cursor, all) && !encoder.writer.Hollow()
  {
    Grouped(encoder.Values(), Repeat(p.value, p.count), Rest(cursor, slab.runs));
    encoder.Flush();
    UlebGrows(p.count, encoder.most);
    encoder.writer.FlushBoolRun(p.count, p.value);
  }

  /** The same when nothing is left of the run before the cursor. */
  method FinalizeRest(slab: Slab, encoder: Encoder, cursor: Cursor, ghost all: seq<bool>) returns (c: Option<Cursor>)
    requires ValidSlab(slab) && encoder.Valid() && At(cursor, slab.runs)
    requires all == encoder.Values() + Rest(cursor, slab.runs) && |all| <= encoder.most
    modifies encoder.writer
    ensures encoder.writer.Valid()
    ensures if c.Some? then Resumes(slab, encoder.writer, c.value, all) else encoder.writer.Written() == all
    ensures c.Some? ==> (encoder.writer.Hollow() <==> old(encoder.Values()) == [] && StartsTrue(Rest(cursor, slab.runs)))
    ensures c.Some? && encoder.writer.Hollow() ==> encoder.writer.Written() == []
    ensures c.None? ==> Rest(cursor, slab.runs) == []
    decreases |slab.runs| - cursor.offset
  {
    var next, run := TryNext(cursor, slab.runs);
    if run.None? {
      Grouped(encoder.Values(), [], []);
      encoder.Flush();
      c := None;
    } else if run.value.count == 0 {
      Grouped(Rest(next, slab.runs), [], []);
      c := FinalizeRest(slab, encoder, next, all);
    } else if run.value.value == encoder.state.value {
      JoinRun(encoder, run.value, Rest(next, slab.runs), all);
      c := Some(next);
    } else {
      encoder.Flush();
      c := Some(cursor);
    }
  }

  method JoinRun(encoder: Encoder, run: Run, ghost rest: seq<bool>, ghost all: seq<bool>)
    requires encoder.Valid() && run.value == encoder.state.value && run.count > 0
    requires all == encoder.Values() + (Repeat(run.value, run.count) + rest) && |all| <= encoder.most
    modifies encoder.writer
    ensures encoder.writer.Valid() && encoder.writer.next == !run.value && !encoder.writer.Hollow()
    ensures encoder.writer.Written() + rest == all
  {
    ghost var count, value := encoder.state.count, encoder.state.value;
    RepeatMore(value, count, run.count);
    Grouped(encoder.writer.Written(), Repeat(value, count), Repeat(value, run.count));
    Grouped(encoder.Values(), Repeat(value, run.count), rest);
    UlebGrows(encoder.state.count + run.count, encoder.most);
    encoder.writer.FlushBoolRun(encoder.state.count + run.count, encoder.state.value);
  }

  /** Copies the rest of the old slab. */
  method CopyRest(slab: Slab, writer: SlabWriter, c: Cursor)
    requires ValidSlab(slab) && writer.Valid() && At(c, slab.runs) && writer.next == c.value && Width(slab.runs) <= writer.bound
    requires forall i :: c.offset <= i < |slab.runs| ==> slab.runs[i] > 0
    modifies writer
    ensures writer.Sane() && writer.Written() == old(writer.Written()) + Rest(c, slab.runs) && writer.width < writer.max
    ensures AllFilled(writer.slabs) <==> !(old(writer.Hollow()) && 1 + Width(slab.runs[c.offset..]) > writer.max)
  {
    RunsFrom(slab.runs, c.offset, false);
    CountConcat(Decode(slab.runs[..c.offset], false), Rest(c, slab.runs));
    WidthSplit(slab.runs, c.offset);
    if c.offset < |slab.runs| {
      writer.Copy(slab.runs[c.offset..], c.value, slab.len - c.index, slab.acc - c.acc);
    }
  }

  datatype SpliceResult = Replace(add: nat, del: nat, slabs: seq<Slab>) | Noop

  function Spliced(s: seq<bool>, index: nat, del: nat, values: seq<bool>): seq<bool>
    requires index + del <= |s|
  {
    s[..index] + values + s[index + del..]
  }

  /** Nothing but a deletion from the start of a slab to the end of a run of
      false, where the bytes of the rest leave no room for an empty run. */
  predicate Bursts(slab: Slab, index: nat, del: nat, values: seq<bool>, max: nat) {
    && values == [] && index == 0 && 0 < del < slab.len
    && exists k | 0 <= k <= |slab.runs| :: Boundary(slab.runs, k, del) && 1 + Width(slab.runs[k..]) > max
  }

  /** The slabs that take the place of one after a splice.  When nothing is left,
      there is no slab, and the result reads as if nothing had to be done.  Each
      slab has values, unless the splice bursts. */
  method Splice(slab: Slab, index: nat, del: nat, values: seq<bool>, max: nat) returns (r: SpliceResult)
    requires ValidSlab(slab) && index + del <= slab.len && max >= 2 && (del > 0 || values != [])
    ensures r.Noop? <==> Spliced(Values(slab), index, del, values) == []
    ensures r.Replace? ==>
      && r.add == |values| && r.del == del && r.slabs != [] && AllValid(r.slabs)
      && AllValues(r.slabs) == Spliced(Values(slab), index, del, values)
      && Bounded(r.slabs, Room(slab, slab.len + |values|, max))
    ensures r.Replace? ==> (AllFilled(r.slabs) <==> !Bursts(slab, index, del, values, max))
  {
    var slabs, deleted := SpliceSlabs(slab, index, del, values, max);
    SomeSlabUnlessEmpty(slab, index, del, values, max, slabs);
    r := if slabs == [] then Noop else Replace(|values|, deleted, slabs);
  }

  method SpliceSlabs(slab: Slab, index: nat, del: nat, values: seq<bool>, max: nat) returns (slabs: seq<Slab>, deleted: nat)
    requires ValidSlab(slab) && index + del <= slab.len && max >= 2 && (del > 0 || values != [])
    ensures deleted == del && AllValid(slabs) && AllValues(slabs) == Spliced(Values(slab), index, del, values)
    ensures Bounded(slabs, Room(slab, slab.len + |values|, max))
    ensures AllFilled(slabs) <==> !Bursts(slab, index, del, values, max)
  {
    ghost var rest, all := Values(slab)[index + del..], Spliced(Values(slab), index, del, values);
    var encoder, post, cursor, overflow;
    encoder, post, cursor, deleted, overflow := SpliceEncoder(index, del, slab, max, slab.len + |values|);
    ghost var room := encoder.writer.bound;
    SplicedLength(Values(slab), index, del, values);
    encoder.AppendAll(values);
    WriteRest(slab, index, del, values, max, encoder, post, cursor, rest, all);
    slabs := encoder.writer.Finish();
    assert Bounded(slabs, room);
  }

  /** Writes what is left behind the new values. */
  method WriteRest(slab: Slab, index: nat, del: nat, values: seq<bool>, max: nat, encoder: Encoder, post: Option<Run>, cursor: Cursor, ghost rest: seq<bool>, ghost all: seq<bool>)
    requires ValidSlab(slab) && index + del <= slab.len && (del > 0 || values != [])
    requires rest == Values(slab)[index + del..] && all == Spliced(Values(slab), index, del, values)
    requires encoder.Valid() && encoder.Values() == Values(slab)[..index] + values && |all| <= encoder.most
    requires encoder.writer.max == max && Width(slab.runs) <= encoder.writer.bound
    requires Ahead(post, cursor, slab, rest)
    requires post.Some? && del > 0 ==> Values(slab)[index + del - 1] == post.value.value
    modifies encoder, encoder.writer
    ensures encoder.writer.Sane() && encoder.writer.Written() == all && encoder.writer.width < max
    ensures AllFilled(encoder.writer.slabs) <==> !Bursts(slab, index, del, values, max)
  {
    var c := FinalizeState(slab, encoder, post, cursor, rest, all);
    if c.Some? {
      if encoder.writer.Hollow() {
        AllIsRest(Values(slab), index, del, values, encoder.writer.Written(), Rest(c.value, slab.runs));
      }
      BurstsHere(slab, index, del, values, max, post, c.value, encoder.writer.Hollow());
      CopyRest(slab, encoder.writer, c.value);
    } else {
      NothingToBurst(slab, index, del, values, max, post, rest);
    }
  }

  lemma AllIsRest(s: seq<bool>, index: nat, del: nat, values: seq<bool>, written: seq<bool>, rest: seq<bool>)
    requires index + del <= |s| && s[..index] + values == [] == written && written + rest == Spliced(s, index, del, values)
    ensures rest == s[index + del..]
  {
    assert written + rest == rest;
    assert s[..index] + values + s[index + del..] == s[index + del..];
  }

  lemma SomeSlabUnlessEmpty(slab: Slab, index: nat, del: nat, values: seq<bool>, max: nat, slabs: seq<Slab>)
    requires ValidSlab(slab) && index + del <= slab.len && AllValues(slabs) == Spliced(Values(slab), index, del, values)
    requires AllFilled(slabs) <==> !Bursts(slab, index, del, values, max)
    requires AllValid(slabs)
    ensures slabs == [] <==> Spliced(Values(slab), index, del, values) == []
  {
    SomeSlabSomeValue(slabs);
    if Bursts(slab, index, del, values, max) {
      assert |Spliced(Values(slab), index, del, values)| == slab.len - del > 0;
    }
  }

  lemma SomeSlabSomeValue(slabs: seq<Slab>)
    requires AllValid(slabs)
    ensures slabs == [] ==> AllValues(slabs) == []
    ensures AllFilled(slabs) && AllValues(slabs) == [] ==> slabs == []
  {
  }

  /** A deletion that bursts ends at a change from false to true. */
  lemma BurstTurns(slab: Slab, del: nat, max: nat)
    requires ValidSlab(slab) && Bursts(slab, 0, del, [], max)
    ensures !Values(slab)[del - 1] && Values(slab)[del]
  {
    var k :| 0 <= k <= |slab.runs| && Boundary(slab.runs, k, del) && 1 + Width(slab.runs[k..]) > max;
    BoundaryTurns(slab.runs, k, del);
  }

  lemma NothingToBurst(slab: Slab, index: nat, del: nat, values: seq<bool>, max: nat, post: Option<Run>, rest: seq<bool>)
    requires ValidSlab(slab) && index + del <= slab.len && rest == Values(slab)[index + del..]
    requires post.Some? ==> rest != [] && rest[0] == post.value.value
    requires post.Some? && del > 0 ==> Values(slab)[index + del - 1] == post.value.value
    requires post.Some? || rest == []
    ensures !Bursts(slab, index, del, values, max)
  {
    if Bursts(slab, index, del, values, max) {
      BurstTurns(slab, del, max);
    }
  }

  /** Where the copy resumes after nothing but an empty run was written. */
  lemma ResumesAtBoundary(slab: Slab, del: nat, c: Cursor)
    requires ValidSlab(slab) && del < slab.len && At(c, slab.runs) && Rest(c, slab.runs) == Values(slab)[del..]
    requires Values(slab)[del] && forall i :: c.offset <= i < |slab.runs| ==> slab.runs[i] > 0
    ensures Boundary(slab.runs, c.offset, del)
  {
    RunsFrom(slab.runs, c.offset, false);
    assert Rest(c, slab.runs)[0] == Values(slab)[del];
    assert slab.runs[c.offset..][0] == slab.runs[c.offset];
  }

  /** The writer holds no more than an empty run, and the rest does not fit,
      exactly for a splice that bursts. */
  lemma BurstsHere(slab: Slab, index: nat, del: nat, values: seq<bool>, max: nat, post: Option<Run>, c: Cursor, hollow: bool)
    requires ValidSlab(slab) && index + del <= slab.len && (del > 0 || values != []) && At(c, slab.runs)
    requires forall i :: c.offset <= i < |slab.runs| ==> slab.runs[i] > 0
    requires hollow <==> Values(slab)[..index] + values == [] && post.None? && StartsTrue(Values(slab)[index + del..])
    requires hollow ==> Rest(c, slab.runs) == Values(slab)[index + del..]
    requires post.Some? && del > 0 ==> Values(slab)[index + del - 1] == post.value.value
    requires post.Some? ==> index + del < slab.len && Values(slab)[index + del] == post.value.value
    ensures hollow && 1 + Width(slab.runs[c.offset..]) > max <==> Bursts(slab, index, del, values, max)
  {
    if hollow {
      assert |Values(slab)[..index]| == 0 && Values(slab)[index + del..][0] == Values(slab)[index + del];
      ResumesAtBoundary(slab, del, c);
    }
    if Bursts(slab, index, del, values, max) {
      BurstTurns(slab, del, max);
      var k :| 0 <= k <= |slab.runs| && Boundary(slab.runs, k, del) && 1 + Width(slab.runs[k..]) > max;
      assert hollow;
      OneBoundary(slab.runs, k, c.offset, del);
    }
  }

  // The column.

  /** The slab that holds a position, or the last one, and where it starts. */
  function SlabFor(slabs: seq<Slab>, index: nat): (r: (nat, nat))
    requires slabs != []
    ensures r.0 < |slabs|
  {
    if |slabs| == 1 || index < slabs[0].len then (0, 0) else
      var (i, pos) := SlabFor(slabs[1..], index - slabs[0].len);
      (i + 1, slabs[0].len + pos)
  }

  lemma FirstSlab(slabs: seq<Slab>)
    requires slabs != [] && AllValid(slabs)
    ensures AllValid(slabs[1..]) && slabs[0].len == |Values(slabs[0])|
    ensures |AllValues(slabs)| == slabs[0].len + |AllValues(slabs[1..])|
  {
    assert ValidSlab(slabs[0]);
  }

  lemma {:induction false} SlabForFits(slabs: seq<Slab>, index: nat)
    requires slabs != [] && AllValid(slabs) && index <= |AllValues(slabs)|
    ensures var (i, pos) := SlabFor(slabs, index);
            pos == |AllValues(slabs[..i])| <= index <= pos + slabs[i].len
  {
    FirstSlab(slabs);
    if |slabs| == 1 {
      assert slabs[1..] == [] && slabs[..0] == [];
    } else if index < slabs[0].len {
      assert slabs[..0] == [];
    } else {
      var (i, pos) := SlabFor(slabs[1..], index - slabs[0].len);
      SlabForFits(slabs[1..], index - slabs[0].len);
      AllValuesFirst(slabs, i + 1);
    }
  }

  /** All slabs but the last hold positions before their end only. */
  lemma {:induction false} SlabForHolds(slabs: seq<Slab>, index: nat)
    requires slabs != []
    ensures var (i, pos) := SlabFor(slabs, index); i + 1 < |slabs| ==> index < pos + slabs[i].len
  {
    if |slabs| > 1 && index >= slabs[0].len {
      SlabForHolds(slabs[1..], index - slabs[0].len);
    }
  }

  lemma AllValuesFirst(slabs: seq<Slab>, i: nat)
    requires 0 < i <= |slabs|
    ensures AllValues(slabs[..i]) == Values(slabs[0]) + AllValues(slabs[1..][..i - 1])
  {
    assert slabs[..i][1..] == slabs[1..][..i - 1];
  }

  lemma AllValuesAt(slabs: seq<Slab>, i: nat)
    requires i < |slabs|
    ensures AllValues(slabs) == AllValues(slabs[..i]) + Values(slabs[i]) + AllValues(slabs[i + 1..])
  {
    AllValuesConcat(slabs[..i], slabs[i..]);
    assert slabs == slabs[..i] + slabs[i..] && slabs[i..][1..] == slabs[i + 1..];
  }

  lemma AllValuesReplaced(slabs: seq<Slab>, i: nat, others: seq<Slab>)
    requires i < |slabs| && AllValid(slabs) && AllValid(others)
    ensures var r := slabs[..i] + others + slabs[i + 1..];
            AllValid(r) && AllValues(r) == AllValues(slabs[..i]) + AllValues(others) + AllValues(slabs[i + 1..])
  {
    AllValuesConcat(slabs[..i], others);
    AllValuesConcat(slabs[..i] + others, slabs[i + 1..]);
  }

  /** Everything is taken out of a slab, and nothing put in. */
  predicate Empties(slabs: seq<Slab>, index: nat, del: nat, values: seq<bool>)
    requires slabs != []
  {
    values == [] && 0 < del == slabs[SlabFor(slabs, index).0].len
  }

  /** The splice bursts the slab that holds its position. */
  predicate BurstsAt(slabs: seq<Slab>, index: nat, del: nat, values: seq<bool>, max: nat)
    requires slabs != []
  {
    var (i, pos) := SlabFor(slabs, index);
    pos <= index && Bursts(slabs[i], index - pos, del, values, max)
  }

  /** A failing input: taking the one value out of a column, which stays. */
  lemma LastValueStays(slabs: seq<Slab>)
    requires slabs == [Slab([1], 1, 0)]
    ensures AllValid(slabs) && Empties(slabs, 0, 1, [])
    ensures AllValues(slabs) == [false] && Spliced(AllValues(slabs), 0, 1, []) == []
  {
    assert slabs[0] == Slab([1], 1, 0) && slabs[1..] == [];
    assert [1][1..] == [];
  }

  lemma {:induction false} SingleValues(n: nat, v: bool)
    ensures |Decode(seq(n, _ => 1), v)| == Width(seq(n, _ => 1)) == n
    ensures CountTrue(Decode(seq(n, _ => 1), v)) == if v then (n + 1) / 2 else n / 2
    ensures After(seq(n, _ => 1), v) == if n % 2 == 0 then v else !v
  {
    var ones: Runs := seq(n, _ => 1);
    if n > 0 {
      assert ones[1..] == seq(n - 1, _ => 1);
      SingleValues(n - 1, !v);
      CountConcat(Repeat(v, 1), Decode(ones[1..], !v));
      CountRepeat(v, 1);
    }
  }

  /** A failing input, with slabs of 64 bytes: 63 values that alternate and 128
      times true, from which the first value is taken. */
  lemma FullSlabBursts(slab: Slab)
    requires slab == Slab(seq(63, _ => 1) + [128], 191, 159)
    ensures ValidSlab(slab) && Bursts(slab, 0, 1, [], 64)
  {
    var ones: Runs := seq(63, _ => 1);
    SingleValues(63, false);
    DecodeConcat(ones, [128], false);
    DecodeOne(128, true);
    CountConcat(Decode(ones, false), Repeat(true, 128));
    CountRepeat(true, 128);
    SingleValues(62, true);
    assert slab.runs[1..] == seq(62, _ => 1) + [128] && slab.runs[..1] == [1];
    WidthConcat(seq(62, _ => 1), [128]);
    assert [128][1..] == [] && Bits(128) == 8;
    DecodeOne(1, false);
    assert Boundary(slab.runs, 1, 1);
  }

  /** Replacing one slab by others splices the whole. */
  lemma SpliceAround(before: seq<bool>, s: seq<bool>, after: seq<bool>, index: nat, del: nat, values: seq<bool>, at: nat)
    requires index + del <= |s| && at == |before| + index
    ensures Spliced(before + s + after, at, del, values) == before + Spliced(s, index, del, values) + after
  {
  }

  /** The run that ends each slab must exist, and nothing may come after it;
      otherwise the program panics. */
  method ComputeMinMax(slabs: seq<Slab>) returns (ok: bool)
    requires AllValid(slabs)
    ensures ok <==> AllFilled(slabs)
  {
    for k := 0 to |slabs|
      invariant AllFilled(slabs[..k])
    {
      var run, c := Seek(slabs[k].len, slabs[k]);
      RunsFrom(slabs[k].runs, c.offset, false);
      var end, next := Next(c, slabs[k].runs);
      if run.None? || next.Some? {
        return false;
      }
      assert slabs[..k + 1] == slabs[..k] + [slabs[k]];
      OneMoreFilled(slabs[..k], slabs[k]);
    }
    assert slabs[..|slabs|] == slabs;
    ok := true;
  }

  class ColumnData {
    const slabSize: nat
    var slabs: seq<Slab>
    var len: nat

    ghost predicate Valid()
      reads this
    {
      slabSize >= 2 && slabs != [] && AllValid(slabs) && len == |View()|
    }

    ghost function View(): seq<bool>
      reads this
    {
      AllValues(slabs)
    }

    constructor (slabSize: nat)
      requires slabSize >= 2
      ensures Valid() && View() == [] && this.slabSize == slabSize
    {
      this.slabSize := slabSize;
      slabs, len := [Slab([], 0, 0)], 0;
    }

    /** Splices within one slab; `ok` tells that the program does not panic.
        This is the splice of the plain sequence, with two exceptions: taking
        everything out of a slab and putting nothing in leaves the column as it
        was, and some deletions from the start of a full slab panic.  If no slab
        takes more bytes than a bound, none comes to, unless the bound is below
        what a slab that is just not full takes with one run more. */
    method SpliceValues(index: nat, del: nat, values: seq<bool>, ghost bound: nat) returns (ok: bool)
      requires Valid() && index + del <= len
      requires var (i, pos) := SlabFor(slabs, index); index + del <= pos + slabs[i].len
      modifies this
      ensures Valid()
      ensures ok <==> !old(BurstsAt(slabs, index, del, values, slabSize))
      ensures old(Bounded(slabs, bound)) && slabSize + UlebSize(old(len) + |values|) <= bound + 1 ==> Bounded(slabs, bound)
      ensures !ok || old(Empties(slabs, index, del, values)) ==> View() == old(View())
      ensures ok && View() == Spliced(old(View()), index, del, values) <==>
              !old(Empties(slabs, index, del, values)) && !old(BurstsAt(slabs, index, del, values, slabSize))
    {
      var (i, pos) := SlabFor(slabs, index);
      SlabForFits(slabs, index);
      SplicedLength(View(), index, del, values);
      if values == [] && del == 0 {
        return true;
      }
      var changed, more;
      ghost var within := Bounded(slabs, bound) && slabSize + UlebSize(len + |values|) <= bound + 1;
      ok, changed, more := SpliceOne(slabs, i, index - pos, del, values, slabSize, index, within, bound);
      slabs := more;
      len := if changed then len + |values| - del else len;
    }
  }

  /** The slabs after a splice within one of them, if the program does not
      panic. */
  method SpliceOne(slabs: seq<Slab>, i: nat, index: nat, del: nat, values: seq<bool>, max: nat, ghost at: nat, ghost within: bool, ghost bound: nat)
    returns (ok: bool, changed: bool, slabs': seq<Slab>)
    requires i < |slabs| && AllValid(slabs) && index + del <= slabs[i].len && max >= 2 && (del > 0 || values != [])
    requires at == |AllValues(slabs[..i])| + index
    requires within ==> Bounded(slabs, bound) && max + UlebSize(|AllValues(slabs)| + |values|) <= bound + 1
    ensures ok <==> !Bursts(slabs[i], index, del, values, max)
    ensures changed <==> ok && !(values == [] && del == slabs[i].len)
    ensures !changed ==> slabs' == slabs
    ensures slabs' != [] && AllValid(slabs') && at + del <= |AllValues(slabs)|
    ensures changed ==> AllValues(slabs') == Spliced(AllValues(slabs), at, del, values)
    ensures within ==> Bounded(slabs', bound)
  {
    AllValuesAt(slabs, i);
    assert ValidSlab(slabs[i]);
    SplicedLength(Values(slabs[i]), index, del, values);
    var r := Splice(slabs[i], index, del, values, max);
    ok, changed, slabs' := true, false, slabs;
    if r.Replace? {
      ok := ComputeMinMax(r.slabs);
      if ok {
        changed, slabs' := true, slabs[..i] + r.slabs + slabs[i + 1..];
        SplicedColumn(slabs, i, index, del, values, r.slabs, at);
        if within {
          StaysBounded(slabs, slabs', i, r.slabs, |values|, |AllValues(slabs)|, max, bound);
        }
      }
    }
  }

  lemma StaysBounded(slabs: seq<Slab>, slabs': seq<Slab>, i: nat, others: seq<Slab>, more: nat, len: nat, max: nat, bound: nat)
    requires i < |slabs| && max >= 2 && AllValid(slabs) && len == |AllValues(slabs)|
    requires slabs' == slabs[..i] + others + slabs[i + 1..] && Bounded(others, Room(slabs[i], slabs[i].len + more, max))
    requires Bounded(slabs, bound) && max + UlebSize(len + more) <= bound + 1
    ensures Bounded(slabs', bound)
  {
    AllValuesAt(slabs, i);
    assert ValidSlab(slabs[i]);
    UlebGrows(slabs[i].len + more, len + more);
  }

  /** Putting the new slabs in place of one splices the column. */
  lemma SplicedColumn(slabs: seq<Slab>, i: nat, index: nat, del: nat, values: seq<bool>, others: seq<Slab>, at: nat)
    requires i < |slabs| && AllValid(slabs) && AllValid(others) && index + del <= slabs[i].len
    requires at == |AllValues(slabs[..i])| + index && AllValues(others) == Spliced(Values(slabs[i]), index, del, values)
    ensures at + del <= |AllValues(slabs)|
    ensures var r := slabs[..i] + others + slabs[i + 1..];
            AllValid(r) && AllValues(r) == Spliced(AllValues(slabs), at, del, values)
  {
    AllValuesAt(slabs, i);
    AllValuesReplaced(slabs, i, others);
    SpliceAround(AllValues(slabs[..i]), Values(slabs[i]), AllValues(slabs[i + 1..]), index, del, values, at);
  }

  lemma SplicedLength(s: seq<bool>, index: nat, del: nat, values: seq<bool>)
    requires index + del <= |s|
    ensures |Spliced(s, index, del, values)| == |s| - del + |values|
    ensures values == [] && del == 0 ==> Spliced(s, index, del, values) == s
  {
  }
}
