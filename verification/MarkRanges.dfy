/**
The ranges that marks cover: a run-length view, name by name, of which mark
wins at each position of a text.
*/
module MarkRanges {
  import opened Wrappers
  import opened Actors
  import opened Marks

  datatype MarkAccItem = MarkAccItem(index: nat, len: nat, value: ScalarValue)

  // One name at a time: a column of values, one per position.

  type Column = seq<Option<ScalarValue>>

  predicate Covers(item: MarkAccItem, p: nat) {
    item.index <= p < item.index + item.len
  }

  ghost predicate CoveredBy(items: seq<MarkAccItem>, p: nat, v: ScalarValue) {
    exists i :: 0 <= i < |items| && Covers(items[i], p) && items[i].value == v
  }

  /** In order, disjoint, and maximal: ranges that touch differ in value. */
  ghost predicate Tidy(items: seq<MarkAccItem>) {
    && (forall i :: 0 <= i < |items| ==> items[i].len > 0)
    && (forall i, j :: 0 <= i < j < |items| ==> Apart(items[i], items[j]))
  }

  predicate Apart(x: MarkAccItem, y: MarkAccItem) {
    && x.index + x.len <= y.index
    && (x.index + x.len == y.index ==> x.value != y.value)
  }

  /** The column has the value throughout the range. */
  ghost predicate Shows(column: Column, item: MarkAccItem) {
    forall p: nat :: Covers(item, p) ==> p < |column| && column[p] == Some(item.value)
  }

  /** The ranges cover a position with a value exactly where the column has it. */
  ghost predicate Faithful(items: seq<MarkAccItem>, column: Column) {
    && Tidy(items)
    && (forall i :: 0 <= i < |items| ==> items[i].index + items[i].len <= |column|)
    && (forall i :: 0 <= i < |items| ==> Shows(column, items[i]))
    && (forall p :: 0 <= p < |column| && column[p].Some? ==> CoveredBy(items, p, column[p].value))
  }

  /** The next range, merged with the last one if it continues it. */
  function Extended(items: seq<MarkAccItem>, index: nat, len: nat, value: ScalarValue): seq<MarkAccItem> {
    if items != [] && items[|items| - 1].value == value && items[|items| - 1].index + items[|items| - 1].len == index then
      items[|items| - 1 := items[|items| - 1].(len := items[|items| - 1].len + len)]
    else
      items + [MarkAccItem(index, len, value)]
  }

  lemma ExtendedTidy(items: seq<MarkAccItem>, size: nat, len: nat, value: ScalarValue)
    requires Tidy(items) && len > 0 && forall i :: 0 <= i < |items| ==> items[i].index + items[i].len <= size
    ensures Tidy(Extended(items, size, len, value))
    ensures forall i :: 0 <= i < |Extended(items, size, len, value)| ==>
      Extended(items, size, len, value)[i].index + Extended(items, size, len, value)[i].len <= size + len
  {
    var n, items' := |items|, Extended(items, size, len, value);
    forall i, j | 0 <= i < j < |items'|
      ensures Apart(items'[i], items'[j])
    {
      if j < n {
        assert Apart(items[i], items[j]);
      } else if i < n - 1 {
        assert Apart(items[i], items[n - 1]);
      }
    }
  }

  lemma ExtendedSound(items: seq<MarkAccItem>, column: Column, len: nat, value: ScalarValue)
    requires Faithful(items, column)
    ensures var items', column' := Extended(items, |column|, len, value), column + Repeat(Some(value), len);
            forall i :: 0 <= i < |items'| ==> Shows(column', items'[i])
  {
    var items', column' := Extended(items, |column|, len, value), column + Repeat(Some(value), len);
    var last := |items'| - 1;
    forall i | 0 <= i < |items'|
      ensures Shows(column', items'[i])
    {
      if i < |items| {
        assert Shows(column, items[i]);
      }
    }
  }

  lemma ExtendedComplete(items: seq<MarkAccItem>, column: Column, len: nat, value: ScalarValue)
    requires Faithful(items, column)
    ensures var items', column' := Extended(items, |column|, len, value), column + Repeat(Some(value), len);
            forall p :: 0 <= p < |column'| && column'[p].Some? ==> CoveredBy(items', p, column'[p].value)
  {
    var items', column' := Extended(items, |column|, len, value), column + Repeat(Some(value), len);
    var last := |items'| - 1;
    forall p | 0 <= p < |column'| && column'[p].Some?
      ensures CoveredBy(items', p, column'[p].value)
    {
      if p < |column| {
        assert CoveredBy(items, p, column[p].value);
        var i :| 0 <= i < |items| && Covers(items[i], p) && items[i].value == column[p].value;
        assert Covers(items'[i], p) && items'[i].value == items[i].value;
      } else {
        assert Covers(items'[last], p) && items'[last].value == value;
      }
    }
  }

  lemma FaithfulExtended(items: seq<MarkAccItem>, column: Column, len: nat, value: ScalarValue)
    requires Faithful(items, column) && len > 0
    ensures Faithful(Extended(items, |column|, len, value), column + Repeat(Some(value), len))
  {
    ExtendedTidy(items, |column|, len, value);
    ExtendedSound(items, column, len, value);
    ExtendedComplete(items, column, len, value);
  }

  lemma FaithfulGap(items: seq<MarkAccItem>, column: Column, len: nat)
    requires Faithful(items, column)
    ensures Faithful(items, column + Repeat(None, len))
  {
  }

  function NoUnmark(items: seq<MarkAccItem>): seq<MarkAccItem> {
    if items == [] then [] else
      var init := NoUnmark(items[..|items| - 1]);
      if items[|items| - 1].value == Null then init else init + [items[|items| - 1]]
  }

  /** Dropping the removed marks keeps exactly the other ranges, in order. */
  lemma {:induction false} NoUnmarkKeeps(items: seq<MarkAccItem>)
    requires Tidy(items)
    ensures Tidy(NoUnmark(items))
    ensures forall x :: x in NoUnmark(items) <==> x in items && x.value != Null
  {
    if items != [] {
      var n := |items| - 1;
      var init := items[..n];
      assert forall i :: 0 <= i < n ==> init[i] == items[i];
      NoUnmarkKeeps(init);
      assert items == init + [items[n]];
      forall i | 0 <= i < |NoUnmark(init)|
        ensures Apart(NoUnmark(init)[i], items[n])
      {
        assert NoUnmark(init)[i] in init;
        var k :| 0 <= k < |init| && init[k] == NoUnmark(init)[i];
        assert Apart(items[k], items[n]);
      }
    }
  }

  // All names.

  function Items(marks: map<string, seq<MarkAccItem>>, name: string): seq<MarkAccItem> {
    if name in marks then marks[name] else []
  }

  /** What each position has of a name. */
  function ColumnOf(spots: seq<MarkSet>, name: string): (c: Column)
    ensures |c| == |spots|
  {
    seq(|spots|, p requires 0 <= p < |spots| => if name in spots[p] then Some(spots[p][name]) else None)
  }

  ghost predicate AllFaithful(marks: map<string, seq<MarkAccItem>>, spots: seq<MarkSet>) {
    forall name :: Faithful(Items(marks, name), ColumnOf(spots, name))
  }

  lemma ColumnRepeats(spots: seq<MarkSet>, marks: MarkSet, len: nat, name: string)
    ensures ColumnOf(spots + Repeat(marks, len), name)
         == ColumnOf(spots, name) + Repeat(if name in marks then Some(marks[name]) else None, len)
  {
  }

  class MarkAccumulator {
    var marks: map<string, seq<MarkAccItem>>

    constructor ()
      ensures marks == map[]
    {
      marks := map[];
    }

    /** Adds a stretch where the same marks win throughout. */
    method Add(index: nat, len: nat, other: MarkSet, ghost spots: seq<MarkSet>)
      requires AllFaithful(marks, spots) && index == |spots| && len > 0
      modifies this
      ensures AllFaithful(marks, spots + Repeat(other, len))
    {
      ghost var before := marks;
      var rest := other.Keys;
      while rest != {}
        invariant rest <= other.Keys
        invariant forall name :: Items(marks, name) == ItemsWith(before, index, len, other, other.Keys - rest, name)
        decreases rest
      {
        var name :| name in rest;
        ghost var entered := marks;
        marks := marks[name := Extended(Items(marks, name), index, len, other[name])];
        OneMoreName(before, entered, marks, index, len, other, rest, name);
        rest := rest - {name};
      }
      ghost var after := marks;
      forall name
        ensures Faithful(Items(after, name), ColumnOf(spots + Repeat(other, len), name))
      {
        FaithfulWith(before, spots, len, other, name);
      }
    }
  }

  /** The ranges of a name once the given names of a stretch were entered. */
  function ItemsWith(marks: map<string, seq<MarkAccItem>>, index: nat, len: nat, other: MarkSet, names: set<string>, name: string): seq<MarkAccItem> {
    if name in names && name in other then Extended(Items(marks, name), index, len, other[name]) else Items(marks, name)
  }

  lemma OneMoreName(before: map<string, seq<MarkAccItem>>, marks: map<string, seq<MarkAccItem>>, marks': map<string, seq<MarkAccItem>>,
                    index: nat, len: nat, other: MarkSet, rest: set<string>, name: string)
    requires name in rest && rest <= other.Keys && marks' == marks[name := Extended(Items(marks, name), index, len, other[name])]
    requires forall n :: Items(marks, n) == ItemsWith(before, index, len, other, other.Keys - rest, n)
    ensures forall n :: Items(marks', n) == ItemsWith(before, index, len, other, other.Keys - (rest - {name}), n)
  {
    forall n
      ensures Items(marks', n) == ItemsWith(before, index, len, other, other.Keys - (rest - {name}), n)
    {
      assert Items(marks, n) == ItemsWith(before, index, len, other, other.Keys - rest, n);
    }
  }

  lemma FaithfulWith(marks: map<string, seq<MarkAccItem>>, spots: seq<MarkSet>, len: nat, other: MarkSet, name: string)
    requires Faithful(Items(marks, name), ColumnOf(spots, name)) && len > 0
    ensures Faithful(ItemsWith(marks, |spots|, len, other, other.Keys, name), ColumnOf(spots + Repeat(other, len), name))
  {
    ColumnRepeats(spots, other, len, name);
    if name in other {
      FaithfulExtended(Items(marks, name), ColumnOf(spots, name), len, other[name]);
    } else {
      FaithfulGap(Items(marks, name), ColumnOf(spots, name), len);
    }
  }

  lemma GapForAll(marks: map<string, seq<MarkAccItem>>, spots: seq<MarkSet>, len: nat)
    requires AllFaithful(marks, spots)
    ensures AllFaithful(marks, spots + Repeat(map[], len))
  {
    forall name
      ensures Faithful(Items(marks, name), ColumnOf(spots + Repeat(map[], len), name))
    {
      ColumnRepeats(spots, map[], len, name);
      FaithfulGap(Items(marks, name), ColumnOf(spots, name), len);
    }
  }

  // From operations to ranges.

  predicate IsMark(op: Op) {
    op.action.Begin? || op.action.End?
  }

  /** No operation has the id of the root. */
  ghost predicate ProperIds(ops: seq<Op>) {
    forall k :: 0 <= k < |ops| ==> ops[k].id.counter > 0
  }

  /** The open marks after some operations. */
  function StateOf(ops: seq<Op>): seq<OpenMark>
    requires ProperIds(ops)
  {
    if ops == [] then [] else StateAfter(StateOf(ops[..|ops| - 1]), ops[|ops| - 1])
  }

  /** What wins at each position: an operation takes its width, under the marks
      that are open there. */
  function Spots(ops: seq<Op>): seq<MarkSet>
    requires ProperIds(ops)
  {
    if ops == [] then [] else
      var init := ops[..|ops| - 1];
      Spots(init) + Repeat(Winning(StateOf(init)), if IsMark(ops[|ops| - 1]) then 0 else ops[|ops| - 1].width)
  }

  lemma OneMoreOp(ops: seq<Op>, k: nat)
    requires ProperIds(ops) && k < |ops|
    ensures StateOf(ops[..k + 1]) == StateAfter(StateOf(ops[..k]), ops[k])
    ensures Spots(ops[..k + 1]) == Spots(ops[..k]) + Repeat(Winning(StateOf(ops[..k])), if IsMark(ops[k]) then 0 else ops[k].width)
  {
    assert ops[..k + 1][..k] == ops[..k];
  }

  lemma {:induction false} SpotsPrefix(ops: seq<Op>, m: nat)
    requires ProperIds(ops) && m <= |ops|
    ensures Spots(ops[..m]) <= Spots(ops)
  {
    if m < |ops| {
      var init := ops[..|ops| - 1];
      SpotsPrefix(init, m);
      assert init[..m] == ops[..m];
      assert Spots(init) <= Spots(ops);
    } else {
      assert ops[..m] == ops;
    }
  }

  /** The positions of operation k have exactly the marks that win there: of each
      name, the open one with the highest id. */
  lemma SpotOfOp(ops: seq<Op>, k: nat)
    requires ProperIds(ops) && k < |ops| && !IsMark(ops[k])
    ensures |Spots(ops[..k])| + ops[k].width <= |Spots(ops)|
    ensures forall p :: |Spots(ops[..k])| <= p < |Spots(ops[..k])| + ops[k].width ==> Spots(ops)[p] == Winning(StateOf(ops[..k]))
  {
    OneMoreOp(ops, k);
    SpotsPrefix(ops, k + 1);
    assert forall p :: 0 <= p < |Spots(ops[..k + 1])| ==> Spots(ops)[p] == Spots(ops[..k + 1])[p];
  }

  lemma {:induction false} StateOfInOrder(ops: seq<Op>)
    requires ProperIds(ops)
    ensures ById(StateOf(ops))
  {
    if ops != [] {
      var init, op := ops[..|ops| - 1], ops[|ops| - 1];
      StateOfInOrder(init);
      match op.action {
        case Begin(data) => OpenedKeeps(StateOf(init), op.id, data);
        case End => ClosedKeeps(StateOf(init), Prev(op.id));
        case _ =>
      }
    }
  }

  // What the ranges say of the operations themselves.

  /** An end has the actor of the mark it closes, and the next counter. */
  predicate Ends(op: Op, id: OpId) {
    op.action.End? && op.id.actor == id.actor && op.id.counter == id.counter + 1
  }

  /** Operation i, among the first k, begins a mark, at a point where none with its
      id is live, and none of the first k ends it later. */
  ghost predicate Live(ops: seq<Op>, k: nat, i: nat)
    decreases i
  {
    && i < k <= |ops| && ops[i].action.Begin?
    && (forall j :: i < j < k ==> !Ends(ops[j], ops[i].id))
    && forall j: nat :: j < i && Live(ops, i, j) ==> ops[j].id != ops[i].id
  }

  lemma LiveStep(ops: seq<Op>, k: nat, i: nat)
    requires 0 < k <= |ops|
    ensures Live(ops, k, i) <==>
      if i == k - 1 then ops[i].action.Begin? && forall j: nat :: Live(ops, k - 1, j) ==> ops[j].id != ops[i].id
      else Live(ops, k - 1, i) && !Ends(ops[k - 1], ops[i].id)
  {
  }

  /** The mark is that of a live beginning among the first k operations. */
  ghost predicate BegunAndLive(ops: seq<Op>, k: nat, m: OpenMark) {
    exists i: nat :: Live(ops, k, i) && m == OpenMark(ops[i].id, ops[i].action.data)
  }

  lemma BegunStep(ops: seq<Op>, k: nat, m: OpenMark)
    requires 0 < k <= |ops|
    ensures BegunAndLive(ops, k, m) <==>
      || (ops[k - 1].action.Begin? && m == OpenMark(ops[k - 1].id, ops[k - 1].action.data)
          && forall e :: BegunAndLive(ops, k - 1, e) ==> e.id != m.id)
      || (BegunAndLive(ops, k - 1, m) && !Ends(ops[k - 1], m.id))
  {
    forall i: nat {
      LiveStep(ops, k, i);
    }
    if i: nat :| Live(ops, k - 1, i) && ops[i].id == ops[k - 1].id {
      assert BegunAndLive(ops, k - 1, OpenMark(ops[i].id, ops[i].action.data));
    }
  }

  lemma OpenedIsLive(ops: seq<Op>, k: nat, state: seq<OpenMark>, data: MarkData, m: OpenMark)
    requires 0 < k <= |ops| && ops[k - 1].action == Begin(data) && ById(state)
    requires forall e :: e in Open(state) <==> BegunAndLive(ops, k - 1, e)
    ensures m in Open(Opened(state, ops[k - 1].id, data)) <==> BegunAndLive(ops, k, m)
  {
    var id := ops[k - 1].id;
    BegunStep(ops, k, m);
    OpenedKeeps(state, id, data);
    HasIdIsOpen(state, id);
    if HasId(state, id) {
      var e :| e in Open(state) && e.id == id;
      assert BegunAndLive(ops, k - 1, e);
    } else {
      assert forall e :: BegunAndLive(ops, k - 1, e) ==> e in Open(state);
    }
  }

  lemma ClosedIsLive(ops: seq<Op>, k: nat, state: seq<OpenMark>, m: OpenMark)
    requires 0 < k <= |ops| && ops[k - 1].action.End? && ops[k - 1].id.counter > 0 && ById(state)
    requires m in Open(state) <==> BegunAndLive(ops, k - 1, m)
    ensures m in Open(Closed(state, Prev(ops[k - 1].id))) <==> BegunAndLive(ops, k, m)
  {
    BegunStep(ops, k, m);
    ClosedKeeps(state, Prev(ops[k - 1].id));
  }

  /** The open marks are those that were begun and not ended since. */
  lemma {:induction false} OpenIsLive(ops: seq<Op>, k: nat, m: OpenMark)
    requires ProperIds(ops) && k <= |ops|
    ensures m in Open(StateOf(ops[..k])) <==> BegunAndLive(ops, k, m)
  {
    if k > 0 {
      var op, state := ops[k - 1], StateOf(ops[..k - 1]);
      OneMoreOp(ops, k - 1);
      StateOfInOrder(ops[..k - 1]);
      forall e
        ensures e in Open(state) <==> BegunAndLive(ops, k - 1, e)
      {
        OpenIsLive(ops, k - 1, e);
      }
      match op.action {
        case Begin(data) => OpenedIsLive(ops, k, state, data, m);
        case End => ClosedIsLive(ops, k, state, m);
        case _ => BegunStep(ops, k, m);
      }
    }
  }

  /** Operation i begins, among the live marks of a name, the one with the
      highest id. */
  ghost predicate Wins(ops: seq<Op>, k: nat, name: string, i: nat) {
    && Live(ops, k, i) && ops[i].action.data.name == name
    && forall j: nat :: Live(ops, k, j) && ops[j].action.data.name == name ==>
         ops[j].id.counter < ops[i].id.counter || (ops[j].id.counter == ops[i].id.counter && ops[j].id.actor <= ops[i].id.actor)
  }

  /** What wins at an operation is the value of the live mark with the highest
      id. */
  lemma WinnerIsLive(ops: seq<Op>, k: nat, name: string)
    requires ProperIds(ops) && k <= |ops|
    ensures name in Winning(StateOf(ops[..k])) <==> exists i: nat :: Wins(ops, k, name, i)
    ensures forall i: nat :: Wins(ops, k, name, i) ==>
      name in Winning(StateOf(ops[..k])) && Winning(StateOf(ops[..k]))[name] == ops[i].action.data.value
  {
    var state := StateOf(ops[..k]);
    StateOfInOrder(ops[..k]);
    WinningLacks(state, name);
    if !Lacks(state, name) {
      var h := FindLast(state, name);
      assert state[h] in Open(state);
      OpenIsLive(ops, k, state[h]);
      var i: nat :| Live(ops, k, i) && state[h] == OpenMark(ops[i].id, ops[i].action.data);
      forall j: nat | Live(ops, k, j) && ops[j].action.data.name == name
        ensures ops[j].id == ops[i].id || ops[j].id.Before(ops[i].id)
      {
        var m := OpenMark(ops[j].id, ops[j].action.data);
        OpenIsLive(ops, k, m);
        var l :| 0 <= l < |state| && state[l] == m;
        assert l < h ==> state[l].id.Before(state[h].id);
      }
      assert Wins(ops, k, name, i);
      WinningIsLast(state, name, h);
    }
    forall i: nat | Wins(ops, k, name, i)
      ensures !Lacks(state, name) && Winning(state)[name] == ops[i].action.data.value
    {
      var m := OpenMark(ops[i].id, ops[i].action.data);
      OpenIsLive(ops, k, m);
      var l :| 0 <= l < |state| && state[l] == m;
      assert Highest(state, l) by {
        forall j | 0 <= j < |state| && state[j].data.name == name
          ensures !state[l].id.Before(state[j].id)
        {
          assert state[j] in Open(state);
          OpenIsLive(ops, k, state[j]);
        }
      }
      WinningIsHighest(state, name);
    }
  }

  /** Where an operation stands in the text: after the widths of those before it
      that neither begin nor end a mark. */
  ghost function Offset(ops: seq<Op>, k: nat): nat
    requires k <= |ops|
  {
    if k == 0 then 0
    else Offset(ops, k - 1) + if ops[k - 1].action.Begin? || ops[k - 1].action.End? then 0 else ops[k - 1].width
  }

  /** Position p belongs to operation k. */
  ghost predicate StandsAt(ops: seq<Op>, k: nat, p: nat) {
    && k < |ops| && !ops[k].action.Begin? && !ops[k].action.End?
    && Offset(ops, k) <= p < Offset(ops, k) + ops[k].width
  }

  /** Of the marks of a name that were begun before the operation at position p,
      and not ended before it, the one with the highest id has the value. */
  ghost predicate Marked(ops: seq<Op>, name: string, p: nat, v: ScalarValue) {
    exists k: nat, i: nat :: StandsAt(ops, k, p) && Wins(ops, k, name, i) && ops[i].action.data.value == v
  }

  lemma {:induction false} SpotsEndAtOffset(ops: seq<Op>, k: nat)
    requires ProperIds(ops) && k <= |ops|
    ensures |Spots(ops[..k])| == Offset(ops, k)
  {
    if k > 0 {
      SpotsEndAtOffset(ops, k - 1);
      OneMoreOp(ops, k - 1);
    }
  }

  lemma {:induction false} SpotOwner(ops: seq<Op>, k: nat, p: nat) returns (j: nat)
    requires k <= |ops| && p < Offset(ops, k)
    ensures j < k && StandsAt(ops, j, p)
  {
    if p < Offset(ops, k - 1) {
      j := SpotOwner(ops, k - 1, p);
    } else {
      j := k - 1;
    }
  }

  lemma SpotsAreMarked(ops: seq<Op>, name: string, p: nat, v: ScalarValue)
    requires ProperIds(ops)
    ensures p < |Spots(ops)| && ColumnOf(Spots(ops), name)[p] == Some(v) <==> Marked(ops, name, p, v)
  {
    assert ops[..|ops|] == ops;
    SpotsEndAtOffset(ops, |ops|);
    if p < |Spots(ops)| {
      var k := SpotOwner(ops, |ops|, p);
      SpotsEndAtOffset(ops, k);
      SpotOfOp(ops, k);
      WinnerIsLive(ops, k, name);
    }
    forall k: nat, i: nat | StandsAt(ops, k, p) && Wins(ops, k, name, i) && ops[i].action.data.value == v
      ensures p < |Spots(ops)| && ColumnOf(Spots(ops), name)[p] == Some(v)
    {
      SpotsEndAtOffset(ops, k);
      SpotOfOp(ops, k);
      WinnerIsLive(ops, k, name);
    }
  }

  /** What the ranges of each name cover. */
  lemma RangesAreMarked(ops: seq<Op>, items: seq<MarkAccItem>, name: string)
    requires ProperIds(ops) && RangesOf(items, ColumnOf(Spots(ops), name))
    ensures forall p: nat, v :: CoveredBy(items, p, v) <==> v != Null && Marked(ops, name, p, v)
  {
    forall p: nat, v
      ensures CoveredBy(items, p, v) <==> v != Null && Marked(ops, name, p, v)
    {
      SpotsAreMarked(ops, name, p, v);
    }
  }

  function OrEmpty(marks: Option<MarkSet>): MarkSet {
    if marks.Some? then marks.value else map[]
  }

  lemma RepeatMore<T>(s: seq<T>, x: T, m: nat, n: nat)
    ensures s + Repeat(x, m) + Repeat(x, n) == s + Repeat(x, m + n)
    ensures s + Repeat(x, 0) == s
  {
  }

  /** Ends a run: its marks are added, unless it is empty or has none. */
  method Flush(acc: MarkAccumulator, index: nat, len: nat, last: Option<MarkSet>, ghost spots: seq<MarkSet>)
    requires AllFaithful(acc.marks, spots) && index == |spots|
    modifies acc
    ensures AllFaithful(acc.marks, spots + Repeat(OrEmpty(last), len))
  {
    if last.Some? && len > 0 {
      acc.Add(index, len, last.value, spots);
    } else if len == 0 {
      RepeatMore(spots, OrEmpty(last), 0, 0);
    } else {
      GapForAll(acc.marks, spots, len);
    }
  }

  /** The ranges of one name: exactly the positions that have a mark of it which
      was not removed. */
  ghost predicate RangesOf(items: seq<MarkAccItem>, column: Column) {
    && Tidy(items)
    && forall p: nat, v :: CoveredBy(items, p, v) <==> p < |column| && column[p] == Some(v) && v != Null
  }

  lemma RangesFromItems(items: seq<MarkAccItem>, column: Column)
    requires Faithful(items, column)
    ensures RangesOf(NoUnmark(items), column)
  {
    var kept := NoUnmark(items);
    NoUnmarkKeeps(items);
    forall p: nat, v
      ensures CoveredBy(kept, p, v) <==> p < |column| && column[p] == Some(v) && v != Null
    {
      if CoveredBy(kept, p, v) {
        var i :| 0 <= i < |kept| && Covers(kept[i], p) && kept[i].value == v;
        assert kept[i] in kept;
        var j :| 0 <= j < |items| && items[j] == kept[i];
        assert Shows(column, items[j]);
      }
      if p < |column| && column[p] == Some(v) && v != Null {
        assert CoveredBy(items, p, v);
        var j :| 0 <= j < |items| && Covers(items[j], p) && items[j].value == v;
        assert items[j] in kept;
        var i :| 0 <= i < |kept| && kept[i] == items[j];
        assert Covers(kept[i], p);
      }
    }
  }

  /** Without null marks, the ranges are as they should be for every name. */
  lemma RangesOfAll(ops: seq<Op>, marks: map<string, seq<MarkAccItem>>, ranges: map<string, seq<MarkAccItem>>)
    requires ProperIds(ops) && AllFaithful(marks, Spots(ops))
    requires ranges == map name | name in marks :: NoUnmark(marks[name])
    ensures forall name :: RangesOf(Items(ranges, name), ColumnOf(Spots(ops), name))
    ensures forall name, p: nat, v :: CoveredBy(Items(ranges, name), p, v) <==> v != Null && Marked(ops, name, p, v)
  {
    forall name
      ensures RangesOf(Items(ranges, name), ColumnOf(Spots(ops), name))
      ensures forall p: nat, v :: CoveredBy(Items(ranges, name), p, v) <==> v != Null && Marked(ops, name, p, v)
    {
      RangesFromItems(Items(marks, name), ColumnOf(Spots(ops), name));
      RangesAreMarked(ops, Items(ranges, name), name);
    }
  }

  /** Passes the operations once and collects ranges for runs of equal marks. */
  method CalculateMarks(ops: seq<Op>) returns (ranges: map<string, seq<MarkAccItem>>)
    requires ProperIds(ops)
    ensures forall name :: RangesOf(Items(ranges, name), ColumnOf(Spots(ops), name))
    ensures forall name, p: nat, v :: CoveredBy(Items(ranges, name), p, v) <==> v != Null && Marked(ops, name, p, v)
  {
    var machine := new MarkStateMachine();
    var acc := new MarkAccumulator();
    var index := 0;
    var last: Option<MarkSet> := None;
    var markLen: nat, markIndex: nat := 0, 0;
    ghost var flushed: seq<MarkSet> := [];
    for k := 0 to |ops|
      invariant machine.Valid() && machine.state == StateOf(ops[..k])
      invariant AllFaithful(acc.marks, flushed) && |flushed| == markIndex
      invariant index == markIndex + markLen && Spots(ops[..k]) == flushed + Repeat(OrEmpty(last), markLen)
      invariant last != Some(map[])
    {
      OneMoreOp(ops, k);
      var o := ops[k];
      if IsMark(o) {
        var changed := machine.Process(o);
      } else {
        var marks := machine.Current();
        if last != marks {
          Flush(acc, markIndex, markLen, last, flushed);
          flushed := Spots(ops[..k]);
          last := marks;
          markIndex := index;
          markLen := 0;
        }
        assert Spots(ops[..k + 1]) == flushed + Repeat(OrEmpty(last), markLen + o.width) by {
          RepeatMore(flushed, OrEmpty(last), markLen, o.width);
          assert OrEmpty(last) == Winning(machine.state);
        }
        markLen := markLen + o.width;
        index := index + o.width;
      }
    }
    Flush(acc, markIndex, markLen, last, flushed);
    assert ops[..|ops|] == ops;
    ranges := map name | name in acc.marks :: NoUnmark(acc.marks[name]);
    RangesOfAll(ops, acc.marks, ranges);
  }
}
