/**
Marks on text: which mark of each name wins at a point, kept up to date as mark
operations are passed, and the ranges that result.
*/
module Marks {
  import opened Wrappers
  import opened Actors
  import opened ChangeGraphs

  datatype ScalarValue = Null | Scalar(text: string)

  datatype MarkData = MarkData(name: string, value: ScalarValue)

  datatype OpenMark = OpenMark(id: OpId, data: MarkData)

  type MarkSet = map<string, ScalarValue>

  function Prev(id: OpId): OpId
    requires id.counter > 0
  {
    OpId(id.counter - 1, id.actor)
  }

  // What wins.

  ghost predicate ById(state: seq<OpenMark>) {
    forall i, j {:trigger state[i].id.Before(state[j].id)} :: 0 <= i < j < |state| ==> state[i].id.Before(state[j].id)
  }

  /** The marks that win: of each name, the last open one. */
  function Winning(state: seq<OpenMark>): MarkSet {
    if state == [] then map[] else
      var last := state[|state| - 1].data;
      Winning(state[..|state| - 1])[last.name := last.value]
  }

  predicate Lacks(state: seq<OpenMark>, name: string) {
    forall i | 0 <= i < |state| :: state[i].data.name != name
  }

  /** The open mark of a name that nothing of that name comes after. */
  predicate LastOf(state: seq<OpenMark>, name: string, i: nat) {
    i < |state| && state[i].data.name == name && forall k | i < k < |state| :: state[k].data.name != name
  }

  lemma {:induction false} WinningLacks(state: seq<OpenMark>, name: string)
    ensures Lacks(state, name) <==> name !in Winning(state)
  {
    if state != [] {
      WinningLacks(state[..|state| - 1], name);
      assert forall i :: 0 <= i < |state| - 1 ==> state[..|state| - 1][i] == state[i];
    }
  }

  lemma {:induction false} WinningIsLast(state: seq<OpenMark>, name: string, i: nat)
    requires LastOf(state, name, i)
    ensures name in Winning(state) && Winning(state)[name] == state[i].data.value
  {
    var n := |state| - 1;
    if i < n {
      assert state[n].data.name != name;
      WinningIsLast(state[..n], name, i);
    }
  }

  /** A mark that no open mark of its name has a higher id than. */
  predicate Highest(state: seq<OpenMark>, i: nat) {
    i < |state| && forall j | 0 <= j < |state| && state[j].data.name == state[i].data.name :: !state[i].id.Before(state[j].id)
  }

  /** In id order, a name has a winner exactly when a mark of it is open, and the
      winner is the value of the one with the highest id. */
  lemma WinningIsHighest(state: seq<OpenMark>, name: string)
    requires ById(state)
    ensures name in Winning(state) <==> exists i :: 0 <= i < |state| && state[i].data.name == name
    ensures forall i: nat :: Highest(state, i) && state[i].data.name == name ==> Winning(state)[name] == state[i].data.value
  {
    WinningLacks(state, name);
    forall i: nat | Highest(state, i) && state[i].data.name == name
      ensures Winning(state)[name] == state[i].data.value
    {
      assert forall k :: i < k < |state| ==> state[i].id.Before(state[k].id);
      WinningIsLast(state, name, i);
    }
  }

  /** Appending a stretch that lacks a name does not change who wins it. */
  lemma {:induction false} WinningOver(below: seq<OpenMark>, above: seq<OpenMark>, name: string)
    ensures Lacks(above, name) ==>
      (name in Winning(below + above) <==> name in Winning(below))
      && (name in Winning(below) ==> Winning(below + above)[name] == Winning(below)[name])
    ensures !Lacks(above, name) ==> name in Winning(above) && name in Winning(below + above) && Winning(below + above)[name] == Winning(above)[name]
  {
    if above == [] {
      assert below + above == below;
    } else {
      var n := |above| - 1;
      assert (below + above)[..|below| + n] == below + above[..n];
      WinningOver(below, above[..n], name);
      WinningLacks(above, name);
      WinningLacks(above[..n], name);
    }
  }

  /** One open mark more at some place: it wins its name unless one of that name
      comes after it. */
  lemma WinningWith(below: seq<OpenMark>, m: OpenMark, above: seq<OpenMark>)
    ensures Winning(below + [m] + above)
         == if Lacks(above, m.data.name) then Winning(below + above)[m.data.name := m.data.value] else Winning(below + above)
  {
    var with, without := Winning(below + [m] + above), Winning(below + above);
    forall name
      ensures name == m.data.name && Lacks(above, name) ==> name in with && with[name] == m.data.value
      ensures name != m.data.name || !Lacks(above, name) ==>
        (name in with <==> name in without) && (name in without ==> with[name] == without[name])
    {
      WinningOver(below + [m], above, name);
      WinningOver(below, above, name);
      WinningOver(below, [m], name);
      WinningLacks([m], name);
      assert Winning([m]) == map[m.data.name := m.data.value] by {
        assert [m][..0] == [];
      }
    }
  }

  // The state machine.

  method MarkAbove(state: seq<OpenMark>, index: nat, name: string) returns (r: Option<MarkData>)
    requires index <= |state|
    ensures r.None? <==> Lacks(state[index..], name)
  {
    for k := index to |state|
      invariant forall j :: index <= j < k ==> state[j].data.name != name
    {
      if state[k].data.name == name {
        assert state[index..][k - index] == state[k];
        return Some(state[k].data);
      }
    }
    r := None;
  }

  method MarkBelow(state: seq<OpenMark>, index: nat, name: string) returns (r: Option<MarkData>)
    requires index <= |state|
    ensures r.None? <==> name !in Winning(state[..index])
    ensures r.Some? ==> r.value.name == name && Winning(state[..index])[name] == r.value.value
  {
    var below := state[..index];
    WinningLacks(below, name);
    var k := index;
    while k > 0
      invariant 0 <= k <= index && forall j :: k <= j < index ==> below[j].data.name != name
    {
      k := k - 1;
      if below[k].data.name == name {
        WinningIsLast(below, name, k);
        return Some(below[k].data);
      }
    }
    r := None;
  }

  /** Where an id is, or where it belongs. */
  method Find(state: seq<OpenMark>, target: OpId) returns (r: Result<nat, nat>)
    requires ById(state)
    ensures r.Ok? ==> r.value < |state| && state[r.value].id == target
    ensures r.Err? ==>
      && r.error <= |state|
      && (forall k :: 0 <= k < r.error ==> state[k].id.Before(target))
      && (forall k :: r.error <= k < |state| ==> target.Before(state[k].id))
  {
    var lo, hi := 0, |state|;
    while lo < hi
      invariant 0 <= lo <= hi <= |state|
      invariant forall k :: 0 <= k < lo ==> state[k].id.Before(target)
      invariant forall k :: hi <= k < |state| ==> target.Before(state[k].id)
    {
      var mid := (lo + hi) / 2;
      if state[mid].id == target {
        return Ok(mid);
      } else if state[mid].id.Before(target) {
        assert forall k :: 0 <= k < mid ==> state[k].id.Before(state[mid].id);
        lo := mid + 1;
      } else {
        assert forall k :: mid < k < |state| ==> state[mid].id.Before(state[k].id);
        hi := mid;
      }
    }
    r := Err(lo);
  }

  /** How many open marks have lower ids. */
  function Place(state: seq<OpenMark>, id: OpId): (n: nat)
    ensures n <= |state|
  {
    if state != [] && state[0].id.Before(id) then 1 + Place(state[1..], id) else 0
  }

  lemma {:induction false} PlaceIs(state: seq<OpenMark>, id: OpId, i: nat)
    requires i <= |state|
    requires forall k :: 0 <= k < i ==> state[k].id.Before(id)
    requires i < |state| ==> !state[i].id.Before(id)
    ensures Place(state, id) == i
  {
    if i > 0 {
      PlaceIs(state[1..], id, i - 1);
    }
  }

  predicate HasId(state: seq<OpenMark>, id: OpId) {
    exists k | 0 <= k < |state| :: state[k].id == id
  }

  function Opened(state: seq<OpenMark>, id: OpId, mark: MarkData): seq<OpenMark> {
    if HasId(state, id) then state else InsertAt(state, Place(state, id), OpenMark(id, mark))
  }

  function Closed(state: seq<OpenMark>, id: OpId): seq<OpenMark> {
    if HasId(state, id) && Place(state, id) < |state| then RemoveAt(state, Place(state, id)) else state
  }

  /** The open marks by id. */
  ghost function Open(state: seq<OpenMark>): set<OpenMark> {
    set m | m in state
  }

  class MarkStateMachine {
    var state: seq<OpenMark>
    var current: MarkSet

    ghost predicate Valid()
      reads this
    {
      ById(state) && current == Winning(state)
    }

    constructor ()
      ensures Valid() && state == []
    {
      state, current := [], map[];
    }

    /** The marks that win, if any. */
    function Current(): Option<MarkSet>
      reads this
    {
      if current == map[] then None else Some(current)
    }

    method Process(op: Op) returns (changed: bool)
      requires Valid() && op.id.counter > 0
      modifies this
      ensures Valid() && state == StateAfter(old(state), op)
      ensures changed <==> current != old(current)
    {
      match op.action {
        case Begin(data) => changed := MarkBegin(op.id, data);
        case End => changed := MarkEnd(op.id);
        case _ => changed := false;
      }
    }

    /** Opens a mark, unless one with its id is open; tells whether that changed
        what wins. */
    method MarkBegin(id: OpId, mark: MarkData) returns (changed: bool)
      requires Valid()
      modifies this
      ensures Valid() && (changed <==> current != old(current))
      ensures state == Opened(old(state), id, mark)
      ensures Open(state) == old(Open(state)) + (if exists m :: m in old(Open(state)) && m.id == id then {} else {OpenMark(id, mark)})
    {
      changed := false;
      OpenedKeeps(state, id, mark);
      HasIdIsOpen(state, id);
      var place := Find(state, id);
      if place.Err? {
        var index := place.error;
        ghost var before := state;
        var above := MarkAbove(state, index, mark.name);
        if above.None? {
          var below := MarkBelow(state, index, mark.name);
          if below.None? || below.value.value != mark.value {
            current := current[mark.name := mark.value];
            changed := true;
          }
        }
        state := InsertAt(state, index, OpenMark(id, mark));
        PlaceIs(before, id, index);
        OpenedAt(before, index, OpenMark(id, mark));
        PlaceOfMark(before[..index], OpenMark(id, mark), before[index..]);
        assert before == before[..index] + before[index..];
      }
    }

    /** Closes the mark that was opened by the operation before, if it is open;
        tells whether that changed what wins. */
    method MarkEnd(id: OpId) returns (changed: bool)
      requires Valid() && id.counter > 0
      modifies this
      ensures Valid() && (changed <==> current != old(current))
      ensures state == Closed(old(state), Prev(id))
      ensures Open(state) == set m | m in old(Open(state)) && m.id != OpId(id.counter - 1, id.actor)
    {
      changed := false;
      ClosedKeeps(state, Prev(id));
      var place := Find(state, Prev(id));
      if place.Ok? {
        var index := place.value;
        var mark := state[index].data;
        CloseOpen(state, index);
        state := RemoveAt(state, index);
        var above := MarkAbove(state, index, mark.name);
        if above.None? {
          var below := MarkBelow(state, index, mark.name);
          match below {
            case Some(b) =>
              if b.value != mark.value {
                current := current[mark.name := b.value];
                changed := true;
              }
            case None =>
              current := current - {mark.name};
              changed := true;
          }
        }
      }
    }
  }

  ghost function OpenBut(state: seq<OpenMark>, id: OpId): set<OpenMark> {
    set m | m in state && m.id != id
  }

  lemma HasIdIsOpen(state: seq<OpenMark>, id: OpId)
    ensures HasId(state, id) <==> exists m :: m in Open(state) && m.id == id
  {
    if HasId(state, id) {
      var k :| 0 <= k < |state| && state[k].id == id;
      assert state[k] in Open(state);
    }
  }

  lemma PlaceOfOpen(state: seq<OpenMark>, i: nat)
    requires ById(state) && i < |state|
    ensures HasId(state, state[i].id) && Place(state, state[i].id) == i
  {
    assert forall k :: 0 <= k < i ==> state[k].id.Before(state[i].id);
    PlaceIs(state, state[i].id, i);
  }

  lemma OpenedAt(state: seq<OpenMark>, index: nat, m: OpenMark)
    requires ById(state) && index <= |state|
    requires forall k :: 0 <= k < index ==> state[k].id.Before(m.id)
    requires forall k :: index <= k < |state| ==> m.id.Before(state[k].id)
    ensures ById(InsertAt(state, index, m)) && !HasId(state, m.id)
    ensures Open(InsertAt(state, index, m)) == Open(state) + {m}
  {
    var r := InsertAt(state, index, m);
    assert forall k :: 0 <= k < |r| ==> r[k] == if k < index then state[k] else if k == index then m else state[k - 1];
    InsertedElements(state, index, m);
  }

  /** What wins with a mark and without it, told from its place. */
  lemma PlaceOfMark(below: seq<OpenMark>, m: OpenMark, above: seq<OpenMark>)
    ensures var name, with, without := m.data.name, Winning(below + [m] + above), Winning(below + above);
            && (!Lacks(above, name) ==> with == without)
            && (Lacks(above, name) ==>
                  && with == without[name := m.data.value]
                  && (name in without <==> name in Winning(below))
                  && (name in without ==> without[name] == Winning(below)[name]))
  {
    WinningWith(below, m, above);
    WinningOver(below, above, m.data.name);
  }

  lemma ClosedAt(state: seq<OpenMark>, index: nat)
    requires ById(state) && index < |state|
    ensures ById(RemoveAt(state, index)) && Open(RemoveAt(state, index)) == OpenBut(state, state[index].id)
  {
    var r := RemoveAt(state, index);
    assert forall k :: 0 <= k < |r| ==> r[k] == if k < index then state[k] else state[k + 1];
    assert state == state[..index] + [state[index]] + state[index + 1..];
    forall k | 0 <= k < |state| && k != index
      ensures state[k].id != state[index].id
    {
      assert if k < index then state[k].id.Before(state[index].id) else state[index].id.Before(state[k].id);
    }
  }

  /** What wins before the mark at some place is closed, and after. */
  lemma CloseOpen(state: seq<OpenMark>, index: nat)
    requires ById(state) && index < |state|
    ensures var r, m := RemoveAt(state, index), state[index].data;
            && r == Closed(state, state[index].id) && ById(r)
            && (!Lacks(r[index..], m.name) ==> Winning(state) == Winning(r))
            && (Lacks(r[index..], m.name) ==>
                  && Winning(state) == Winning(r)[m.name := m.value]
                  && (m.name in Winning(r) <==> m.name in Winning(r[..index]))
                  && (m.name in Winning(r) ==> Winning(r)[m.name] == Winning(r[..index])[m.name]))
  {
    var r, below, above := RemoveAt(state, index), state[..index], state[index + 1..];
    assert r == Closed(state, state[index].id) && ById(r) by {
      PlaceOfOpen(state, index);
      ClosedAt(state, index);
    }
    assert state == below + [state[index]] + above && r[..index] == below && r[index..] == above;
    PlaceOfMark(below, state[index], above);
  }

  /** Opening keeps the order and adds the mark; closing takes it out. */
  lemma OpenedKeeps(state: seq<OpenMark>, id: OpId, mark: MarkData)
    requires ById(state)
    ensures ById(Opened(state, id, mark))
    ensures Open(Opened(state, id, mark)) == if HasId(state, id) then Open(state) else Open(state) + {OpenMark(id, mark)}
  {
    if !HasId(state, id) {
      var place := FindPlace(state, id);
      OpenedAt(state, place, OpenMark(id, mark));
    }
  }

  lemma {:induction false} FindPlace(state: seq<OpenMark>, id: OpId) returns (i: nat)
    requires ById(state) && !HasId(state, id)
    ensures i == Place(state, id)
    ensures forall k :: 0 <= k < i ==> state[k].id.Before(id)
    ensures forall k :: i <= k < |state| ==> id.Before(state[k].id)
  {
    i := 0;
    while i < |state| && state[i].id.Before(id)
      invariant i <= |state| && forall k :: 0 <= k < i ==> state[k].id.Before(id)
    {
      i := i + 1;
    }
    PlaceIs(state, id, i);
    forall k | i <= k < |state|
      ensures id.Before(state[k].id)
    {
      assert k > i ==> state[i].id.Before(state[k].id);
    }
  }

  lemma ClosedKeeps(state: seq<OpenMark>, id: OpId)
    requires ById(state)
    ensures ById(Closed(state, id)) && Open(Closed(state, id)) == OpenBut(state, id)
  {
    if HasId(state, id) {
      var k :| 0 <= k < |state| && state[k].id == id;
      PlaceOfOpen(state, k);
      ClosedAt(state, k);
    }
  }

  /** The open marks decide what wins, whatever order they were opened in. */
  lemma SameOpenSameWinning(s: seq<OpenMark>, t: seq<OpenMark>)
    requires ById(s) && ById(t) && Open(s) == Open(t)
    ensures Winning(s) == Winning(t)
  {
    forall name
      ensures Agree(Winning(s), Winning(t), name)
    {
      WinnerCarries(s, t, name);
      WinnerCarries(t, s, name);
    }
    AgreeAll(Winning(s), Winning(t));
  }

  lemma AgreeAll(a: MarkSet, b: MarkSet)
    requires forall name :: Agree(a, b, name)
    ensures a == b
  {
    assert forall name :: name in a ==> Agree(a, b, name);
    assert forall name :: name in b ==> Agree(a, b, name);
  }

  predicate Agree(a: MarkSet, b: MarkSet, name: string) {
    (name in a <==> name in b) && (name in a && name in b ==> a[name] == b[name])
  }

  lemma WinnerCarries(s: seq<OpenMark>, t: seq<OpenMark>, name: string)
    requires ById(s) && ById(t) && Open(s) == Open(t)
    ensures name in Winning(s) ==> name in Winning(t) && Winning(t)[name] == Winning(s)[name]
  {
    WinningLacks(s, name);
    if !Lacks(s, name) {
      var i := FindLast(s, name);
      WinningIsLast(s, name, i);
      assert s[i] in Open(t);
      var j :| 0 <= j < |t| && t[j] == s[i];
      forall k | 0 <= k < |t| && t[k].data.name == name
        ensures !t[j].id.Before(t[k].id)
      {
        assert t[k] in Open(s);
        var l :| 0 <= l < |s| && s[l] == t[k];
        assert l < i ==> s[l].id.Before(s[i].id);
      }
      WinningIsHighest(t, name);
      assert Highest(t, j);
    }
  }

  lemma {:induction false} FindLast(state: seq<OpenMark>, name: string) returns (i: nat)
    requires !Lacks(state, name)
    ensures LastOf(state, name, i)
  {
    var n := |state| - 1;
    if state[n].data.name == name {
      i := n;
    } else {
      assert forall k :: 0 <= k < n ==> state[..n][k] == state[k];
      i := FindLast(state[..n], name);
    }
  }

  // The open marks as a hash map, walked in any order.

  datatype Action = Begin(data: MarkData) | End | MakeMap | Other

  datatype Op = Op(id: OpId, action: Action, width: nat)

  ghost function OpenOf(q: map<OpId, MarkData>): set<OpenMark> {
    set id | id in q :: OpenMark(id, q[id])
  }

  class RichTextQueryState {
    var marks: map<OpId, MarkData>
    var block: Option<OpId>

    constructor ()
      ensures marks == map[] && block == None
    {
      marks, block := map[], None;
    }

    /** An operation that the clock does not cover is not seen. */
    method Process(op: Op, clock: Option<seq<nat>>)
      requires op.id.counter > 0 && (clock.Some? ==> op.id.actor < |clock.value|)
      modifies this
      ensures marks == MarksAfter(old(marks), op, clock)
      ensures clock.Some? && clock.value[op.id.actor] < op.id.counter ==> marks == old(marks) && block == old(block)
      ensures (clock.None? || clock.value[op.id.actor] >= op.id.counter) && op.action.End? ==>
        marks == map id | id in old(marks) && id != OpId(op.id.counter - 1, op.id.actor) :: old(marks)[id]
      ensures block == if IsSeen(op, clock) && op.action.MakeMap? then Some(op.id) else old(block)
    {
      if clock.Some? && clock.value[op.id.actor] < op.id.counter {
        return;
      }
      match op.action {
        case Begin(data) => marks := marks[op.id := data];
        case End => marks := marks - {Prev(op.id)};
        case MakeMap => block := Some(op.id);
        case Other =>
      }
    }
  }

  predicate IsSeen(op: Op, clock: Option<seq<nat>>)
    requires clock.Some? ==> op.id.actor < |clock.value|
  {
    clock.Some? ==> clock.value[op.id.actor] >= op.id.counter
  }

  function MarksAfter(marks: map<OpId, MarkData>, op: Op, clock: Option<seq<nat>>): map<OpId, MarkData>
    requires op.id.counter > 0 && (clock.Some? ==> op.id.actor < |clock.value|)
  {
    if !IsSeen(op, clock) then marks
    else match op.action
      case Begin(data) => marks[op.id := data]
      case End => marks - {Prev(op.id)}
      case _ => marks
  }

  /** The state of the machine after an operation. */
  function StateAfter(state: seq<OpenMark>, op: Op): seq<OpenMark>
    requires op.id.counter > 0
  {
    match op.action
    case Begin(data) => Opened(state, op.id, data)
    case End => Closed(state, Prev(op.id))
    case _ => state
  }

  lemma OpenOfWith(marks: map<OpId, MarkData>, id: OpId, data: MarkData)
    requires id !in marks
    ensures OpenOf(marks[id := data]) == OpenOf(marks) + {OpenMark(id, data)}
  {
    var marks' := marks[id := data];
    forall m | m in OpenOf(marks) + {OpenMark(id, data)}
      ensures m in OpenOf(marks')
    {
      assert m.id in marks' && m == OpenMark(m.id, marks'[m.id]);
    }
  }

  lemma OpenOfWithout(marks: map<OpId, MarkData>, id: OpId)
    ensures OpenOf(marks - {id}) == set m | m in OpenOf(marks) && m.id != id
  {
    var marks' := marks - {id};
    forall m | m in OpenOf(marks) && m.id != id
      ensures m in OpenOf(marks')
    {
      assert m.id in marks' && m == OpenMark(m.id, marks'[m.id]);
    }
  }

  /** The hash map and the machine keep the same open marks, as long as no id is
      begun twice with different data. */
  lemma QueryTracksMachine(state: seq<OpenMark>, marks: map<OpId, MarkData>, op: Op)
    requires ById(state) && Open(state) == OpenOf(marks) && op.id.counter > 0
    requires op.action.Begin? && op.id in marks ==> marks[op.id] == op.action.data
    ensures ById(StateAfter(state, op)) && Open(StateAfter(state, op)) == OpenOf(MarksAfter(marks, op, None))
  {
    match op.action {
      case Begin(data) =>
        OpenedKeeps(state, op.id, data);
        HasIdIsKey(state, marks, op.id);
        if op.id in marks {
          assert marks[op.id := data] == marks;
        } else {
          OpenOfWith(marks, op.id, data);
        }
      case End =>
        ClosedKeeps(state, Prev(op.id));
        OpenOfWithout(marks, Prev(op.id));
      case _ =>
    }
  }

  lemma HasIdIsKey(state: seq<OpenMark>, marks: map<OpId, MarkData>, id: OpId)
    requires Open(state) == OpenOf(marks)
    ensures HasId(state, id) <==> id in marks
  {
    if HasId(state, id) {
      var k :| 0 <= k < |state| && state[k].id == id;
      assert state[k] in Open(state);
    }
    if id in marks {
      assert OpenMark(id, marks[id]) in Open(state);
    }
  }

  /** Whatever order the map is walked in, the marks that win come out. */
  method FromQueryState(marks: map<OpId, MarkData>, ghost state: seq<OpenMark>) returns (r: Option<MarkSet>)
    requires ById(state) && Open(state) == OpenOf(marks)
    ensures r == if Winning(state) == map[] then None else Some(Winning(state))
  {
    var machine := new MarkStateMachine();
    var rest := marks.Keys;
    ghost var done: map<OpId, MarkData> := map[];
    while rest != {}
      invariant machine.Valid() && Open(machine.state) == OpenOf(done)
      invariant done.Keys + rest == marks.Keys && done.Keys !! rest && forall id :: id in done ==> done[id] == marks[id]
      decreases rest
    {
      var id :| id in rest;
      OpenedKeeps(machine.state, id, marks[id]);
      HasIdIsKey(machine.state, done, id);
      OpenOfWith(done, id, marks[id]);
      var changed := machine.MarkBegin(id, marks[id]);
      done := done[id := marks[id]];
      rest := rest - {id};
    }
    assert done == marks;
    SameOpenSameWinning(machine.state, state);
    r := machine.Current();
  }
}
