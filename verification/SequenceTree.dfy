/**
A B-tree that holds a sequence by position.

Nodes own their children, so they are values here; each operation returns the
node as it is afterwards.  `Contents` is the sequence a node stands for.
*/
module SequenceTrees {
  import opened Wrappers
  import opened Weaving

  const B := 16

  datatype Node<T> = Node(elements: seq<T>, children: seq<Node<T>>, length: nat) {
    predicate IsLeaf() {
      |children| == 0
    }

    predicate IsFull() {
      |elements| >= 2 * B - 1
    }
  }

  function Contents<T>(n: Node<T>): seq<T> {
    Weave(seq(|n.children|, i requires 0 <= i < |n.children| => Contents(n.children[i])), n.elements)
  }

  lemma ContentsOfLeaf<T>(n: Node<T>)
    requires n.IsLeaf()
    ensures Contents(n) == n.elements
  {
  }

  function Parts<T>(children: seq<Node<T>>): seq<seq<T>> {
    seq(|children|, i requires 0 <= i < |children| => Contents(children[i]))
  }

  lemma PartsOfConcat<T>(a: seq<Node<T>>, b: seq<Node<T>>)
    ensures Parts(a + b) == Parts(a) + Parts(b)
  {
  }

  lemma PartsOfUpdate<T>(children: seq<Node<T>>, i: nat, c: Node<T>)
    requires i < |children|
    ensures Parts(children[i := c]) == Parts(children)[i := Contents(c)]
  {
  }

  lemma ContentsIsWeave<T>(n: Node<T>)
    ensures Contents(n) == Weave(Parts(n.children), n.elements)
  {
    assert Parts(n.children) == seq(|n.children|, i requires 0 <= i < |n.children| => Contents(n.children[i]));
  }

  /** A node of height h: its length is the true size, it is not overfull, and
      below it all leaves are at the same depth and all nodes at least half
      full. */
  ghost predicate Good<T>(n: Node<T>, h: nat)
    decreases h, 1
  {
    && |n.elements| <= 2 * B - 1
    && n.length == |Contents(n)|
    && if h == 0 then n.children == []
       else |n.children| == |n.elements| + 1 && forall i :: 0 <= i < |n.children| ==> GoodChild(n.children[i], h)
  }

  ghost predicate GoodChild<T>(c: Node<T>, h: nat)
    requires h > 0
    decreases h, 0
  {
    Good(c, h - 1) && |c.elements| >= B - 1
  }

  ghost predicate GoodChildren<T>(children: seq<Node<T>>, h: nat)
    requires h > 0
  {
    forall i :: 0 <= i < |children| ==> GoodChild(children[i], h)
  }

  lemma ChildIsGood<T>(n: Node<T>, h: nat, i: nat)
    requires Good(n, h) && i < |n.children|
    ensures h > 0 && GoodChild(n.children[i], h) && Good(n.children[i], h - 1) && |n.children[i].elements| >= B - 1
    ensures n.children[i].length == |Parts(n.children)[i]|
  {
    assert h > 0 && GoodChild(n.children[i], h);
  }

  // Sizes.

  function Power(h: nat): (p: nat)
    ensures p >= 1
  {
    if h == 0 then 1 else B * Power(h - 1)
  }

  /** At least k parts of at least m elements each, with elements between. */
  lemma {:induction false} WeaveAtLeast<T>(parts: seq<seq<T>>, between: seq<T>, k: nat, m: nat)
    requires 1 <= k <= |parts| == |between| + 1 && forall i :: 0 <= i < |parts| ==> |parts[i]| >= m
    ensures |Weave(parts, between)| + 1 >= k * (m + 1)
  {
    if k == 1 {
      WeaveAt(parts, between, 0);
    } else {
      WeaveAtLeast(parts[1..], between[1..], k - 1, m);
      assert k * (m + 1) == (k - 1) * (m + 1) + (m + 1);
    }
  }

  /** A tree of height h holds at least 2 * 16^h - 1 elements. */
  lemma {:induction false} MinimalSize<T>(n: Node<T>, h: nat)
    requires Good(n, h)
    ensures |n.elements| >= 15 ==> |Contents(n)| >= 16 * Power(h) - 1
    ensures |n.elements| >= 1 ==> |Contents(n)| >= 2 * Power(h) - 1
    decreases h
  {
    ContentsIsWeave(n);
    if h > 0 {
      forall i | 0 <= i < |n.children|
        ensures |Parts(n.children)[i]| >= Power(h) - 1
      {
        ChildIsGood(n, h, i);
        MinimalSize(n.children[i], h - 1);
      }
      if |n.elements| >= 1 {
        WeaveAtLeast(Parts(n.children), n.elements, 2, Power(h) - 1);
      }
      if |n.elements| >= B - 1 {
        WeaveAtLeast(Parts(n.children), n.elements, B, Power(h) - 1);
      }
    }
  }

  /** Where the contents of child i start. */
  function Start<T>(n: Node<T>, i: nat): nat
    requires i < |n.children| == |n.elements| + 1
  {
    |Before(Parts(n.children), n.elements, i)|
  }

  // Finding a position.

  /** The child that holds the position, or has it at its end. */
  method FindChildIndex<T>(n: Node<T>, index: nat, ghost h: nat) returns (child: nat, sub: nat)
    requires Good(n, h) && h > 0 && index <= n.length
    ensures child < |n.children| && sub <= n.children[child].length && Holds(n, child, index)
    ensures index == |Before(Parts(n.children), n.elements, child)| + sub
  {
    ghost var parts := Parts(n.children);
    ContentsIsWeave(n);
    var cumulative := 0;
    child := 0;
    ChildIsGood(n, h, 0);
    while cumulative + n.children[child].length < index
      invariant child < |n.children| && n.children[child].length == |parts[child]|
      invariant cumulative == |Before(parts, n.elements, child)| <= index
      decreases |n.children| - child
    {
      WeaveAt(parts, n.elements, child);
      NotLast(parts, n.elements, child);
      BeforeStep(parts, n.elements, child);
      cumulative := cumulative + n.children[child].length + 1;
      child := child + 1;
      ChildIsGood(n, h, child);
    }
    sub := index - cumulative;
  }

  lemma {:induction false} NotLast<T>(parts: seq<seq<T>>, between: seq<T>, i: nat)
    requires i < |parts| == |between| + 1
    ensures After(parts, between, i) == [] <==> i == |between|
  {
    if i > 0 {
      NotLast(parts[1..], between[1..], i - 1);
    }
  }

  method Get<T>(n: Node<T>, index: nat, ghost h: nat) returns (r: Option<T>)
    requires Good(n, h)
    ensures r == if index < n.length then Some(Contents(n)[index]) else None
    decreases h
  {
    ghost var parts := Parts(n.children);
    ContentsIsWeave(n);
    if n.IsLeaf() {
      return if index < |n.elements| then Some(n.elements[index]) else None;
    }
    var cumulative := 0;
    for child := 0 to |n.children|
      invariant child < |n.children| ==> cumulative == |Before(parts, n.elements, child)| <= index
      invariant child == |n.children| ==> index > n.length
    {
      ChildIsGood(n, h, child);
      WeaveAt(parts, n.elements, child);
      NotLast(parts, n.elements, child);
      var end := cumulative + n.children[child].length;
      if end == index {
        if child < |n.elements| {
          BeforeStep(parts, n.elements, child);
        }
        return if child < |n.elements| then Some(n.elements[child]) else None;
      } else if end > index {
        r := Get(n.children[child], index - cumulative, h - 1);
        return;
      }
      if child < |n.elements| {
        BeforeStep(parts, n.elements, child);
      }
      cumulative := end + 1;
    }
    r := None;
  }

  // Changing one child, or two neighbours, keeps the rest of a node.

  lemma ReplaceChild<T>(n: Node<T>, h: nat, i: nat, c: Node<T>, length: nat)
    requires Good(n, h) && i < |n.children| && h > 0 && GoodChild(c, h)
    requires length + n.children[i].length == n.length + c.length
    ensures var parts := Parts(n.children);
            Contents(n) == Before(parts, n.elements, i) + Contents(n.children[i]) + After(parts, n.elements, i)
    ensures var n', parts := Node(n.elements, n.children[i := c], length), Parts(n.children);
            Good(n', h) && Contents(n') == Before(parts, n.elements, i) + Contents(c) + After(parts, n.elements, i)
  {
    var n', parts := Node(n.elements, n.children[i := c], length), Parts(n.children);
    ContentsIsWeave(n);
    ContentsIsWeave(n');
    ChildIsGood(n, h, i);
    WeaveAt(parts, n.elements, i);
    PartsOfUpdate(n.children, i, c);
    WeaveUpdate(parts, n.elements, i, Contents(c));
  }

  // Splitting.

  function SumLengths<T>(children: seq<Node<T>>): nat {
    if children == [] then 0 else children[0].length + SumLengths(children[1..])
  }

  lemma {:induction false} SumIsTotal<T>(children: seq<Node<T>>, h: nat)
    requires h > 0 && GoodChildren(children, h)
    ensures SumLengths(children) == TotalLength(Parts(children))
  {
    if children != [] {
      assert GoodChild(children[0], h) && Good(children[0], h - 1);
      assert Parts(children)[1..] == Parts(children[1..]);
      SumIsTotal(children[1..], h);
    }
  }

  /** A node that was given the right length. */
  lemma Measured<T>(elements: seq<T>, children: seq<Node<T>>, h: nat)
    requires |elements| <= 2 * B - 1
    requires if h == 0 then children == [] else |children| == |elements| + 1 && GoodChildren(children, h)
    ensures Good(Node(elements, children, |elements| + SumLengths(children)), h)
  {
    var n := Node(elements, children, |elements| + SumLengths(children));
    ContentsIsWeave(n);
    if h > 0 {
      SumIsTotal(children, h);
      WeaveLength(Parts(children), elements);
    }
  }

  /** Cuts a full node at its middle element. */
  method SplitFull<T>(c: Node<T>, ghost h: nat) returns (l: Node<T>, m: T, r: Node<T>)
    requires Good(c, h) && c.IsFull()
    ensures Good(l, h) && Good(r, h) && |l.elements| == |r.elements| == B - 1
    ensures Contents(c) == Contents(l) + [m] + Contents(r)
  {
    var le, re := c.elements[..B - 1], c.elements[B..];
    var lc, rc := c.children, c.children;
    if !c.IsLeaf() {
      lc, rc := c.children[..B], c.children[B..];
      HalvesAreGood(c, h);
    }
    m := c.elements[B - 1];
    l := Node(le, lc, |le| + SumLengths(lc));
    r := Node(re, rc, |re| + SumLengths(rc));
    Measured(le, lc, h);
    Measured(re, rc, h);
    JoinedContents(c, l, m, r);
  }

  lemma HalvesAreGood<T>(c: Node<T>, h: nat)
    requires Good(c, h) && c.IsFull() && h > 0
    ensures GoodChildren(c.children[..B], h) && GoodChildren(c.children[B..], h)
  {
    forall i | 0 <= i < |c.children|
      ensures GoodChild(c.children[i], h)
    {
    }
  }

  /** The contents of a node whose elements and children are those of two nodes
      with an element between them. */
  lemma JoinedContents<T>(c: Node<T>, l: Node<T>, m: T, r: Node<T>)
    requires c.elements == l.elements + [m] + r.elements && c.children == l.children + r.children
    requires (l.children == [] && r.children == []) || (|l.children| == |l.elements| + 1 && |r.children| == |r.elements| + 1)
    ensures Contents(c) == Contents(l) + [m] + Contents(r)
  {
    if l.children == [] {
      ContentsOfLeaf(c);
      ContentsOfLeaf(l);
      ContentsOfLeaf(r);
    } else {
      ContentsIsWeave(c);
      ContentsIsWeave(l);
      ContentsIsWeave(r);
      PartsOfConcat(l.children, r.children);
      WeaveConcat(Parts(l.children), l.elements, m, Parts(r.children), r.elements);
    }
  }

  /** Puts the halves of a full child in its place. */
  method SplitChild<T>(n: Node<T>, i: nat, ghost h: nat) returns (n': Node<T>)
    requires Good(n, h) && !n.IsFull() && i < |n.children| && n.children[i].IsFull()
    ensures Good(n', h) && Contents(n') == Contents(n)
    ensures |n'.elements| == |n.elements| + 1 && n'.length == n.length && |n'.children| == |n.children| + 1
    ensures !n'.children[i].IsFull() && !n'.children[i + 1].IsFull()
    ensures forall index, k :: Holds(n, i, index) && Holds(n', k, index) ==> k == i || k == i + 1
  {
    ChildIsGood(n, h, i);
    var l, m, r := SplitFull(n.children[i], h - 1);
    n' := Node(Insert(n.elements, i, m), Cut(n.children, i, l, r), n.length);
    CutChild(n, i, l, m, r, h);
    forall index, k | Holds(n, i, index) && Holds(n', k, index)
      ensures k == i || k == i + 1
    {
      CutHolds(n, i, l, m, r, index, k);
    }
  }

  /** The position is within child i, or at its end. */
  ghost predicate Holds<T>(n: Node<T>, i: nat, index: nat) {
    && i < |n.children| == |n.elements| + 1
    && var start := |Before(Parts(n.children), n.elements, i)|;
       start <= index <= start + |Contents(n.children[i])|
  }

  /** After a cut, the position is in one of the two halves. */
  lemma CutHolds<T>(n: Node<T>, i: nat, l: Node<T>, m: T, r: Node<T>, index: nat, k: nat)
    requires Holds(n, i, index) && Contents(n.children[i]) == Contents(l) + [m] + Contents(r)
    requires Holds(Node(Insert(n.elements, i, m), Cut(n.children, i, l, r), n.length), k, index)
    ensures k == i || k == i + 1
  {
    var parts, between := Parts(n.children), n.elements;
    var parts', between' := Cut(parts, i, Contents(l), Contents(r)), Insert(between, i, m);
    PartsOfCut(n.children, i, l, r);
    BeforeCut(parts, between, i, Contents(l), m, Contents(r));
    BeforeStep(parts', between', i);
    if k < i {
      BeforeMonotone(parts', between', k, i);
    } else if k > i + 1 {
      BeforeMonotone(parts', between', i + 1, k);
    }
  }

  lemma CutChild<T>(n: Node<T>, i: nat, l: Node<T>, m: T, r: Node<T>, h: nat)
    requires Good(n, h) && !n.IsFull() && i < |n.children| && h > 0 && GoodChild(l, h) && GoodChild(r, h)
    requires Contents(n.children[i]) == Contents(l) + [m] + Contents(r)
    ensures var n' := Node(Insert(n.elements, i, m), Cut(n.children, i, l, r), n.length);
            Good(n', h) && Contents(n') == Contents(n)
  {
    var n' := Node(Insert(n.elements, i, m), Cut(n.children, i, l, r), n.length);
    ContentsIsWeave(n);
    ContentsIsWeave(n');
    PartsOfCut(n.children, i, l, r);
    WeaveCut(Parts(n.children), n.elements, i, Contents(l), m, Contents(r));
    assert GoodChildren(n.children, h);
    CutChildren(n.children, i, l, r, h);
  }

  lemma PartsOfCut<T>(children: seq<Node<T>>, i: nat, l: Node<T>, r: Node<T>)
    requires i < |children|
    ensures Parts(Cut(children, i, l, r)) == Cut(Parts(children), i, Contents(l), Contents(r))
  {
  }

  lemma CutChildren<T>(children: seq<Node<T>>, i: nat, l: Node<T>, r: Node<T>, h: nat)
    requires i < |children| && h > 0 && GoodChildren(children, h) && GoodChild(l, h) && GoodChild(r, h)
    ensures GoodChildren(Cut(children, i, l, r), h)
  {
    forall k | 0 <= k < |children| + 1
      ensures GoodChild(Cut(children, i, l, r)[k], h)
    {
      assert k < i ==> GoodChild(children[k], h);
      assert k > i + 1 ==> GoodChild(children[k - 1], h);
    }
  }

  // Inserting.

  /** Inserts at a position; full children on the way are split first. */
  method InsertIntoNonFullNode<T>(n: Node<T>, index: nat, element: T, ghost h: nat) returns (n': Node<T>)
    requires Good(n, h) && !n.IsFull() && index <= n.length
    ensures Good(n', h) && Contents(n') == Insert(Contents(n), index, element)
    ensures |n.elements| <= |n'.elements|
    decreases h
  {
    if n.IsLeaf() {
      n' := Node(Insert(n.elements, index, element), [], n.length + 1);
      ContentsOfLeaf(n);
      ContentsOfLeaf(n');
    } else {
      var child, sub := FindChildIndex(n, index, h);
      var m := n;
      if n.children[child].IsFull() {
        m := SplitChild(n, child, h);
        child, sub := FindChildIndex(m, index, h);
      }
      ChildIsGood(m, h, child);
      var c := InsertIntoNonFullNode(m.children[child], sub, element, h - 1);
      n' := Node(m.elements, m.children[child := c], m.length + 1);
      InsertBelow(m, h, child, c, sub, element, index);
    }
  }

  lemma InsertBelow<T>(n: Node<T>, h: nat, i: nat, c: Node<T>, sub: nat, x: T, index: nat)
    requires Good(n, h) && i < |n.children| && h > 0 && GoodChild(c, h) && sub <= |Contents(n.children[i])|
    requires index == Start(n, i) + sub
    requires Contents(c) == Insert(Contents(n.children[i]), sub, x)
    ensures var n' := Node(n.elements, n.children[i := c], n.length + 1);
            Good(n', h) && index <= |Contents(n)| && Contents(n') == Insert(Contents(n), index, x)
  {
    ChildIsGood(n, h, i);
    ReplaceChild(n, h, i, c, n.length + 1);
    InsertInMiddle(Contents(n), Before(Parts(n.children), n.elements, i), Contents(n.children[i]), After(Parts(n.children), n.elements, i), sub, x, index);
  }

  lemma InsertInMiddle<T>(s: seq<T>, a: seq<T>, b: seq<T>, c: seq<T>, i: nat, x: T, at: nat)
    requires s == a + b + c && i <= |b| && at == |a| + i
    ensures Insert(s, at, x) == a + Insert(b, i, x) + c
  {
  }

  lemma NewRoot<T>(root: Node<T>, h: nat)
    requires Good(root, h) && |root.elements| >= B - 1
    ensures Good(Node([], [root], root.length), h + 1) && Contents(Node([], [root], root.length)) == Contents(root)
  {
    ContentsIsWeave(Node([], [root], root.length));
    assert GoodChild(root, h + 1);
  }

  // Moving elements between neighbours.

  /** c holds the elements and children of l and r, with m between. */
  ghost predicate Joins<T>(c: Node<T>, l: Node<T>, m: T, r: Node<T>, h: nat) {
    && c.elements == l.elements + [m] + r.elements
    && c.children == l.children + r.children
    && c.length == l.length + r.length + 1
    && if h == 0 then l.children == [] && r.children == []
       else |l.children| == |l.elements| + 1 && |r.children| == |r.elements| + 1
  }

  lemma JoinIsGood<T>(c: Node<T>, l: Node<T>, m: T, r: Node<T>, h: nat)
    requires Joins(c, l, m, r, h) && Good(l, h) && Good(r, h) && |c.elements| <= 2 * B - 1
    ensures Good(c, h) && Contents(c) == Contents(l) + [m] + Contents(r)
  {
    JoinedContents(c, l, m, r);
    if h > 0 {
      forall i | 0 <= i < |c.children|
        ensures GoodChild(c.children[i], h)
      {
        if i < |l.children| {
          ChildIsGood(l, h, i);
        } else {
          ChildIsGood(r, h, i - |l.children|);
        }
      }
    }
  }

  /** Taking a good node apart gives good nodes, if one got its true length. */
  lemma PartsAreGood<T>(c: Node<T>, l: Node<T>, m: T, r: Node<T>, h: nat)
    requires Joins(c, l, m, r, h) && Good(c, h) && (l.length == |Contents(l)| || r.length == |Contents(r)|)
    ensures Good(l, h) && Good(r, h) && Contents(c) == Contents(l) + [m] + Contents(r)
  {
    JoinedContents(c, l, m, r);
    if h > 0 {
      forall i | 0 <= i < |l.children|
        ensures GoodChild(l.children[i], h)
      {
        ChildIsGood(c, h, i);
        assert c.children[i] == l.children[i];
      }
      forall i | 0 <= i < |r.children|
        ensures GoodChild(r.children[i], h)
      {
        ChildIsGood(c, h, |l.children| + i);
        assert c.children[|l.children| + i] == r.children[i];
      }
    }
  }

  /** No element, and the given children: what moves along with an element. */
  function Loose<T>(children: seq<Node<T>>): Node<T> {
    Node([], children, if children == [] then 0 else children[0].length)
  }

  lemma LooseLength<T>(children: seq<Node<T>>, h: nat)
    requires |children| <= 1 && forall i :: 0 <= i < |children| ==> Good(children[i], h)
    ensures |Contents(Loose(children))| == Loose(children).length
  {
    ContentsIsWeave(Loose(children));
  }

  lemma Reassociate<T>(a: seq<T>, u: T, x: seq<T>, v: T, b: seq<T>)
    ensures a + [u] + (x + [v] + b) == a + [u] + x + [v] + b
  {
  }

  lemma MovingChild<T>(n: Node<T>, h: nat, i: nat)
    requires Good(n, h) && i < |n.children|
    ensures h > 0 && Good(n.children[i], h - 1) && n.children[i].length + |n.elements| <= n.length
  {
    ChildIsGood(n, h, i);
    ContentsIsWeave(n);
    PartWithin(Parts(n.children), n.elements, i);
  }

  /** Two neighbours and the element between them, put together differently. */
  ghost predicate Rotated<T>(l: Node<T>, above: T, r: Node<T>, l': Node<T>, up: T, r': Node<T>, h: nat) {
    && Good(l', h) && Good(r', h)
    && Contents(l') + [up] + Contents(r') == Contents(l) + [above] + Contents(r)
  }

  /** Moves the last element of l up and the one above down to r. */
  method MoveRight<T>(l: Node<T>, above: T, r: Node<T>, ghost h: nat) returns (l': Node<T>, up: T, r': Node<T>)
    requires Good(l, h) && Good(r, h) && |l.elements| >= 1 && |r.elements| < 2 * B - 1
    ensures Rotated(l, above, r, l', up, r', h) && |Contents(r')| > |Contents(r)|
    ensures |l'.elements| == |l.elements| - 1 && |r'.elements| == |r.elements| + 1
  {
    var last := |l.elements| - 1;
    up := l.elements[last];
    var kept, moved := l.children, [];
    if l.children != [] {
      kept, moved := l.children[..last + 1], l.children[last + 1..];
      MovingChild(l, h, last + 1);
      LooseLength(moved, h - 1);
    }
    var x := Loose(moved);
    l' := Node(l.elements[..last], kept, l.length - 1 - x.length);
    r' := Node([above] + r.elements, moved + r.children, r.length + 1 + x.length);
    assert Joins(l, l', up, x, h) && Joins(r', x, above, r, h);
    PartsAreGood(l, l', up, x, h);
    JoinIsGood(r', x, above, r, h);
    Reassociate(Contents(l'), up, Contents(x), above, Contents(r));
  }

  /** Moves the first element of r up and the one above down to l. */
  method MoveLeft<T>(l: Node<T>, above: T, r: Node<T>, ghost h: nat) returns (l': Node<T>, up: T, r': Node<T>)
    requires Good(l, h) && Good(r, h) && |r.elements| >= 1 && |l.elements| < 2 * B - 1
    ensures Rotated(l, above, r, l', up, r', h) && |Contents(l')| > |Contents(l)|
    ensures |r'.elements| == |r.elements| - 1 && |l'.elements| == |l.elements| + 1
  {
    up := r.elements[0];
    var kept, moved := r.children, [];
    if !r.IsLeaf() {
      kept, moved := r.children[1..], r.children[..1];
      MovingChild(r, h, 0);
      LooseLength(moved, h - 1);
    }
    var x := Loose(moved);
    r' := Node(r.elements[1..], kept, r.length - 1 - x.length);
    l' := Node(l.elements + [above], l.children + moved, l.length + 1 + x.length);
    assert Joins(r, x, up, r', h) && Joins(l', l, above, x, h);
    PartsAreGood(r, x, up, r', h);
    JoinIsGood(l', l, above, x, h);
    Reassociate(Contents(l), above, Contents(x), up, Contents(r'));
  }

  /** Appends an element and the sibling after it. */
  method Merge<T>(l: Node<T>, middle: T, r: Node<T>, ghost h: nat) returns (c: Node<T>)
    requires Good(l, h) && Good(r, h) && |l.elements| == |r.elements| == B - 1
    ensures Good(c, h) && c.IsFull() && Contents(c) == Contents(l) + [middle] + Contents(r)
  {
    c := Node(l.elements + [middle] + r.elements, l.children + r.children, l.length + r.length + 1);
    JoinIsGood(c, l, middle, r, h);
  }

  // Removing.

  /** r is n without the element v at the position. */
  ghost predicate Removed<T>(n: Node<T>, index: nat, r: Node<T>, v: T, h: nat) {
    && index < |Contents(n)|
    && v == Contents(n)[index]
    && Contents(r) == Remove(Contents(n), index)
    && Good(r, h)
    && |n.elements| - 1 <= |r.elements| <= |n.elements|
  }

  lemma RemoveFromMiddle<T>(s: seq<T>, a: seq<T>, b: seq<T>, c: seq<T>, i: nat)
    requires s == a + b + c && i < |b|
    ensures Remove(s, |a| + i) == a + Remove(b, i) + c && s[|a| + i] == b[i]
  {
  }

  /** Removing within a child that stays at least half full. */
  lemma RemoveBelow<T>(n: Node<T>, h: nat, i: nat, c: Node<T>, sub: nat, v: T)
    requires Good(n, h) && i < |n.children| && h > 0 && n.length > 0
    requires Removed(n.children[i], sub, c, v, h - 1) && |c.elements| >= B - 1
    ensures Removed(n, Start(n, i) + sub, Node(n.elements, n.children[i := c], n.length - 1), v, h)
  {
    ChildIsGood(n, h, i);
    ReplaceChild(n, h, i, c, n.length - 1);
    RemoveFromMiddle(Contents(n), Before(Parts(n.children), n.elements, i), Contents(n.children[i]), After(Parts(n.children), n.elements, i), sub);
  }

  lemma ReplacePair<T>(n: Node<T>, h: nat, i: nat, l: Node<T>, m: T, r: Node<T>, length: nat)
    requires Good(n, h) && h > 0 && i + 1 < |n.children| && GoodChild(l, h) && GoodChild(r, h)
    requires length + n.children[i].length + n.children[i + 1].length == n.length + l.length + r.length
    ensures var n', parts := Node(n.elements[i := m], n.children[i := l][i + 1 := r], length), Parts(n.children);
            && Good(n', h) && Start(n', i) == Start(n, i)
            && Contents(n') == Before(parts, n.elements, i) + (Contents(l) + [m] + Contents(r)) + After(parts, n.elements, i + 1)
            && Contents(n) == Before(parts, n.elements, i)
                 + (Contents(n.children[i]) + [n.elements[i]] + Contents(n.children[i + 1])) + After(parts, n.elements, i + 1)
  {
    var n', parts := Node(n.elements[i := m], n.children[i := l][i + 1 := r], length), Parts(n.children);
    ContentsIsWeave(n);
    ContentsIsWeave(n');
    ChildIsGood(n, h, i);
    ChildIsGood(n, h, i + 1);
    PartsOfUpdate(n.children, i, l);
    PartsOfUpdate(n.children[i := l], i + 1, r);
    WeaveReplace(parts, n.elements, i, Contents(l), m, Contents(r));
    WeaveReplace(parts, n.elements, i, parts[i], n.elements[i], parts[i + 1]);
    assert parts[i := parts[i]][i + 1 := parts[i + 1]] == parts && n.elements[i := n.elements[i]] == n.elements;
    BeforePrefix(parts, n.elements, Parts(n'.children), n'.elements, i);
  }

  /** Joins two half-full children and the element between them. */
  method MergeChildren<T>(n: Node<T>, i: nat, ghost h: nat) returns (n': Node<T>)
    requires Good(n, h) && h > 0 && i + 1 < |n.children|
    requires |n.children[i].elements| == |n.children[i + 1].elements| == B - 1
    ensures Good(n', h) && Contents(n') == Contents(n) && n'.length == n.length && |n'.elements| == |n.elements| - 1
    ensures n'.children[i].IsFull() && Start(n', i) == Start(n, i)
    ensures |Contents(n'.children[i])| == |Contents(n.children[i])| + 1 + |Contents(n.children[i + 1])|
  {
    ChildIsGood(n, h, i);
    ChildIsGood(n, h, i + 1);
    var l, m, r := n.children[i], n.elements[i], n.children[i + 1];
    var c := Merge(l, m, r, h - 1);
    n' := Node(Remove(n.elements, i), Remove(n.children, i + 1)[i := c], n.length);
    MergeUndone(n.children, i, c);
    assert Insert(n'.elements, i, m) == n.elements;
    PartsOfCut(n'.children, i, l, r);
    ContentsIsWeave(n);
    ContentsIsWeave(n');
    WeaveCut(Parts(n'.children), n'.elements, i, Contents(l), m, Contents(r));
    BeforeCut(Parts(n'.children), n'.elements, i, Contents(l), m, Contents(r));
    MergedChildren(n, n', i, c, h);
  }

  lemma MergeUndone<T>(s: seq<Node<T>>, i: nat, c: Node<T>)
    requires i + 1 < |s|
    ensures Cut(Remove(s, i + 1)[i := c], i, s[i], s[i + 1]) == s
  {
  }

  lemma MergedChildren<T>(n: Node<T>, n': Node<T>, i: nat, c: Node<T>, h: nat)
    requires Good(n, h) && h > 0 && i + 1 < |n.children| && GoodChild(c, h)
    requires n'.children == Remove(n.children, i + 1)[i := c]
    ensures GoodChildren(n'.children, h)
  {
    forall k | 0 <= k < |n'.children|
      ensures GoodChild(n'.children[k], h)
    {
      ChildIsGood(n, h, if k <= i then k else k + 1);
    }
  }

  /** The length of everything before a child. */
  method CumulativeIndex<T>(n: Node<T>, child: nat, ghost h: nat) returns (total: nat)
    requires Good(n, h) && h > 0 && child < |n.children|
    ensures total == Start(n, child)
  {
    total := 0;
    for k := 0 to child
      invariant total == Start(n, k)
    {
      ChildIsGood(n, h, k);
      BeforeStep(Parts(n.children), n.elements, k);
      total := total + n.children[k].length + 1;
    }
  }

  method RemoveElement<T>(n: Node<T>, index: nat, ghost h: nat) returns (r: Node<T>, v: T)
    requires Good(n, h) && index < n.length && |n.elements| >= 1
    ensures Removed(n, index, r, v, h)
    decreases h, 3
  {
    if n.IsLeaf() {
      ContentsOfLeaf(n);
      v := n.elements[index];
      r := Node(Remove(n.elements, index), [], n.length - 1);
      ContentsOfLeaf(r);
    } else {
      var total, child := 0, 0;
      ChildIsGood(n, h, 0);
      ContentsIsWeave(n);
      while total + n.children[child].length < index
        invariant child < |n.children| && n.children[child].length == |Parts(n.children)[child]|
        invariant total == Start(n, child) <= index
        decreases |n.children| - child
      {
        WeaveAt(Parts(n.children), n.elements, child);
        NotLast(Parts(n.children), n.elements, child);
        BeforeStep(Parts(n.children), n.elements, child);
        total := total + n.children[child].length + 1;
        child := child + 1;
        ChildIsGood(n, h, child);
      }
      if total + n.children[child].length == index {
        WeaveAt(Parts(n.children), n.elements, child);
        NotLast(Parts(n.children), n.elements, child);
        r, v := RemoveElementFromNonLeaf(n, index, child, h);
      } else {
        r, v := RemoveFromInternalChild(n, index, child, h);
      }
    }
  }

  /** Removes an element between two children: a neighbouring element takes its
      place, or the children merge around it. */
  method RemoveElementFromNonLeaf<T>(n: Node<T>, index: nat, i: nat, ghost h: nat) returns (r: Node<T>, v: T)
    requires Good(n, h) && h > 0 && i < |n.elements| && index == Start(n, i) + n.children[i].length && index < n.length
    ensures Removed(n, index, r, v, h)
    decreases h, 2
  {
    ChildIsGood(n, h, i);
    ChildIsGood(n, h, i + 1);
    v := n.elements[i];
    if |n.children[i].elements| >= B {
      var total := CumulativeIndex(n, i, h);
      NotEmpty(n.children[i], h - 1);
      var c, predecessor := RemoveElement(n.children[i], index - 1 - total, h - 1);
      r := Node(n.elements[i := predecessor], n.children[i := c], n.length - 1);
      TakePredecessor(n, h, i, c, predecessor, index);
    } else if |n.children[i + 1].elements| >= B {
      var total := CumulativeIndex(n, i + 1, h);
      BeforeStep(Parts(n.children), n.elements, i);
      NotEmpty(n.children[i + 1], h - 1);
      var c, successor := RemoveElement(n.children[i + 1], index + 1 - total, h - 1);
      r := Node(n.elements[i := successor], n.children[i + 1 := c], n.length - 1);
      TakeSuccessor(n, h, i, c, successor, index);
    } else {
      r, v := MergeAndRemove(n, index, i, h);
    }
  }

  method MergeAndRemove<T>(n: Node<T>, index: nat, i: nat, ghost h: nat) returns (r: Node<T>, v: T)
    requires Good(n, h) && h > 0 && i < |n.elements| && index == Start(n, i) + n.children[i].length && index < n.length
    requires |n.children[i].elements| < B && |n.children[i + 1].elements| < B
    ensures Removed(n, index, r, v, h)
    decreases h, 1
  {
    ChildIsGood(n, h, i);
    ChildIsGood(n, h, i + 1);
    var m := MergeChildren(n, i, h);
    r, v := RemoveWithin(m, index, i, h);
  }

  /** Removes within a child that is more than half full. */
  method RemoveWithin<T>(n: Node<T>, index: nat, i: nat, ghost h: nat) returns (r: Node<T>, v: T)
    requires Good(n, h) && h > 0 && i < |n.children| && |n.children[i].elements| >= B && n.length > 0
    requires Start(n, i) <= index < Start(n, i) + |Contents(n.children[i])|
    ensures Removed(n, index, r, v, h) && |r.elements| == |n.elements|
    decreases h, 0
  {
    ChildIsGood(n, h, i);
    var total := CumulativeIndex(n, i, h);
    var c;
    c, v := RemoveElement(n.children[i], index - total, h - 1);
    r := Node(n.elements, n.children[i := c], n.length - 1);
    RemoveBelow(n, h, i, c, index - total, v);
  }

  lemma NotEmpty<T>(n: Node<T>, h: nat)
    requires Good(n, h) && |n.elements| >= 1
    ensures n.length >= 1
  {
    ContentsIsWeave(n);
    if h > 0 {
      WeaveLength(Parts(n.children), n.elements);
    }
  }

  /** The two children have taken the place of an element between them. */
  lemma TakeNeighbour<T>(n: Node<T>, h: nat, i: nat, l: Node<T>, m: T, r: Node<T>, index: nat, n': Node<T>)
    requires Good(n, h) && h > 0 && i < |n.elements| && n.length > 0 && GoodChild(l, h) && GoodChild(r, h)
    requires Contents(l) + [m] + Contents(r) == Contents(n.children[i]) + Contents(n.children[i + 1])
    requires index == Start(n, i) + |Contents(n.children[i])|
    requires n' == Node(n.elements[i := m], n.children[i := l][i + 1 := r], n.length - 1)
    ensures Removed(n, index, n', n.elements[i], h)
  {
    ChildIsGood(n, h, i);
    ChildIsGood(n, h, i + 1);
    var joined := Contents(l) + [m] + Contents(r);
    assert |joined| == l.length + 1 + r.length;
    ReplacePair(n, h, i, l, m, r, n.length - 1);
    RemoveBetween(Contents(n), Contents(n'), Before(Parts(n.children), n.elements, i), Contents(n.children[i]), n.elements[i],
                  Contents(n.children[i + 1]), joined, After(Parts(n.children), n.elements, i + 1), index);
  }

  lemma RemovedLast<T>(s: seq<T>, s': seq<T>, v: T, after: seq<T>)
    requires s != [] && s' == Remove(s, |s| - 1) && v == s[|s| - 1]
    ensures s' + [v] + after == s + after
  {
  }

  lemma RemovedFirst<T>(s: seq<T>, s': seq<T>, v: T, before: seq<T>)
    requires s != [] && s' == Remove(s, 0) && v == s[0]
    ensures before + [v] + s' == before + s
  {
  }

  lemma TakePredecessor<T>(n: Node<T>, h: nat, i: nat, c: Node<T>, v: T, index: nat)
    requires Good(n, h) && h > 0 && i < |n.elements| && n.length > 0 && index == Start(n, i) + n.children[i].length && n.children[i].length >= 1
    requires |n.children[i].elements| >= B && Removed(n.children[i], n.children[i].length - 1, c, v, h - 1)
    ensures Removed(n, index, Node(n.elements[i := v], n.children[i := c], n.length - 1), n.elements[i], h)
  {
    ChildIsGood(n, h, i);
    ChildIsGood(n, h, i + 1);
    assert n.children[i := c][i + 1 := n.children[i + 1]] == n.children[i := c];
    RemovedLast(Contents(n.children[i]), Contents(c), v, Contents(n.children[i + 1]));
    TakeNeighbour(n, h, i, c, v, n.children[i + 1], index, Node(n.elements[i := v], n.children[i := c], n.length - 1));
  }

  lemma TakeSuccessor<T>(n: Node<T>, h: nat, i: nat, c: Node<T>, v: T, index: nat)
    requires Good(n, h) && h > 0 && i < |n.elements| && n.length > 0 && index == Start(n, i) + n.children[i].length && n.children[i + 1].length >= 1
    requires |n.children[i + 1].elements| >= B && Removed(n.children[i + 1], 0, c, v, h - 1)
    ensures Removed(n, index, Node(n.elements[i := v], n.children[i + 1 := c], n.length - 1), n.elements[i], h)
  {
    ChildIsGood(n, h, i);
    ChildIsGood(n, h, i + 1);
    assert n.children[i := n.children[i]][i + 1 := c] == n.children[i + 1 := c];
    RemovedFirst(Contents(n.children[i + 1]), Contents(c), v, Contents(n.children[i]));
    TakeNeighbour(n, h, i, n.children[i], v, c, index, Node(n.elements[i := v], n.children[i + 1 := c], n.length - 1));
  }

  lemma RemoveBetween<T>(s: seq<T>, s': seq<T>, a: seq<T>, l: seq<T>, m: T, r: seq<T>, x: seq<T>, c: seq<T>, at: nat)
    requires s == a + (l + [m] + r) + c && s' == a + x + c && x == l + r && at == |a| + |l|
    ensures at < |s| && s[at] == m && s' == Remove(s, at)
  {
  }

  /** Removes within a child, which is filled up first if it is only half full. */
  method RemoveFromInternalChild<T>(n: Node<T>, index: nat, child: nat, ghost h: nat) returns (r: Node<T>, v: T)
    requires Good(n, h) && h > 0 && |n.elements| >= 1 && child < |n.children|
    requires Start(n, child) <= index < Start(n, child) + n.children[child].length
    ensures Removed(n, index, r, v, h)
    decreases h, 1
  {
    ChildIsGood(n, h, child);
    var m, i := FillChild(n, child, index, h);
    NotEmpty(n, h);
    r, v := RemoveWithin(m, index, i, h);
  }

  /** Merges a half-full child with a half-full sibling, or moves an element
      over from a sibling that can spare one. */
  method FillChild<T>(n: Node<T>, child: nat, ghost index: nat, ghost h: nat) returns (n': Node<T>, i: nat)
    requires Good(n, h) && h > 0 && |n.elements| >= 1 && child < |n.children|
    requires Start(n, child) <= index < Start(n, child) + |Contents(n.children[child])|
    ensures Good(n', h) && Contents(n') == Contents(n) && n'.length == n.length
    ensures |n.elements| - 1 <= |n'.elements| <= |n.elements|
    ensures i < |n'.children| && |n'.children[i].elements| >= B
    ensures Start(n', i) <= index < Start(n', i) + |Contents(n'.children[i])|
  {
    ChildIsGood(n, h, child);
    if child > 0 {
      ChildIsGood(n, h, child - 1);
      BeforeStep(Parts(n.children), n.elements, child - 1);
    }
    if child + 1 < |n.children| {
      ChildIsGood(n, h, child + 1);
    }
    n', i := n, child;
    if |n.children[child].elements| < B {
      if (child == 0 || |n.children[child - 1].elements| < B)
         && (child + 1 == |n.children| || |n.children[child + 1].elements| < B)
      {
        if child > 0 {
          i := child - 1;
        }
        n' := MergeChildren(n, i, h);
      } else if child > 0 && |n.children[child - 1].elements| >= B {
        n' := BorrowFromLeft(n, child, h);
      } else {
        n' := BorrowFromRight(n, child, h);
      }
    }
  }

  method BorrowFromLeft<T>(n: Node<T>, child: nat, ghost h: nat) returns (n': Node<T>)
    requires Good(n, h) && h > 0 && 0 < child < |n.children|
    requires |n.children[child - 1].elements| >= B && |n.children[child].elements| == B - 1
    ensures Good(n', h) && Contents(n') == Contents(n) && n'.length == n.length && |n'.elements| == |n.elements|
    ensures |n'.children[child].elements| == B
    ensures Start(n', child) <= Start(n, child)
    ensures Start(n', child) + |Contents(n'.children[child])| == Start(n, child) + |Contents(n.children[child])|
  {
    ChildIsGood(n, h, child - 1);
    ChildIsGood(n, h, child);
    var l, up, r := MoveRight(n.children[child - 1], n.elements[child - 1], n.children[child], h - 1);
    n' := Node(n.elements[child - 1 := up], n.children[child - 1 := l][child := r], n.length);
    ReplacePair(n, h, child - 1, l, up, r, n.length);
    BeforeStep(Parts(n.children), n.elements, child - 1);
    BeforeStep(Parts(n'.children), n'.elements, child - 1);
  }

  method BorrowFromRight<T>(n: Node<T>, child: nat, ghost h: nat) returns (n': Node<T>)
    requires Good(n, h) && h > 0 && child + 1 < |n.children|
    requires |n.children[child + 1].elements| >= B && |n.children[child].elements| == B - 1
    ensures Good(n', h) && Contents(n') == Contents(n) && n'.length == n.length && |n'.elements| == |n.elements|
    ensures |n'.children[child].elements| == B && |n'.children| == |n.children|
    ensures Start(n', child) == Start(n, child) && |Contents(n'.children[child])| > |Contents(n.children[child])|
  {
    ChildIsGood(n, h, child);
    ChildIsGood(n, h, child + 1);
    var l, up, r := MoveLeft(n.children[child], n.elements[child], n.children[child + 1], h - 1);
    n' := Node(n.elements[child := up], n.children[child := l][child + 1 := r], n.length);
    ReplacePair(n, h, child, l, up, r, n.length);
  }

  /** The sequence, as its users see it. */
  class SequenceTreeInternal<T> {
    var rootNode: Option<Node<T>>
    ghost var height: nat

    ghost predicate Valid()
      reads this
    {
      rootNode.Some? ==> Good(rootNode.value, height) && |rootNode.value.elements| >= 1
    }

    ghost function View(): seq<T>
      reads this
    {
      if rootNode.Some? then Contents(rootNode.value) else []
    }

    constructor ()
      ensures Valid() && View() == []
    {
      rootNode, height := None, 0;
    }

    function Len(): (n: nat)
      requires Valid()
      reads this
      ensures n == |View()|
    {
      if rootNode.Some? then rootNode.value.length else 0
    }

    /** Inserts at a position up to the end. */
    method InsertAt(index: nat, element: T)
      requires Valid() && index <= |View()|
      modifies this
      ensures Valid() && View() == Insert(old(View()), index, element)
    {
      if rootNode.None? {
        rootNode, height := Some(Node([element], [], 1)), 0;
        ContentsOfLeaf(rootNode.value);
      } else if rootNode.value.IsFull() {
        var root := SplitRoot(rootNode.value, index, element, height);
        rootNode, height := Some(root), height + 1;
      } else {
        var root := InsertIntoNonFullNode(rootNode.value, index, element, height);
        rootNode := Some(root);
      }
    }

    method Push(element: T)
      requires Valid()
      modifies this
      ensures Valid() && View() == old(View()) + [element]
    {
      InsertAt(Len(), element);
    }

    method GetAt(index: nat) returns (r: Option<T>)
      requires Valid()
      ensures r == if index < |View()| then Some(View()[index]) else None
    {
      match rootNode {
        case None => r := None;
        case Some(root) => r := Get(root, index, height);
      }
    }

    /** Removes the element at a position; the tree shrinks when its root is left
        without elements. */
    method RemoveAt(index: nat) returns (v: T)
      requires Valid() && index < |View()|
      modifies this
      ensures Valid() && View() == Remove(old(View()), index) && v == old(View())[index]
    {
      var root;
      root, v := RemoveElement(rootNode.value, index, height);
      rootNode := Some(root);
      if root.elements == [] {
        if root.IsLeaf() {
          rootNode := None;
          ContentsOfLeaf(root);
        } else {
          OnlyChild(root, height);
          rootNode, height := Some(root.children[0]), height - 1;
        }
      }
    }
  }

  lemma OnlyChild<T>(root: Node<T>, h: nat)
    requires Good(root, h) && root.elements == [] && root.children != []
    ensures h > 0 && Good(root.children[0], h - 1) && |root.children[0].elements| >= 1
    ensures Contents(root.children[0]) == Contents(root)
  {
    ChildIsGood(root, h, 0);
    ContentsIsWeave(root);
  }

  /** Puts a full root below a new one, splits it, and inserts into the half that
      the position is in. */
  method SplitRoot<T>(oldRoot: Node<T>, index: nat, element: T, ghost h: nat) returns (root: Node<T>)
    requires Good(oldRoot, h) && oldRoot.IsFull() && index <= oldRoot.length
    ensures Good(root, h + 1) && Contents(root) == Insert(Contents(oldRoot), index, element) && |root.elements| == 1
  {
    NewRoot(oldRoot, h);
    root := SplitChild(Node([], [oldRoot], oldRoot.length), 0, h + 1);
    ChildIsGood(root, h + 1, 0);
    ChildIsGood(root, h + 1, 1);
    TwoChildren(root, h + 1);
    var first := root.children[0].length;
    var child, sub := if first < index then 1 else 0, if first < index then index - (first + 1) else index;
    var c := InsertIntoNonFullNode(root.children[child], sub, element, h);
    InsertBelow(root, h + 1, child, c, sub, element, index);
    root := Node(root.elements, root.children[child := c], root.length + 1);
  }

  lemma TwoChildren<T>(n: Node<T>, h: nat)
    requires Good(n, h) && h > 0 && |n.elements| == 1
    ensures Start(n, 0) == 0 && Start(n, 1) == n.children[0].length + 1
    ensures n.length == n.children[0].length + 1 + n.children[1].length
  {
    ChildIsGood(n, h, 0);
    ChildIsGood(n, h, 1);
    ContentsIsWeave(n);
    BeforeStep(Parts(n.children), n.elements, 0);
    WeaveAt(Parts(n.children), n.elements, 1);
    NotLast(Parts(n.children), n.elements, 1);
  }
}
