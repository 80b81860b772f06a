/**
Sequences woven together: the parts of a list with single elements between
them.  This is how a node of a sequence tree holds the contents of its children
and its own elements.
*/
module Weaving {
  /** Part, element, part, ..., part; without parts, just the elements. */
  function Weave<T>(parts: seq<seq<T>>, between: seq<T>): seq<T> {
    if parts == [] then between
    else if between == [] then parts[0]
    else parts[0] + [between[0]] + Weave(parts[1..], between[1..])
  }

  /** What comes before part i, and after it. */
  function Before<T>(parts: seq<seq<T>>, between: seq<T>, i: nat): seq<T>
    requires i < |parts| == |between| + 1
  {
    if i == 0 then [] else parts[0] + [between[0]] + Before(parts[1..], between[1..], i - 1)
  }

  function After<T>(parts: seq<seq<T>>, between: seq<T>, i: nat): seq<T>
    requires i < |parts| == |between| + 1
  {
    if i > 0 then After(parts[1..], between[1..], i - 1)
    else if between == [] then []
    else [between[0]] + Weave(parts[1..], between[1..])
  }

  lemma {:induction false} WeaveAt<T>(parts: seq<seq<T>>, between: seq<T>, i: nat)
    requires i < |parts| == |between| + 1
    ensures Weave(parts, between) == Before(parts, between, i) + parts[i] + After(parts, between, i)
  {
    if i > 0 {
      WeaveAt(parts[1..], between[1..], i - 1);
    }
  }

  /** Replacing one part leaves what is around it. */
  lemma {:induction false} WeaveUpdate<T>(parts: seq<seq<T>>, between: seq<T>, i: nat, part: seq<T>)
    requires i < |parts| == |between| + 1
    ensures Weave(parts[i := part], between) == Before(parts, between, i) + part + After(parts, between, i)
  {
    var parts' := parts[i := part];
    if i > 0 {
      assert parts'[1..] == parts[1..][i - 1 := part];
      WeaveUpdate(parts[1..], between[1..], i - 1, part);
    } else {
      assert parts'[1..] == parts[1..];
    }
  }

  function Cut<T>(s: seq<T>, i: nat, l: T, r: T): seq<T>
    requires i < |s|
  {
    s[..i] + [l, r] + s[i + 1..]
  }

  function Insert<T>(s: seq<T>, i: nat, x: T): seq<T>
    requires i <= |s|
  {
    s[..i] + [x] + s[i..]
  }

  function Remove<T>(s: seq<T>, i: nat): seq<T>
    requires i < |s|
  {
    s[..i] + s[i + 1..]
  }

  /** A part may be cut at an element that moves up; and so two parts joined. */
  lemma {:induction false} WeaveCut<T>(parts: seq<seq<T>>, between: seq<T>, i: nat, l: seq<T>, m: T, r: seq<T>)
    requires i < |parts| == |between| + 1 && parts[i] == l + [m] + r
    ensures Weave(Cut(parts, i, l, r), Insert(between, i, m)) == Weave(parts, between)
  {
    var parts', between' := Cut(parts, i, l, r), Insert(between, i, m);
    if i > 0 {
      assert parts'[1..] == Cut(parts[1..], i - 1, l, r);
      assert between'[1..] == Insert(between[1..], i - 1, m);
      WeaveCut(parts[1..], between[1..], i - 1, l, m, r);
    } else {
      assert parts'[1..] == [r] + parts[1..] && between'[1..] == between;
      assert ([r] + parts[1..])[1..] == parts[1..];
    }
  }

  /** Replacing two neighbouring parts and the element between them. */
  lemma {:induction false} WeaveReplace<T>(parts: seq<seq<T>>, between: seq<T>, i: nat, l: seq<T>, m: T, r: seq<T>)
    requires i + 1 < |parts| == |between| + 1
    ensures Weave(parts[i := l][i + 1 := r], between[i := m])
         == Before(parts, between, i) + (l + [m] + r) + After(parts, between, i + 1)
  {
    var parts', between' := parts[i := l][i + 1 := r], between[i := m];
    if i > 0 {
      assert parts'[1..] == parts[1..][i - 1 := l][i := r];
      assert between'[1..] == between[1..][i - 1 := m];
      WeaveReplace(parts[1..], between[1..], i - 1, l, m, r);
    } else {
      assert parts'[1..] == [r] + parts[2..] && between'[1..] == between[1..];
      WeaveFirst(r, parts[2..], between[1..]);
    }
  }

  lemma {:induction false} WeaveConcat<T>(parts: seq<seq<T>>, between: seq<T>, m: T, parts': seq<seq<T>>, between': seq<T>)
    requires |parts| == |between| + 1 && |parts'| == |between'| + 1
    ensures Weave(parts + parts', between + [m] + between') == Weave(parts, between) + [m] + Weave(parts', between')
  {
    var ps, bs := parts + parts', between + [m] + between';
    assert bs[0] == if between == [] then m else between[0];
    if between == [] {
      assert ps[1..] == parts' && bs[1..] == between';
    } else {
      assert ps[1..] == parts[1..] + parts' && bs[1..] == between[1..] + [m] + between';
      WeaveConcat(parts[1..], between[1..], m, parts', between');
    }
  }

  lemma WeaveFirst<T>(part: seq<T>, parts: seq<seq<T>>, between: seq<T>)
    ensures Weave([part] + parts, between) == part + (if between == [] then [] else [between[0]] + Weave(parts, between[1..]))
  {
    assert ([part] + parts)[1..] == parts;
  }

  function TotalLength<T>(parts: seq<seq<T>>): nat {
    if parts == [] then 0 else |parts[0]| + TotalLength(parts[1..])
  }

  lemma {:induction false} WeaveLength<T>(parts: seq<seq<T>>, between: seq<T>)
    requires parts == [] || |parts| == |between| + 1
    ensures |Weave(parts, between)| == TotalLength(parts) + |between|
  {
    if parts != [] {
      if between != [] {
        WeaveLength(parts[1..], between[1..]);
      } else {
        assert parts[1..] == [];
      }
    }
  }

  lemma {:induction false} BeforeStep<T>(parts: seq<seq<T>>, between: seq<T>, i: nat)
    requires i + 1 < |parts| == |between| + 1
    ensures Before(parts, between, i + 1) == Before(parts, between, i) + parts[i] + [between[i]]
    ensures After(parts, between, i) == [between[i]] + parts[i + 1] + After(parts, between, i + 1)
  {
    if i > 0 {
      BeforeStep(parts[1..], between[1..], i - 1);
    } else {
      WeaveAt(parts[1..], between[1..], 0);
    }
  }

  lemma {:induction false} BeforeCut<T>(parts: seq<seq<T>>, between: seq<T>, i: nat, l: seq<T>, m: T, r: seq<T>)
    requires i < |parts| == |between| + 1
    ensures Before(Cut(parts, i, l, r), Insert(between, i, m), i) == Before(parts, between, i)
    ensures After(Cut(parts, i, l, r), Insert(between, i, m), i + 1) == After(parts, between, i)
  {
    var parts', between' := Cut(parts, i, l, r), Insert(between, i, m);
    if i > 0 {
      assert parts'[1..] == Cut(parts[1..], i - 1, l, r);
      assert between'[1..] == Insert(between[1..], i - 1, m);
      BeforeCut(parts[1..], between[1..], i - 1, l, m, r);
    } else {
      assert parts'[1..] == [r] + parts[1..] && between'[1..] == between;
      assert ([r] + parts[1..])[1..] == parts[1..];
    }
  }

  /** Part j ends before part k starts. */
  lemma {:induction false} BeforeMonotone<T>(parts: seq<seq<T>>, between: seq<T>, j: nat, k: nat)
    requires j < k < |parts| == |between| + 1
    ensures |Before(parts, between, j)| + |parts[j]| < |Before(parts, between, k)|
  {
    BeforeStep(parts, between, k - 1);
    if j < k - 1 {
      BeforeMonotone(parts, between, j, k - 1);
    }
  }

  lemma {:induction false} PartWithin<T>(parts: seq<seq<T>>, between: seq<T>, i: nat)
    requires i < |parts| == |between| + 1
    ensures |parts[i]| + |between| <= |Weave(parts, between)|
  {
    if i > 0 {
      PartWithin(parts[1..], between[1..], i - 1);
    } else {
      WeaveLength(parts, between);
    }
  }

  lemma {:induction false} BeforePrefix<T>(parts: seq<seq<T>>, between: seq<T>, parts': seq<seq<T>>, between': seq<T>, i: nat)
    requires i < |parts| == |between| + 1 && |parts'| == |between'| + 1 && |parts'| == |parts|
    requires parts'[..i] == parts[..i] && between'[..i] == between[..i]
    ensures Before(parts', between', i) == Before(parts, between, i)
  {
    if i > 0 {
      assert parts'[0] == parts'[..i][0] && parts[0] == parts[..i][0];
      assert between'[0] == between'[..i][0] && between[0] == between[..i][0];
      assert parts'[1..][..i - 1] == parts'[..i][1..] && parts[1..][..i - 1] == parts[..i][1..];
      assert between'[1..][..i - 1] == between'[..i][1..] && between[1..][..i - 1] == between[..i][1..];
      BeforePrefix(parts[1..], between[1..], parts'[1..], between'[1..], i - 1);
    }
  }
}
