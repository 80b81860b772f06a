/**
Alternating runs: a sequence of booleans as the lengths of its runs, the first
of which is a run of false and may be empty.
*/
module RunLengths {
  import opened Wrappers

  type Runs = seq<nat>

  /** The values of runs that start with v. */
  function Decode(runs: Runs, v: bool): seq<bool> {
    if runs == [] then [] else Repeat(v, runs[0]) + Decode(runs[1..], !v)
  }

  /** The value of the run that comes after. */
  function After(runs: Runs, v: bool): bool {
    if runs == [] then v else After(runs[1..], !v)
  }

  function CountTrue(s: seq<bool>): nat {
    if s == [] then 0 else (if s[0] then 1 else 0) + CountTrue(s[1..])
  }

  /** Only the first run may be empty. */
  predicate Alternating(runs: Runs) {
    forall i | 0 < i < |runs| :: runs[i] > 0
  }

  function Bits(n: nat): nat {
    if n == 0 then 0 else 1 + Bits(n / 2)
  }

  /** The bytes that a number takes in unsigned LEB128. */
  function UlebSize(n: nat): (size: nat)
    ensures size >= 1
  {
    if n == 0 then 1 else (Bits(n) + 6) / 7
  }

  lemma {:induction false} BitsGrow(m: nat, n: nat)
    requires m <= n
    ensures Bits(m) <= Bits(n)
  {
    if m > 0 {
      BitsGrow(m / 2, n / 2);
    }
  }

  lemma UlebGrows(m: nat, n: nat)
    requires m <= n
    ensures UlebSize(m) <= UlebSize(n)
  {
    BitsGrow(m, n);
  }

  /** The bytes of some runs. */
  function Width(runs: Runs): nat {
    if runs == [] then 0 else UlebSize(runs[0]) + Width(runs[1..])
  }

  lemma {:induction false} WidthConcat(a: Runs, b: Runs)
    ensures Width(a + b) == Width(a) + Width(b)
  {
    if a == [] {
      assert a + b == b;
    } else {
      assert (a + b)[1..] == a[1..] + b;
      WidthConcat(a[1..], b);
    }
  }

  lemma WidthSplit(runs: Runs, k: nat)
    requires k <= |runs|
    ensures Width(runs) == Width(runs[..k]) + Width(runs[k..])
    ensures k > 0 ==> Width(runs[..k]) > 0
  {
    WidthConcat(runs[..k], runs[k..]);
    assert runs == runs[..k] + runs[k..];
  }

  /** Runs without values are no run, or the empty one at the start. */
  lemma NothingDecoded(runs: Runs)
    requires Alternating(runs) && Decode(runs, false) == []
    ensures runs == [] || runs == [0]
    ensures Width(runs) == |runs|
  {
    if runs != [] {
      TwoRuns(runs);
      if |runs| == 1 {
        assert runs[1..] == [];
      }
    }
  }

  lemma TwoRuns(runs: Runs)
    requires runs != []
    ensures |Decode(runs, false)| >= runs[0] + if |runs| > 1 then runs[1] else 0
  {
  }

  /** The first n values end with a run, and a run of true comes next. */
  predicate Boundary(runs: Runs, k: nat, n: nat) {
    k <= |runs| && After(runs[..k], false) && |Decode(runs[..k], false)| == n
  }

  /** Around a boundary the value changes. */
  lemma BoundaryTurns(runs: Runs, k: nat, n: nat)
    requires Alternating(runs) && Boundary(runs, k, n) && n > 0
    ensures n <= |Decode(runs, false)| && !Decode(runs, false)[n - 1]
    ensures k < |runs| <==> n < |Decode(runs, false)|
    ensures k < |runs| ==> Decode(runs, false)[n]
  {
    RunAt(runs, k - 1, false);
    RunsFrom(runs, k, false);
    if k < |runs| {
      assert runs[k..][0] == runs[k] > 0;
    }
    if k - 1 == 0 {
      assert runs[..0] == [];
    }
  }

  lemma OneBoundary(runs: Runs, j: nat, k: nat, n: nat)
    requires Alternating(runs) && Boundary(runs, j, n) && Boundary(runs, k, n) && n > 0
    ensures j == k
  {
    if j < k {
      BoundaryGrows(runs, j, k);
    } else if k < j {
      BoundaryGrows(runs, k, j);
    }
  }

  lemma {:induction false} BoundaryGrows(runs: Runs, j: nat, k: nat)
    requires Alternating(runs) && 0 < j < k <= |runs|
    ensures |Decode(runs[..j], false)| < |Decode(runs[..k], false)|
  {
    RunAt(runs, k - 1, false);
    if j < k - 1 {
      BoundaryGrows(runs, j, k - 1);
    }
  }

  lemma {:induction false} DecodeConcat(a: Runs, b: Runs, v: bool)
    ensures Decode(a + b, v) == Decode(a, v) + Decode(b, After(a, v))
    ensures After(a + b, v) == After(b, After(a, v))
  {
    if a == [] {
      assert a + b == b;
    } else {
      assert (a + b)[1..] == a[1..] + b;
      DecodeConcat(a[1..], b, !v);
    }
  }

  lemma DecodeOne(n: nat, v: bool)
    ensures Decode([n], v) == Repeat(v, n) && After([n], v) == !v
  {
    assert [n][1..] == [];
  }

  lemma {:induction false} CountConcat(a: seq<bool>, b: seq<bool>)
    ensures CountTrue(a + b) == CountTrue(a) + CountTrue(b)
  {
    if a == [] {
      assert a + b == b;
    } else {
      assert (a + b)[1..] == a[1..] + b;
      CountConcat(a[1..], b);
    }
  }

  lemma {:induction false} CountRepeat(v: bool, n: nat)
    ensures CountTrue(Repeat(v, n)) == if v then n else 0
  {
    if n > 0 {
      assert Repeat(v, n)[1..] == Repeat(v, n - 1);
      CountRepeat(v, n - 1);
    }
  }

  lemma RepeatMore(v: bool, m: nat, n: nat)
    ensures Repeat(v, m) + Repeat(v, n) == Repeat(v, m + n)
  {
  }

  /** The run at position k of the runs, and what is left of them. */
  lemma RunAt(runs: Runs, k: nat, v: bool)
    requires k < |runs|
    ensures Decode(runs, v) == Decode(runs[..k], v) + Repeat(After(runs[..k], v), runs[k]) + Decode(runs[k + 1..], !After(runs[..k], v))
    ensures Decode(runs[..k + 1], v) == Decode(runs[..k], v) + Repeat(After(runs[..k], v), runs[k])
    ensures After(runs[..k + 1], v) == !After(runs[..k], v)
  {
    DecodeConcat(runs[..k], [runs[k]], v);
    DecodeOne(runs[k], After(runs[..k], v));
    assert runs[..k + 1] == runs[..k] + [runs[k]];
    DecodeConcat(runs[..k + 1], runs[k + 1..], v);
    assert runs == runs[..k + 1] + runs[k + 1..];
  }

  lemma RunsFrom(runs: Runs, k: nat, v: bool)
    requires k <= |runs|
    ensures Decode(runs, v) == Decode(runs[..k], v) + Decode(runs[k..], After(runs[..k], v))
  {
    DecodeConcat(runs[..k], runs[k..], v);
    assert runs == runs[..k] + runs[k..];
  }
}
