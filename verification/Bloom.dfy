/**
The Bloom filter a sync message carries: a summary of the changes its sender
has, with no false negatives and arbitrary false positives.
*/
module Bloom {
  import opened Dag

  const BITS_PER_ENTRY := 10
  const NUM_PROBES := 7

  /** `bits` is the byte vector of the filter, one entry per bit. */
  datatype BloomFilter = BloomFilter(numEntries: nat, bits: seq<bool>)

  const EmptyFilter := BloomFilter(0, [])

  function BitsCapacity(numEntries: nat): nat {
    (numEntries * BITS_PER_ENTRY + 7) / 8
  }

  /** Where probe `i` falls before it is wrapped: triple hashing in closed form. */
  function Position(d: Digest, i: nat): nat {
    d.x + i * d.y + i * (i - 1) / 2 * d.z
  }

  /** Probe number `i` of a hash, as a bit index. */
  function Probe(d: Digest, modulo: nat, i: nat): (p: nat)
    requires modulo > 0
    ensures p < modulo
  {
    Position(d, i) % modulo
  }

  /** A filter with entries has bits to probe.  On any other the program divides
      by zero. */
  predicate Usable(b: BloomFilter) {
    b.numEntries != 0 ==> b.bits != []
  }

  /** For usable filters; what it says of others means nothing. */
  function ContainsHash(b: BloomFilter, c: Change): bool {
    b.numEntries != 0 &&
    (|b.bits| == 0 || forall i | 0 <= i < NUM_PROBES :: b.bits[Probe(c.digest, |b.bits|, i)])
  }

  /** The filter over a set of changes, whatever order they are added in. */
  function FilterOf(numEntries: nat, hashes: set<Change>): BloomFilter {
    var modulo := 8 * BitsCapacity(numEntries);
    BloomFilter(numEntries, seq(modulo, p requires 0 <= p < modulo => IsProbed(hashes, modulo, p)))
  }

  predicate IsProbed(hashes: set<Change>, modulo: nat, p: nat)
    requires p < modulo
  {
    exists c | c in hashes :: exists i | 0 <= i < NUM_PROBES :: Probe(c.digest, modulo, i) == p
  }

  lemma FilterIsUsable(numEntries: nat, hashes: set<Change>)
    ensures Usable(FilterOf(numEntries, hashes))
  {
    assert numEntries > 0 ==> BitsCapacity(numEntries) >= 1;
  }

  /** Bits are given in whole bytes, and no more bytes than that takes. */
  lemma WholeBytes(numEntries: nat)
    ensures 10 * numEntries <= 8 * BitsCapacity(numEntries) < 10 * numEntries + 8
    ensures |FilterOf(numEntries, {}).bits| == 8 * BitsCapacity(numEntries)
  {
  }

  /** One of the changes has one of its seven probes there. */
  ghost predicate Met(hashes: set<Change>, modulo: nat, p: nat)
    requires modulo > 0
  {
    exists c, j: nat {:trigger Probe(c.digest, modulo, j)} :: c in hashes && j < 7 && Probe(c.digest, modulo, j) == p
  }

  /** A change is reported as contained exactly if each of its seven probes meets
      one of a change that went in. */
  lemma ContainedExactly(numEntries: nat, hashes: set<Change>, c: Change)
    requires numEntries > 0
    ensures var modulo := |FilterOf(numEntries, hashes).bits|;
            && modulo > 0
            && (ContainsHash(FilterOf(numEntries, hashes), c) <==>
                forall i: nat {:trigger Probe(c.digest, modulo, i)} :: i < 7 ==> Met(hashes, modulo, Probe(c.digest, modulo, i)))
  {
    WholeBytes(numEntries);
    var b := FilterOf(numEntries, hashes);
    var modulo := |b.bits|;
    forall i: nat | i < 7
      ensures b.bits[Probe(c.digest, modulo, i)] == Met(hashes, modulo, Probe(c.digest, modulo, i))
    {
      assert b.bits[Probe(c.digest, modulo, i)] == IsProbed(hashes, modulo, Probe(c.digest, modulo, i));
    }
  }

  /** A change that went in is always reported as contained. */
  lemma NoFalseNegatives(hashes: set<Change>, numEntries: nat, c: Change)
    requires c in hashes && numEntries > 0
    ensures ContainsHash(FilterOf(numEntries, hashes), c)
  {
    var b := FilterOf(numEntries, hashes);
    forall i | 0 <= i < NUM_PROBES
      ensures b.bits[Probe(c.digest, |b.bits|, i)]
    {
      assert IsProbed(hashes, |b.bits|, Probe(c.digest, |b.bits|, i));
    }
  }

  lemma {:induction false} PositiveMultiple(k: int, m: int)
    requires k > 0 && m >= 0
    ensures k * m >= m && (-k) * m == -(k * m)
  {
    if k > 1 {
      PositiveMultiple(k - 1, m);
      assert k * m == (k - 1) * m + m;
    }
  }

  /** Remainders are unique. */
  lemma RemainderIs(a: nat, q: int, r: nat, m: nat)
    requires r < m && a == q * m + r
    ensures a % m == r
  {
    var e := a / m - q;
    assert e * m == r - a % m;
    if e > 0 {
      PositiveMultiple(e, m);
    } else if e < 0 {
      PositiveMultiple(-e, m);
    }
  }

  /** Reducing the summands first does not change the remainder of a sum. */
  lemma ModAdd(a: nat, b: nat, m: nat)
    requires m > 0
    ensures (a % m + b % m) % m == (a + b) % m
  {
    var s := a % m + b % m;
    assert a + b == (a / m + b / m + s / m) * m + s % m;
    RemainderIs(a + b, a / m + b / m + s / m, s % m, m);
  }

  lemma PositionStep(d: Digest, i: nat)
    ensures Position(d, i) + (d.y + i * d.z) == Position(d, i + 1)
  {
    var t := i * (i - 1) / 2;
    assert (i + 1) * i == i * (i - 1) + 2 * i;
    assert (i + 1) * i / 2 == t + i;
    assert (t + i) * d.z == t * d.z + i * d.z;
    assert (i + 1) * d.y == i * d.y + d.y;
  }

  /** The probe loop adds up the three words; it arrives at the closed form. */
  method GetProbes(d: Digest, modulo: nat) returns (probes: seq<nat>)
    requires modulo > 0
    ensures |probes| == NUM_PROBES
    ensures forall i :: 0 <= i < NUM_PROBES ==> probes[i] == Probe(d, modulo, i)
  {
    var x, y, z := d.x % modulo, d.y % modulo, d.z % modulo;
    probes := [x];
    for k := 1 to NUM_PROBES
      invariant |probes| == k
      invariant x == Probe(d, modulo, k - 1) && y == (d.y + (k - 1) * d.z) % modulo
      invariant forall i :: 0 <= i < k ==> probes[i] == Probe(d, modulo, i)
    {
      x, y := ProbeStep(d, modulo, k - 1, x, y, z);
      probes := probes + [x];
    }
  }

  method ProbeStep(d: Digest, modulo: nat, ghost i: nat, x: nat, y: nat, z: nat) returns (x': nat, y': nat)
    requires modulo > 0
    requires x == Probe(d, modulo, i) && y == (d.y + i * d.z) % modulo && z == d.z % modulo
    ensures x' == Probe(d, modulo, i + 1) && y' == (d.y + (i + 1) * d.z) % modulo
  {
    PositionStep(d, i);
    ModAdd(Position(d, i), d.y + i * d.z, modulo);
    ModAdd(d.y + i * d.z, d.z, modulo);
    assert (i + 1) * d.z == i * d.z + d.z;
    x' := (x + y) % modulo;
    y' := (y + z) % modulo;
  }

  /** Builds the filter one probe at a time. */
  method FromHashes(hashes: seq<Change>) returns (b: BloomFilter)
    ensures b == FilterOf(|hashes|, Elements(hashes))
  {
    var modulo := 8 * BitsCapacity(|hashes|);
    var bits := seq(modulo, _ => false);
    for n := 0 to |hashes|
      invariant |bits| == modulo
      invariant forall p :: 0 <= p < modulo ==> bits[p] == IsProbed(Elements(hashes[..n]), modulo, p)
    {
      ghost var before := Elements(hashes[..n]);
      ghost var start := bits;
      var probes := GetProbes(hashes[n].digest, modulo);
      for k := 0 to NUM_PROBES
        invariant |bits| == modulo
        invariant forall p :: 0 <= p < modulo ==> (bits[p] <==> start[p] || p in probes[..k])
      {
        bits := bits[probes[k] := true];
      }
      assert Elements(hashes[..n + 1]) == before + {hashes[n]};
      assert probes[..NUM_PROBES] == probes;
    }
    assert hashes[..|hashes|] == hashes;
    b := BloomFilter(|hashes|, bits);
  }
}
