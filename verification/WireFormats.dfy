/**
The byte and text forms of sync messages, cursors and external object ids, over
unsigned LEB128 numbers.
*/
module WireFormats {
  import opened Wrappers
  import opened Dag
  import opened Actors
  import Bloom
  import RunLengths

  type U32 = n: nat | n < 0x1_0000_0000
  type U64 = n: nat | n < 0x1_0000_0000_0000_0000

  type Hash = h: seq<Byte> | |h| == 32 witness seq(32, _ => 0)

  datatype ParseError = Incomplete | TooLarge | Overlong | WrongType(found: Byte)

  /** What is left of the input, and the value that was taken from it. */
  datatype Parsed<+T> = Parsed(input: seq<Byte>, value: T)

  type Parser<T> = seq<Byte> -> Result<Parsed<T>, ParseError>

  function Take1(input: seq<Byte>): Result<Parsed<Byte>, ParseError> {
    if input == [] then Err(Incomplete) else Ok(Parsed(input[1..], input[0]))
  }

  function TakeN(n: nat, input: seq<Byte>): Result<Parsed<seq<Byte>>, ParseError> {
    if |input| < n then Err(Incomplete) else Ok(Parsed(input[n..], input[..n]))
  }

  lemma TakeNReadsBack(bytes: seq<Byte>, rest: seq<Byte>)
    ensures TakeN(|bytes|, bytes + rest) == Ok(Parsed(rest, bytes))
  {
    assert (bytes + rest)[|bytes|..] == rest && (bytes + rest)[..|bytes|] == bytes;
  }

  // Numbers.

  /** A number of at most 64 bits in its shortest form; `i` bytes of it were
      taken before. */
  function TakeLeb128(input: seq<Byte>, i: nat): Result<Parsed<nat>, ParseError> {
    if input == [] then Err(Incomplete)
    else if input[0] < 128 then
      if i >= 9 && input[0] > 1 then Err(TooLarge)
      else if i > 0 && input[0] == 0 then Err(Overlong)
      else Ok(Parsed(input[1..], input[0]))
    else if i >= 9 then Err(TooLarge)
    else
      var high :- TakeLeb128(input[1..], i + 1);
      Ok(Parsed(high.input, 128 * high.value + input[0] - 128))
  }

  /** The numbers that fit behind `i` bytes. */
  function Limit(i: nat): (limit: nat)
    requires i <= 9
    ensures limit > 0
    decreases 9 - i
  {
    if i == 9 then 2 else 128 * Limit(i + 1)
  }

  lemma {:induction false} EncodedIsTaken(n: nat, i: nat, rest: seq<Byte>)
    requires i <= 9 && n < Limit(i) && (i > 0 ==> n > 0)
    ensures TakeLeb128(Leb128(n) + rest, i) == Ok(Parsed(rest, n))
  {
    if n >= 128 {
      var low: seq<Byte> := [n % 128 + 128];
      assert (low + Leb128(n / 128) + rest)[1..] == Leb128(n / 128) + rest;
      EncodedIsTaken(n / 128, i + 1, rest);
    } else {
      assert ([n] + rest)[1..] == rest;
    }
  }

  lemma {:induction false} TakenWasEncoded(input: seq<Byte>, i: nat)
    requires i <= 9 && TakeLeb128(input, i).Ok?
    ensures var p := TakeLeb128(input, i).value;
            input == Leb128(p.value) + p.input && p.value < Limit(i) && (i > 0 ==> p.value > 0)
  {
    if input[0] >= 128 {
      TakenWasEncoded(input[1..], i + 1);
      var high := TakeLeb128(input[1..], i + 1).value;
      assert (128 * high.value + input[0] - 128) / 128 == high.value;
      assert input == [input[0]] + (Leb128(high.value) + high.input);
    } else {
      assert i < 9 ==> Limit(i) == 128 * Limit(i + 1);
    }
  }

  lemma LimitIs64Bits()
    ensures Limit(0) == 0x1_0000_0000_0000_0000
  {
    assert Limit(5) == 128 * (128 * (128 * (128 * Limit(9))));
    assert Limit(1) == 128 * (128 * (128 * (128 * Limit(5))));
  }

  /** A number is taken from exactly the inputs that start with its encoding. */
  lemma Leb128Exact(input: seq<Byte>, n: U64, rest: seq<Byte>)
    ensures TakeLeb128(input, 0) == Ok(Parsed(rest, n)) <==> input == Leb128(n) + rest
  {
    LimitIs64Bits();
    if input == Leb128(n) + rest {
      EncodedIsTaken(n, 0, rest);
    }
    if TakeLeb128(input, 0).Ok? {
      TakenWasEncoded(input, 0);
    }
  }

  lemma BitsShifted(n: nat)
    requires n >= 128
    ensures RunLengths.Bits(n) == 7 + RunLengths.Bits(n / 128)
  {
    var half, eighth := n / 2, n / 8;
    assert RunLengths.Bits(n) == 1 + RunLengths.Bits(half) && half / 2 / 2 == eighth;
    assert RunLengths.Bits(half) == 2 + RunLengths.Bits(eighth);
    assert RunLengths.Bits(eighth) == 2 + RunLengths.Bits(eighth / 2 / 2) && eighth / 2 / 2 == n / 32;
    assert RunLengths.Bits(n / 32) == 2 + RunLengths.Bits(n / 32 / 2 / 2) && n / 32 / 2 / 2 == n / 128;
  }

  /** The size that is computed from the leading zeros is that of the encoding. */
  lemma {:induction false} UlebSizeIsLength(n: nat)
    ensures RunLengths.UlebSize(n) == |Leb128(n)|
  {
    if n >= 128 {
      UlebSizeIsLength(n / 128);
      BitsShifted(n);
    } else {
      assert Power2(7) == 128;
      SmallBits(n, 7);
    }
  }

  function Power2(k: nat): nat {
    if k == 0 then 1 else 2 * Power2(k - 1)
  }

  lemma {:induction false} SmallBits(n: nat, k: nat)
    requires n < Power2(k)
    ensures RunLengths.Bits(n) <= k
  {
    if n > 0 {
      SmallBits(n / 2, k - 1);
    }
  }

  function TakeU32(input: seq<Byte>): Result<Parsed<U32>, ParseError> {
    var p :- TakeLeb128(input, 0);
    if p.value < 0x1_0000_0000 then Ok(Parsed(p.input, p.value)) else Err(TooLarge)
  }

  lemma U32IsTaken(n: U32, rest: seq<Byte>)
    ensures TakeU32(Leb128(n) + rest) == Ok(Parsed(rest, n))
  {
    Leb128Exact(Leb128(n) + rest, n, rest);
  }

  // Sequences.

  function EncodeEach<T>(xs: seq<T>, encode: T -> seq<Byte>): seq<Byte> {
    if xs == [] then [] else encode(xs[0]) + EncodeEach(xs[1..], encode)
  }

  function EncodeMany<T>(xs: seq<T>, encode: T -> seq<Byte>): seq<Byte> {
    Leb128(|xs|) + EncodeEach(xs, encode)
  }

  function TakeEach<T>(count: nat, parse: Parser<T>, input: seq<Byte>): Result<Parsed<seq<T>>, ParseError> {
    if count == 0 then Ok(Parsed(input, []))
    else
      var first :- parse(input);
      var others :- TakeEach(count - 1, parse, first.input);
      Ok(Parsed(others.input, [first.value] + others.value))
  }

  function TakeMany<T>(parse: Parser<T>, input: seq<Byte>): Result<Parsed<seq<T>>, ParseError> {
    var count :- TakeLeb128(input, 0);
    TakeEach(count.value, parse, count.input)
  }

  function TakeBytes(input: seq<Byte>): Result<Parsed<seq<Byte>>, ParseError> {
    var length :- TakeLeb128(input, 0);
    TakeN(length.value, length.input)
  }

  function EncodeBytes(bytes: seq<Byte>): seq<Byte> {
    Leb128(|bytes|) + bytes
  }

  /** The bytes are read back as a value, whatever follows them. */
  ghost predicate ReadAs<T>(bytes: seq<Byte>, parse: Parser<T>, value: T) {
    forall rest :: parse(bytes + rest) == Ok(Parsed(rest, value))
  }

  /** A first element and then the others, as they are read. */
  lemma ThenEach<T>(count: nat, parse: Parser<T>, input: seq<Byte>, tail: seq<Byte>, x: T, others: seq<T>, rest: seq<Byte>)
    requires parse(input) == Ok(Parsed(tail, x)) && TakeEach(count, parse, tail) == Ok(Parsed(rest, others))
    ensures TakeEach(count + 1, parse, input) == Ok(Parsed(rest, [x] + others))
  {
  }

  lemma {:induction false} EachIsRead<T>(xs: seq<T>, encode: T -> seq<Byte>, parse: Parser<T>, ys: seq<T>, rest: seq<Byte>)
    requires |ys| == |xs|
    requires forall i :: 0 <= i < |xs| ==> ReadAs(encode(xs[i]), parse, ys[i])
    ensures TakeEach(|xs|, parse, EncodeEach(xs, encode) + rest) == Ok(Parsed(rest, ys))
  {
    if xs == [] {
      assert EncodeEach(xs, encode) + rest == rest && ys == [];
    } else {
      var tail := EncodeEach(xs[1..], encode) + rest;
      EachIsRead(xs[1..], encode, parse, ys[1..], rest);
      assert EncodeEach(xs, encode) + rest == encode(xs[0]) + tail;
      ThenEach(|xs| - 1, parse, encode(xs[0]) + tail, tail, ys[0], ys[1..], rest);
      assert ys == [ys[0]] + ys[1..];
    }
  }

  lemma ManyIsRead<T>(xs: seq<T>, encode: T -> seq<Byte>, parse: Parser<T>, ys: seq<T>, rest: seq<Byte>)
    requires |ys| == |xs| < 0x1_0000_0000_0000_0000
    requires forall i :: 0 <= i < |xs| ==> ReadAs(encode(xs[i]), parse, ys[i])
    ensures TakeMany(parse, EncodeMany(xs, encode) + rest) == Ok(Parsed(rest, ys))
  {
    var tail := EncodeEach(xs, encode) + rest;
    assert EncodeMany(xs, encode) + rest == Leb128(|xs|) + tail;
    Leb128Exact(Leb128(|xs|) + tail, |xs|, tail);
    EachIsRead(xs, encode, parse, ys, rest);
  }

  lemma BytesAreRead(bytes: seq<Byte>, rest: seq<Byte>)
    requires |bytes| < 0x1_0000_0000_0000_0000
    ensures TakeBytes(EncodeBytes(bytes) + rest) == Ok(Parsed(rest, bytes))
  {
    assert EncodeBytes(bytes) + rest == Leb128(|bytes|) + (bytes + rest);
    Leb128Exact(Leb128(|bytes|) + (bytes + rest), |bytes|, bytes + rest);
    TakeNReadsBack(bytes, rest);
  }

  /** Every element that was parsed has what the parser promises. */
  lemma {:induction false} EachHas<T>(count: nat, parse: Parser<T>, input: seq<Byte>, holds: T -> bool)
    requires forall i :: parse(i).Ok? ==> holds(parse(i).value.value)
    requires TakeEach(count, parse, input).Ok?
    ensures forall x <- TakeEach(count, parse, input).value.value :: holds(x)
  {
    if count > 0 {
      EachHas(count - 1, parse, parse(input).value.input, holds);
    }
  }

  // Sync messages.

  function EncodeHash(hash: Hash): seq<Byte> {
    hash
  }

  function TakeHash(input: seq<Byte>): Result<Parsed<Hash>, ParseError> {
    if |input| < 32 then Err(Incomplete) else Ok(Parsed(input[32..], input[..32]))
  }

  /** A Bloom filter as it travels: its parameters go with it. */
  datatype Filter = Filter(numEntries: U32, bitsPerEntry: U32, numProbes: U32, bits: seq<Byte>)

  const DefaultFilter := Filter(0, Bloom.BITS_PER_ENTRY, Bloom.NUM_PROBES, [])

  function BytesFor(numEntries: nat, bitsPerEntry: nat): nat {
    (numEntries * bitsPerEntry + 7) / 8
  }

  function EncodeFilter(f: Filter): seq<Byte> {
    if f.numEntries == 0 then []
    else Leb128(f.numEntries) + (Leb128(f.bitsPerEntry) + (Leb128(f.numProbes) + f.bits))
  }

  function TakeFilter(input: seq<Byte>): Result<Parsed<Filter>, ParseError> {
    if input == [] then Ok(Parsed(input, DefaultFilter))
    else
      var entries :- TakeU32(input);
      var perEntry :- TakeU32(entries.input);
      var probes :- TakeU32(perEntry.input);
      var bits :- TakeN(BytesFor(entries.value, perEntry.value), probes.input);
      Ok(Parsed(bits.input, Filter(entries.value, perEntry.value, probes.value, bits.value)))
  }

  datatype Have = Have(lastSync: seq<Hash>, bloom: Filter)

  function EncodeHave(h: Have): seq<Byte> {
    EncodeMany(h.lastSync, EncodeHash) + EncodeBytes(EncodeFilter(h.bloom))
  }

  /** Bytes behind the filter, inside its length, are ignored. */
  function TakeHave(input: seq<Byte>): Result<Parsed<Have>, ParseError> {
    var lastSync :- TakeMany(TakeHash, input);
    var bytes :- TakeBytes(lastSync.input);
    var bloom :- TakeFilter(bytes.value);
    Ok(Parsed(bytes.input, Have(lastSync.value, bloom.value)))
  }

  datatype Capability = MessageV1 | MessageV2 | Unknown(code: Byte)

  function EncodeCapability(c: Capability): seq<Byte> {
    match c
    case MessageV1 => [0x01]
    case MessageV2 => [0x02]
    case Unknown(code) => [code]
  }

  function TakeCapability(input: seq<Byte>): Result<Parsed<Capability>, ParseError> {
    var p :- Take1(input);
    Ok(Parsed(p.input,
      if p.value == 0x01 then MessageV1 else if p.value == 0x02 then MessageV2 else Unknown(p.value)))
  }

  datatype Version = V1 | V2

  const MESSAGE_TYPE_SYNC: Byte := 0x42
  const MESSAGE_TYPE_SYNC_V2: Byte := 0x43

  function EncodeVersion(v: Version): seq<Byte> {
    if v.V1? then [MESSAGE_TYPE_SYNC] else [MESSAGE_TYPE_SYNC_V2]
  }

  function TakeVersion(input: seq<Byte>): Result<Parsed<Version>, ParseError> {
    var p :- Take1(input);
    if p.value == MESSAGE_TYPE_SYNC then Ok(Parsed(p.input, V1))
    else if p.value == MESSAGE_TYPE_SYNC_V2 then Ok(Parsed(p.input, V2))
    else Err(WrongType(p.value))
  }

  datatype Message = Message(
    heads: seq<Hash>, need: seq<Hash>, have: seq<Have>, changes: seq<seq<Byte>>,
    capabilities: Option<seq<Capability>>, version: Version)

  function EncodeMessage(m: Message): seq<Byte> {
    EncodeVersion(m.version) + (EncodeMany(m.heads, EncodeHash) + (EncodeMany(m.need, EncodeHash) +
      (EncodeMany(m.have, EncodeHave) + (EncodeMany(m.changes, EncodeBytes) + EncodeCapabilities(m.capabilities)))))
  }

  function EncodeCapabilities(c: Option<seq<Capability>>): seq<Byte> {
    if c.Some? then EncodeMany(c.value, EncodeCapability) else []
  }

  function TakeMessage(input: seq<Byte>): Result<Parsed<Message>, ParseError> {
    var version :- TakeVersion(input);
    var heads :- TakeMany(TakeHash, version.input);
    var need :- TakeMany(TakeHash, heads.input);
    var have :- TakeMany(TakeHave, need.input);
    var changes :- TakeMany(TakeBytes, have.input);
    var capabilities :- TakeCapabilities(changes.input);
    Ok(Parsed(capabilities.input,
      Message(heads.value, need.value, have.value, changes.value, capabilities.value, version.value)))
  }

  /** Peers of the first version send no capabilities. */
  function TakeCapabilities(input: seq<Byte>): Result<Parsed<Option<seq<Capability>>>, ParseError> {
    if input == [] then Ok(Parsed(input, None))
    else
      var p :- TakeMany(TakeCapability, input);
      Ok(Parsed(p.input, Some(p.value)))
  }

  // Encoding pushes onto a buffer.

  lemma {:induction false} EncodeEachMore<T>(xs: seq<T>, x: T, encode: T -> seq<Byte>)
    ensures EncodeEach(xs + [x], encode) == EncodeEach(xs, encode) + encode(x)
  {
    if xs == [] {
      assert xs + [x] == [x] && [x][1..] == [];
    } else {
      EncodeEachMore(xs[1..], x, encode);
      assert (xs + [x])[1..] == xs[1..] + [x];
    }
  }

  method PushMany<T>(buf: seq<Byte>, xs: seq<T>, encode: T -> seq<Byte>) returns (out: seq<Byte>)
    ensures out == buf + EncodeMany(xs, encode)
  {
    out := buf + Leb128(|xs|);
    for i := 0 to |xs|
      invariant out == buf + (Leb128(|xs|) + EncodeEach(xs[..i], encode))
    {
      EncodeEachMore(xs[..i], xs[i], encode);
      assert xs[..i + 1] == xs[..i] + [xs[i]];
      out := out + encode(xs[i]);
    }
    assert xs[..|xs|] == xs;
  }

  method Encode(m: Message) returns (buf: seq<Byte>)
    ensures buf == EncodeMessage(m)
  {
    buf := EncodeVersion(m.version);
    buf := PushMany(buf, m.heads, EncodeHash);
    buf := PushMany(buf, m.need, EncodeHash);
    buf := PushMany(buf, m.have, EncodeHave);
    buf := PushMany(buf, m.changes, EncodeBytes);
    if m.capabilities.Some? {
      assert EncodeCapabilities(m.capabilities) != [];
      buf := PushMany(buf, m.capabilities.value, EncodeCapability);
    }
    InOrder(EncodeVersion(m.version), EncodeMany(m.heads, EncodeHash), EncodeMany(m.need, EncodeHash),
            EncodeMany(m.have, EncodeHave), EncodeMany(m.changes, EncodeBytes), EncodeCapabilities(m.capabilities));
  }

  lemma InOrder(a: seq<Byte>, b: seq<Byte>, c: seq<Byte>, d: seq<Byte>, e: seq<Byte>, f: seq<Byte>)
    ensures a + (b + (c + (d + (e + f)))) == if f == [] then a + b + c + d + e else a + b + c + d + e + f
  {
    var de, bcde := d + e, b + c + d + e;
    assert d + (e + f) == de + f && b + (c + (de + f)) == bcde + f;
    assert a + (bcde + f) == a + bcde + f && a + bcde == a + b + c + d + e;
  }

  /** A vector's length is at most isize::MAX. */
  predicate IsVec<T>(s: seq<T>) {
    |s| < 0x8000_0000_0000_0000
  }

  predicate InMemory(m: Message) {
    && IsVec(m.heads) && IsVec(m.need) && IsVec(m.have) && IsVec(m.changes)
    && (forall h <- m.have :: IsVec(h.lastSync) && IsVec(h.bloom.bits))
    && (forall c <- m.changes :: IsVec(c))
    && (m.capabilities.Some? ==> IsVec(m.capabilities.value))
  }

  /** As many bits as its parameters say; an empty filter has the usual ones. */
  predicate CanonicalFilter(f: Filter) {
    |f.bits| == BytesFor(f.numEntries, f.bitsPerEntry) && (f.numEntries == 0 ==> f == DefaultFilter)
  }

  /** An unknown capability does not use a known code. */
  predicate CanonicalCapability(c: Capability) {
    c.Unknown? ==> c.code != 0x01 && c.code != 0x02
  }

  predicate Canonical(m: Message) {
    && (forall h <- m.have :: CanonicalFilter(h.bloom))
    && (m.capabilities.Some? ==> forall c <- m.capabilities.value :: CanonicalCapability(c))
  }

  // What is read back of a message that has enough bits in its filters.

  predicate Filled(f: Filter) {
    f.numEntries == 0 || |f.bits| >= BytesFor(f.numEntries, f.bitsPerEntry)
  }

  function FilterRead(f: Filter): Filter {
    if f.numEntries == 0 then DefaultFilter
    else if Filled(f) then f.(bits := f.bits[..BytesFor(f.numEntries, f.bitsPerEntry)])
    else f
  }

  function HaveRead(h: Have): Have {
    h.(bloom := FilterRead(h.bloom))
  }

  function CapabilityRead(c: Capability): Capability {
    if c == Unknown(0x01) then MessageV1 else if c == Unknown(0x02) then MessageV2 else c
  }

  function MessageRead(m: Message): Message {
    m.(have := seq(|m.have|, i requires 0 <= i < |m.have| => HaveRead(m.have[i])),
       capabilities := if m.capabilities.None? then None else
         Some(seq(|m.capabilities.value|, i requires 0 <= i < |m.capabilities.value| => CapabilityRead(m.capabilities.value[i]))))
  }

  lemma {:induction false} Leb128Length(n: nat)
    ensures |Leb128(n)| <= n + 1
  {
    if n >= 128 {
      Leb128Length(n / 128);
    }
  }

  lemma FilterIsRead(f: Filter)
    requires Filled(f) && IsVec(f.bits)
    ensures |EncodeFilter(f)| < 0x1_0000_0000_0000_0000
    ensures TakeFilter(EncodeFilter(f)).Ok? && TakeFilter(EncodeFilter(f)).value.value == FilterRead(f)
  {
    if f.numEntries != 0 {
      Leb128Length(f.numEntries);
      Leb128Length(f.bitsPerEntry);
      Leb128Length(f.numProbes);
      var probes := Leb128(f.numProbes) + f.bits;
      U32IsTaken(f.numEntries, Leb128(f.bitsPerEntry) + probes);
      U32IsTaken(f.bitsPerEntry, probes);
      U32IsTaken(f.numProbes, f.bits);
    }
  }

  lemma HashIsRead(hash: Hash)
    ensures ReadAs(EncodeHash(hash), TakeHash, hash)
  {
    forall rest {
      TakeNReadsBack(hash, rest);
    }
  }

  lemma HashesAreRead(hashes: seq<Hash>, rest: seq<Byte>)
    requires IsVec(hashes)
    ensures TakeMany(TakeHash, EncodeMany(hashes, EncodeHash) + rest) == Ok(Parsed(rest, hashes))
  {
    forall i | 0 <= i < |hashes| {
      HashIsRead(hashes[i]);
    }
    ManyIsRead(hashes, EncodeHash, TakeHash, hashes, rest);
  }

  lemma HaveIsRead(h: Have)
    requires IsVec(h.lastSync) && IsVec(h.bloom.bits) && Filled(h.bloom)
    ensures ReadAs(EncodeHave(h), TakeHave, HaveRead(h))
  {
    var bytes := EncodeFilter(h.bloom);
    FilterIsRead(h.bloom);
    forall rest
      ensures TakeHave(EncodeHave(h) + rest) == Ok(Parsed(rest, HaveRead(h)))
    {
      assert EncodeHave(h) + rest == EncodeMany(h.lastSync, EncodeHash) + (EncodeBytes(bytes) + rest);
      HashesAreRead(h.lastSync, EncodeBytes(bytes) + rest);
      BytesAreRead(bytes, rest);
    }
  }

  lemma HavesAreRead(have: seq<Have>, read: seq<Have>, rest: seq<Byte>)
    requires IsVec(have) && |read| == |have|
    requires forall i :: 0 <= i < |have| ==> read[i] == HaveRead(have[i])
    requires forall h <- have :: IsVec(h.lastSync) && IsVec(h.bloom.bits) && Filled(h.bloom)
    ensures TakeMany(TakeHave, EncodeMany(have, EncodeHave) + rest) == Ok(Parsed(rest, read))
  {
    forall i | 0 <= i < |have| {
      HaveIsRead(have[i]);
    }
    ManyIsRead(have, EncodeHave, TakeHave, read, rest);
  }

  lemma ChangesAreRead(changes: seq<seq<Byte>>, rest: seq<Byte>)
    requires IsVec(changes) && forall c <- changes :: IsVec(c)
    ensures TakeMany(TakeBytes, EncodeMany(changes, EncodeBytes) + rest) == Ok(Parsed(rest, changes))
  {
    forall i | 0 <= i < |changes|
      ensures ReadAs(EncodeBytes(changes[i]), TakeBytes, changes[i])
    {
      assert changes[i] in changes;
      forall after {
        BytesAreRead(changes[i], after);
      }
    }
    ManyIsRead(changes, EncodeBytes, TakeBytes, changes, rest);
  }

  lemma CapabilitiesAreRead(c: Option<seq<Capability>>, read: Option<seq<Capability>>)
    requires c.Some? <==> read.Some?
    requires c.Some? ==> IsVec(c.value) && |read.value| == |c.value|
    requires c.Some? ==> forall i :: 0 <= i < |c.value| ==> read.value[i] == CapabilityRead(c.value[i])
    ensures TakeCapabilities(EncodeCapabilities(c)) == Ok(Parsed([], read))
  {
    if c.Some? {
      forall i, rest | 0 <= i < |c.value|
        ensures TakeCapability(EncodeCapability(c.value[i]) + rest) == Ok(Parsed(rest, CapabilityRead(c.value[i])))
      {
        assert (EncodeCapability(c.value[i]) + rest)[1..] == rest;
      }
      ManyIsRead(c.value, EncodeCapability, TakeCapability, read.value, []);
      assert EncodeCapabilities(c) + [] == EncodeCapabilities(c);
    }
  }

  lemma MessageIsRead(m: Message)
    requires InMemory(m) && forall h <- m.have :: Filled(h.bloom)
    ensures TakeMessage(EncodeMessage(m)) == Ok(Parsed([], MessageRead(m)))
  {
    var read := MessageRead(m);
    var capabilities := EncodeCapabilities(m.capabilities);
    var changes := EncodeMany(m.changes, EncodeBytes) + capabilities;
    var have := EncodeMany(m.have, EncodeHave) + changes;
    var need := EncodeMany(m.need, EncodeHash) + have;
    HashesAreRead(m.heads, need);
    HashesAreRead(m.need, have);
    HavesAreRead(m.have, read.have, changes);
    ChangesAreRead(m.changes, capabilities);
    CapabilitiesAreRead(m.capabilities, read.capabilities);
    PartsAreRead(read, EncodeMessage(m), EncodeMany(m.heads, EncodeHash) + need, need, have, changes, capabilities);
  }

  lemma PartsAreRead(m: Message, all: seq<Byte>, heads: seq<Byte>, need: seq<Byte>, have: seq<Byte>, changes: seq<Byte>, capabilities: seq<Byte>)
    requires all == EncodeVersion(m.version) + heads
    requires TakeMany(TakeHash, heads) == Ok(Parsed(need, m.heads))
    requires TakeMany(TakeHash, need) == Ok(Parsed(have, m.need))
    requires TakeMany(TakeHave, have) == Ok(Parsed(changes, m.have))
    requires TakeMany(TakeBytes, changes) == Ok(Parsed(capabilities, m.changes))
    requires TakeCapabilities(capabilities) == Ok(Parsed([], m.capabilities))
    ensures TakeMessage(all) == Ok(Parsed([], m))
  {
    assert all[1..] == heads;
  }

  /** Whatever bytes were parsed, a filter has the bits that its parameters
      call for. */
  lemma ParsedFilters(input: seq<Byte>)
    requires TakeMessage(input).Ok?
    ensures forall h <- TakeMessage(input).value.value.have :: Filled(h.bloom)
  {
    var holds := (h: Have) => Filled(h.bloom);
    var version := TakeVersion(input).value;
    var heads := TakeMany(TakeHash, version.input).value;
    var need := TakeMany(TakeHash, heads.input).value;
    var count := TakeLeb128(need.input, 0).value;
    EachHas(count.value, TakeHave, count.input, holds);
  }

  lemma HavesUnchanged(have: seq<Have>, read: seq<Have>)
    requires |read| == |have| && forall i :: 0 <= i < |have| ==> read[i] == HaveRead(have[i])
    requires forall h <- have :: Filled(h.bloom)
    ensures read == have <==> forall h <- have :: CanonicalFilter(h.bloom)
  {
    forall h <- have
      ensures HaveRead(h) == h <==> CanonicalFilter(h.bloom)
    {
    }
  }

  lemma CapabilitiesUnchanged(c: seq<Capability>, read: seq<Capability>)
    requires |read| == |c| && forall i :: 0 <= i < |c| ==> read[i] == CapabilityRead(c[i])
    ensures read == c <==> forall x <- c :: CanonicalCapability(x)
  {
    if x :| x in c && !CanonicalCapability(x) {
      var i :| 0 <= i < |c| && c[i] == x;
      assert read[i] != c[i];
    } else {
      assert forall i :: 0 <= i < |c| ==> c[i] in c;
    }
  }

  /** A message is its own reading exactly when it is canonical. */
  lemma ReadUnchanged(m: Message)
    requires forall h <- m.have :: Filled(h.bloom)
    ensures MessageRead(m) == m <==> Canonical(m)
  {
    var read := MessageRead(m);
    HavesUnchanged(m.have, read.have);
    if m.capabilities.Some? {
      CapabilitiesUnchanged(m.capabilities.value, read.capabilities.value);
    }
  }

  /** Parsing what was encoded gives the message back, with no input left,
      exactly for canonical messages. */
  lemma MessageRoundTrip(m: Message)
    requires InMemory(m)
    ensures TakeMessage(EncodeMessage(m)) == Ok(Parsed([], m)) <==> Canonical(m)
  {
    if TakeMessage(EncodeMessage(m)) == Ok(Parsed([], m)) {
      ParsedFilters(EncodeMessage(m));
    }
    if forall h <- m.have :: Filled(h.bloom) {
      MessageIsRead(m);
      ReadUnchanged(m);
    }
  }

  /** A failing input: an unknown capability with a known code comes back as the
      known one. */
  lemma UnknownCodeIsNotKept()
    ensures var m := Message([], [], [], [], Some([Unknown(0x01)]), V1);
            TakeMessage(EncodeMessage(m)) == Ok(Parsed([], m.(capabilities := Some([MessageV1]))))
  {
    var m := Message([], [], [], [], Some([Unknown(0x01)]), V1);
    MessageIsRead(m);
    assert MessageRead(m).have == [] && MessageRead(m).capabilities.value == [MessageV1];
  }

  // External object ids.

  datatype ObjectId = Root | Id(counter: U64, actor: ActorId, index: U64)

  datatype ObjectIdError =
    NoVersion | InvalidVersion(version: nat) | InvalidType(typeTag: nat)
    | ParseActorLen | ParseActor | ParseCounter | ParseActorIdxHint

  const TYPE_ROOT := 0
  const TYPE_ID := 1

  function ObjectIdToBytes(id: ObjectId): seq<Byte> {
    match id
    case Root => [16 * TYPE_ROOT]
    case Id(counter, actor, index) =>
      [16 * TYPE_ID] + (EncodeBytes(actor) + (Leb128(index) + Leb128(counter)))
  }

  /** Whatever follows an id is ignored. */
  function ObjectIdFromBytes(bytes: seq<Byte>): Result<ObjectId, ObjectIdError> {
    if bytes == [] then Err(NoVersion)
    else if bytes[0] % 16 != 0 then Err(InvalidVersion(bytes[0] % 16))
    else if bytes[0] / 16 == TYPE_ROOT then Ok(ObjectId.Root)
    else if bytes[0] / 16 == TYPE_ID then IdFromBytes(bytes[1..])
    else Err(InvalidType(bytes[0] / 16))
  }

  function IdFromBytes(bytes: seq<Byte>): Result<ObjectId, ObjectIdError> {
    var length := TakeLeb128(bytes, 0);
    if length.Err? then Err(ParseActorLen)
    else
      var actor := TakeN(length.value.value, length.value.input);
      if actor.Err? then Err(ParseActor)
      else
        var index := TakeLeb128(actor.value.input, 0);
        if index.Err? then Err(ParseCounter)
        else
          var counter := TakeLeb128(index.value.input, 0);
          if counter.Err? then Err(ParseActorIdxHint)
          else
            TakenFits(actor.value.input);
            TakenFits(index.value.input);
            Ok(Id(counter.value.value, actor.value.value, index.value.value))
  }

  lemma TakenFits(input: seq<Byte>)
    ensures TakeLeb128(input, 0).Ok? ==> TakeLeb128(input, 0).value.value < 0x1_0000_0000_0000_0000
  {
    LimitIs64Bits();
    if TakeLeb128(input, 0).Ok? {
      TakenWasEncoded(input, 0);
    }
  }

  /** Bytes with their length are taken from exactly the inputs that start with
      their encoding. */
  lemma BytesExact(input: seq<Byte>, bytes: seq<Byte>, rest: seq<Byte>)
    requires IsVec(bytes)
    ensures TakeBytes(input) == Ok(Parsed(rest, bytes)) <==> input == EncodeBytes(bytes) + rest
  {
    if input == EncodeBytes(bytes) + rest {
      BytesAreRead(bytes, rest);
    }
    if TakeBytes(input) == Ok(Parsed(rest, bytes)) {
      var length := TakeLeb128(input, 0).value;
      Leb128Exact(input, |bytes|, length.input);
      assert length.input == bytes + rest;
      assert input == EncodeBytes(bytes) + rest;
    }
  }

  /** The two numbers behind an actor. */
  lemma NumbersExact(input: seq<Byte>, m: U64, n: U64, rest: seq<Byte>)
    ensures (TakeLeb128(input, 0).Ok? && TakeLeb128(input, 0).value.value == m
             && TakeLeb128(TakeLeb128(input, 0).value.input, 0) == Ok(Parsed(rest, n)))
            <==> input == Leb128(m) + (Leb128(n) + rest)
  {
    Leb128Exact(input, m, Leb128(n) + rest);
    if TakeLeb128(input, 0).Ok? {
      var first := TakeLeb128(input, 0).value;
      Leb128Exact(first.input, n, rest);
      Leb128Exact(input, m, first.input);
    }
  }

  lemma Regroup(a: seq<Byte>, b: seq<Byte>, c: seq<Byte>, d: seq<Byte>)
    ensures a + (b + (c + d)) == a + (b + c) + d
  {
  }

  lemma IdExact(bytes: seq<Byte>, id: ObjectId)
    requires id.Id? && IsVec(id.actor)
    ensures IdFromBytes(bytes) == Ok(id) <==>
      EncodeBytes(id.actor) + (Leb128(id.index) + Leb128(id.counter)) <= bytes
  {
    var all := EncodeBytes(id.actor) + (Leb128(id.index) + Leb128(id.counter));
    if all <= bytes {
      var rest := bytes[|all|..];
      Regroup(EncodeBytes(id.actor), Leb128(id.index), Leb128(id.counter), rest);
      BytesExact(bytes, id.actor, Leb128(id.index) + (Leb128(id.counter) + rest));
      NumbersExact(Leb128(id.index) + (Leb128(id.counter) + rest), id.index, id.counter, rest);
    }
    if IdFromBytes(bytes) == Ok(id) {
      var input := TakeBytes(bytes).value.input;
      BytesExact(bytes, id.actor, input);
      var left := TakeLeb128(TakeLeb128(input, 0).value.input, 0).value.input;
      NumbersExact(input, id.index, id.counter, left);
      Regroup(EncodeBytes(id.actor), Leb128(id.index), Leb128(id.counter), left);
    }
  }

  lemma PrefixBehindTag(all: seq<Byte>, bytes: seq<Byte>)
    requires all != [] && bytes != []
    ensures all <= bytes <==> all[0] == bytes[0] && all[1..] <= bytes[1..]
  {
    if all[0] == bytes[0] && all[1..] <= bytes[1..] {
      assert all == [all[0]] + all[1..] && bytes == [all[0]] + bytes[1..];
    }
  }

  /** An id is read from exactly the bytes that start with its encoding. */
  lemma ObjectIdRoundTrip(bytes: seq<Byte>, id: ObjectId)
    requires id.Id? ==> IsVec(id.actor)
    ensures ObjectIdFromBytes(bytes) == Ok(id) <==> ObjectIdToBytes(id) <= bytes
  {
    if bytes != [] {
      PrefixBehindTag(ObjectIdToBytes(id), bytes);
      if id.Id? {
        IdExact(bytes[1..], id);
      }
    }
  }

  // Cursors.

  datatype MoveCursor = Before | After

  datatype Cursor = Start | End | Op(counter: U64, actor: ActorId, move: MoveCursor)

  const VERSION_TAG: Byte := 1
  const START_TAG: Byte := 1
  const END_TAG: Byte := 2
  const OP_TAG: Byte := 3
  const MOVE_BEFORE_TAG: Byte := 1
  const MOVE_AFTER_TAG: Byte := 2

  function MoveTag(m: MoveCursor): Byte {
    if m.Before? then MOVE_BEFORE_TAG else MOVE_AFTER_TAG
  }

  function CursorToBytes(c: Cursor): seq<Byte> {
    match c
    case Start => [VERSION_TAG, START_TAG]
    case End => [VERSION_TAG, END_TAG]
    case Op(counter, actor, move) =>
      [VERSION_TAG, OP_TAG] + (EncodeBytes(actor) + (Leb128(counter) + [MoveTag(move)]))
  }

  /** Anything wrong gives the one error, here None. */
  function CursorFromBytes(bytes: seq<Byte>): Option<Cursor> {
    if bytes == [] then None
    else if bytes[0] == 0 then CursorFromVersion0(bytes[1..])
    else if bytes[0] != VERSION_TAG then None
    else if |bytes| == 1 then None
    else if bytes[1] == START_TAG then Some(Start)
    else if bytes[1] == END_TAG then Some(End)
    else if bytes[1] == OP_TAG then OpFromBytes(bytes[2..])
    else None
  }

  /** An actor and a counter. */
  function TakeActorCounter(bytes: seq<Byte>): Result<Parsed<(ActorId, U64)>, ParseError> {
    var actor :- TakeBytes(bytes);
    var counter :- TakeLeb128(actor.input, 0);
    TakenFits(actor.input);
    Ok(Parsed(counter.input, (actor.value, counter.value)))
  }

  function OpFromBytes(bytes: seq<Byte>): Option<Cursor> {
    var p := TakeActorCounter(bytes);
    if p.Err? || p.value.input == [] then None
    else if p.value.input[0] == MOVE_AFTER_TAG then Some(Op(p.value.value.1, p.value.value.0, After))
    else if p.value.input[0] == MOVE_BEFORE_TAG then Some(Op(p.value.value.1, p.value.value.0, Before))
    else None
  }

  /** The older form has no way to move: it was After. */
  function CursorFromVersion0(bytes: seq<Byte>): Option<Cursor> {
    var p := TakeActorCounter(bytes);
    if p.Err? then None else Some(Op(p.value.value.1, p.value.value.0, After))
  }

  lemma ActorCounterExact(bytes: seq<Byte>, actor: ActorId, counter: U64, rest: seq<Byte>)
    requires IsVec(actor)
    ensures TakeActorCounter(bytes) == Ok(Parsed(rest, (actor, counter))) <==>
            bytes == EncodeBytes(actor) + (Leb128(counter) + rest)
  {
    BytesExact(bytes, actor, Leb128(counter) + rest);
    if TakeBytes(bytes).Ok? {
      var input := TakeBytes(bytes).value.input;
      BytesExact(bytes, actor, input);
      Leb128Exact(input, counter, rest);
    }
    Leb128Exact(Leb128(counter) + rest, counter, rest);
  }

  /** A cursor is read from exactly the bytes that start with its encoding, or
      from those of the older version that start with its actor and counter. */
  lemma CursorRoundTrip(bytes: seq<Byte>, c: Cursor)
    requires c.Op? ==> IsVec(c.actor)
    ensures bytes != [] && bytes[0] == 0 ==>
      (CursorFromBytes(bytes) == Some(c) <==>
       c.Op? && c.move.After? && EncodeBytes(c.actor) + Leb128(c.counter) <= bytes[1..])
    ensures bytes == [] || bytes[0] != 0 ==> (CursorFromBytes(bytes) == Some(c) <==> CursorToBytes(c) <= bytes)
  {
    if c.Op? && bytes != [] && bytes[0] == 0 {
      Version0Exact(bytes[1..], c);
    } else if c.Op? && |bytes| >= 2 {
      OpExact(bytes[2..], c);
      var all := CursorToBytes(c);
      assert all[2..] <= bytes[2..] && all[..2] == bytes[..2] <==> all <= bytes;
    }
  }

  lemma Version0Exact(bytes: seq<Byte>, c: Cursor)
    requires c.Op? && IsVec(c.actor)
    ensures CursorFromVersion0(bytes) == Some(c) <==>
      c.move.After? && EncodeBytes(c.actor) + Leb128(c.counter) <= bytes
  {
    var start := EncodeBytes(c.actor) + Leb128(c.counter);
    if start <= bytes {
      var rest := bytes[|start|..];
      assert bytes == EncodeBytes(c.actor) + (Leb128(c.counter) + rest);
      ActorCounterExact(bytes, c.actor, c.counter, rest);
    }
    if TakeActorCounter(bytes).Ok? {
      var rest := TakeActorCounter(bytes).value.input;
      ActorCounterExact(bytes, c.actor, c.counter, rest);
      assert EncodeBytes(c.actor) + (Leb128(c.counter) + rest) == start + rest;
    }
  }

  lemma OpExact(bytes: seq<Byte>, c: Cursor)
    requires c.Op? && IsVec(c.actor)
    ensures OpFromBytes(bytes) == Some(c) <==>
      EncodeBytes(c.actor) + (Leb128(c.counter) + [MoveTag(c.move)]) <= bytes
  {
    var all := EncodeBytes(c.actor) + (Leb128(c.counter) + [MoveTag(c.move)]);
    if all <= bytes {
      var rest := bytes[|all|..];
      Regroup(EncodeBytes(c.actor), Leb128(c.counter), [MoveTag(c.move)], rest);
      ActorCounterExact(bytes, c.actor, c.counter, [MoveTag(c.move)] + rest);
    }
    if TakeActorCounter(bytes).Ok? {
      var rest := TakeActorCounter(bytes).value.input;
      ActorCounterExact(bytes, c.actor, c.counter, rest);
      if rest != [] && rest[0] == MoveTag(c.move) {
        assert rest == [MoveTag(c.move)] + rest[1..];
        Regroup(EncodeBytes(c.actor), Leb128(c.counter), [MoveTag(c.move)], rest[1..]);
      }
    }
  }

  // Cursors as text.

  function DigitChar(d: nat): (c: char)
    requires d < 16
    ensures c != '@' && c != '+' && c != '-' && Utf8Width(c) == 1
    ensures DigitOf(c) == Some(d)
  {
    "0123456789abcdef"[d]
  }

  /** Hexadecimal digits may be in upper case. */
  function DigitOf(c: char): Option<nat> {
    if '0' <= c <= '9' then Some((c as int) - ('0' as int))
    else if 'a' <= c <= 'f' then Some((c as int) - ('a' as int) + 10)
    else if 'A' <= c <= 'F' then Some((c as int) - ('A' as int) + 10)
    else None
  }

  function Decimal(n: nat): (s: string)
    ensures s != [] && '@' !in s && s[0] != '+' && s[0] != '-' && Utf8Width(s[0]) == 1
  {
    if n < 10 then [DigitChar(n)] else Decimal(n / 10) + [DigitChar(n % 10)]
  }

  function DecimalValue(s: string): Option<nat> {
    if s == [] then Some(0)
    else
      var high, low := DecimalValue(s[..|s| - 1]), DigitOf(s[|s| - 1]);
      if high.None? || low.None? || low.value >= 10 then None else Some(10 * high.value + low.value)
  }

  /** A plus sign is allowed. */
  function ParseU64(s: string): Option<U64> {
    var digits := if |s| > 1 && s[0] == '+' then s[1..] else s;
    var value := DecimalValue(digits);
    if digits == [] || value.None? || value.value >= 0x1_0000_0000_0000_0000 then None else Some(value.value)
  }

  lemma {:induction false} DecimalIsRead(n: nat)
    ensures DecimalValue(Decimal(n)) == Some(n)
  {
    if n >= 10 {
      DecimalIsRead(n / 10);
      assert (Decimal(n / 10) + [DigitChar(n % 10)])[..|Decimal(n)| - 1] == Decimal(n / 10);
    } else {
      assert [DigitChar(n)][..0] == [];
    }
  }

  function Hex(bytes: seq<Byte>): string {
    if bytes == [] then [] else [DigitChar(bytes[0] / 16), DigitChar(bytes[0] % 16)] + Hex(bytes[1..])
  }

  function HexDecode(s: string): Option<seq<Byte>> {
    if s == [] then Some([])
    else if |s| == 1 then None
    else
      var high, low, rest := DigitOf(s[0]), DigitOf(s[1]), HexDecode(s[2..]);
      if high.None? || low.None? || rest.None? then None else Some([16 * high.value + low.value] + rest.value)
  }

  lemma HexByte(b: Byte, tail: string)
    ensures HexDecode([DigitChar(b / 16), DigitChar(b % 16)] + tail) ==
      if HexDecode(tail).None? then None else Some([b] + HexDecode(tail).value)
  {
    assert ([DigitChar(b / 16), DigitChar(b % 16)] + tail)[2..] == tail;
  }

  lemma {:induction false} HexIsRead(bytes: seq<Byte>)
    ensures HexDecode(Hex(bytes)) == Some(bytes)
  {
    if bytes != [] {
      HexIsRead(bytes[1..]);
      HexByte(bytes[0], Hex(bytes[1..]));
      assert bytes == [bytes[0]] + bytes[1..];
    }
  }

  function Find(s: string, c: char): Option<nat> {
    if s == [] then None
    else if s[0] == c then Some(0)
    else
      var n := Find(s[1..], c);
      if n.Some? then Some(n.value + 1) else None
  }

  lemma {:induction false} FindFirst(s: string, c: char, rest: string)
    requires c !in s
    ensures Find(s + [c] + rest, c) == Some(|s|)
  {
    if s != [] {
      FindFirst(s[1..], c, rest);
      assert (s + [c] + rest)[1..] == s[1..] + [c] + rest;
    }
  }

  function CursorText(c: Cursor): (s: string) {
    match c
    case Start => "s"
    case End => "e"
    case Op(counter, actor, move) => (if move.Before? then "-" else "") + Decimal(counter) + "@" + Hex(actor)
  }

  /** The bytes of a character in UTF-8. */
  function Utf8Width(c: char): (w: nat)
    ensures w >= 1
  {
    var scalar := c as int;
    if scalar < 0x80 then 1 else if scalar < 0x800 then 2 else if scalar < 0x1_0000 then 3 else 4
  }

  function ByteLength(s: string): nat {
    if s == [] then 0 else Utf8Width(s[0]) + ByteLength(s[1..])
  }

  /** A slice that does not start and end at such an offset panics. */
  predicate IsCharBoundary(s: string, offset: nat) {
    offset == 0 || (s != [] && Utf8Width(s[0]) <= offset && IsCharBoundary(s[1..], offset - Utf8Width(s[0])))
  }

  datatype TextResult = Panic | NoCursor | Read(cursor: Cursor)

  function CursorFromText(s: string): TextResult {
    if ByteLength(s) == 1 then
      if s == "s" then Read(Start) else if s == "e" then Read(End) else NoCursor
    else if !IsCharBoundary(s, 1) then Panic
    else OpFromText(s)
  }

  /** The first byte is a whole character here. */
  function OpFromText(s: string): TextResult {
    var move := if s != [] && s[0] == '-' then Before else After;
    var n := Find(s, '@');
    if n.None? then NoCursor
    else
      FoundThere(s, '@');
      var counter := ParseU64(s[(if s[0] == '-' then 1 else 0)..n.value]);
      var actor := HexDecode(s[n.value + 1..]);
      if counter.None? || actor.None? then NoCursor else Read(Op(counter.value, actor.value, move))
  }

  /** The parser panics on exactly the texts that are empty or start with a
      character of more than one byte. */
  lemma CursorTextPanics(s: string)
    ensures CursorFromText(s).Panic? <==> s == [] || s[0] as int >= 0x80
  {
    if s != [] {
      assert ByteLength(s) == Utf8Width(s[0]) + ByteLength(s[1..]);
      if Utf8Width(s[0]) == 1 {
        assert IsCharBoundary(s[1..], 0);
      }
    }
  }

  /** Failing inputs: the empty text, and one that starts with a letter of two
      bytes. */
  lemma TextsThatPanic()
    ensures CursorFromText("").Panic? && CursorFromText("\U{00E9}1@00").Panic?
  {
    CursorTextPanics("");
    CursorTextPanics("\U{00E9}1@00");
    assert "\U{00E9}1@00"[0] == '\U{00E9}';
  }

  lemma {:induction false} FoundThere(s: string, c: char)
    ensures Find(s, c).Some? ==> Find(s, c).value < |s| && s[Find(s, c).value] == c
  {
    if s != [] && s[0] != c {
      FoundThere(s[1..], c);
    }
  }

  lemma TextParts(s: string, sign: string, digits: string, hex: string)
    requires s == sign + digits + "@" + hex && '@' !in sign && '@' !in digits
    ensures Find(s, '@') == Some(|sign| + |digits|)
    ensures s[|sign|..|sign| + |digits|] == digits && s[|sign| + |digits| + 1..] == hex
  {
    FindFirst(sign + digits, '@', hex);
  }

  /** The direction, a number, and the actor behind the first `@`. */
  ghost predicate IsTextOf(s: string, c: Cursor, digits: string, hex: string)
    requires c.Op?
  {
    && s == (if c.move.Before? then "-" else "") + digits + "@" + hex && '@' !in digits
    && (c.move.After? ==> digits == [] || digits[0] != '-')
    && ParseU64(digits) == Some(c.counter) && HexDecode(hex) == Some(c.actor)
  }

  lemma TextIsTaken(s: string, c: Cursor, digits: string, hex: string)
    requires c.Op? && IsTextOf(s, c, digits, hex)
    ensures OpFromText(s) == Read(c)
  {
    var sign := if c.move.Before? then "-" else "";
    TextParts(s, sign, digits, hex);
    assert s[0] == '-' <==> c.move.Before?;
    OpIsRead(s, |sign|, |sign| + |digits|, c);
  }

  lemma TakenIsText(s: string, c: Cursor) returns (digits: string, hex: string)
    requires c.Op? && s != [] && OpFromText(s) == Read(c)
    ensures IsTextOf(s, c, digits, hex)
  {
    var i, n := if s[0] == '-' then 1 else 0, Find(s, '@').value;
    FoundThere(s, '@');
    NoneBefore(s, '@');
    digits, hex := s[i..n], s[n + 1..];
    assert s == s[..i] + digits + "@" + hex;
    assert forall k :: 0 <= k < |digits| ==> digits[k] == s[..n][i + k];
  }

  /** A text reads as a place in the operations exactly if it is made like that. */
  lemma OpTextExactly(s: string, c: Cursor)
    requires c.Op? && s != []
    ensures OpFromText(s) == Read(c) <==> exists digits, hex :: IsTextOf(s, c, digits, hex)
  {
    if digits, hex :| IsTextOf(s, c, digits, hex) {
      TextIsTaken(s, c, digits, hex);
    }
    if OpFromText(s) == Read(c) {
      var digits, hex := TakenIsText(s, c);
    }
  }

  lemma {:induction false} NoneBefore(s: string, c: char)
    ensures Find(s, c).Some? ==> Find(s, c).value < |s| && c !in s[..Find(s, c).value]
  {
    FoundThere(s, c);
    if s != [] && s[0] != c && Find(s, c).Some? {
      NoneBefore(s[1..], c);
      var n := Find(s[1..], c).value;
      assert s[..n + 1] == [s[0]] + s[1..][..n];
    }
  }

  lemma OpIsRead(s: string, i: nat, n: nat, c: Cursor)
    requires c.Op? && |s| > 1 && i == (if s[0] == '-' then 1 else 0) <= n < |s| && (s[0] == '-' <==> c.move.Before?)
    requires Find(s, '@') == Some(n)
    requires ParseU64(s[i..n]) == Some(c.counter) && HexDecode(s[n + 1..]) == Some(c.actor)
    ensures OpFromText(s) == Read(c)
  {
  }

  lemma LongerThanOneByte(s: string)
    requires |s| > 1 && Utf8Width(s[0]) == 1
    ensures CursorFromText(s) == OpFromText(s)
  {
    assert ByteLength(s[1..]) >= Utf8Width(s[1..][0]) >= 1;
    CursorTextPanics(s);
  }

  /** Every cursor is read back from its text. */
  lemma CursorTextRoundTrip(c: Cursor)
    ensures CursorFromText(CursorText(c)) == Read(c)
  {
    if c.Op? {
      var s, sign, digits := CursorText(c), if c.move.Before? then "-" else "", Decimal(c.counter);
      TextParts(s, sign, digits, Hex(c.actor));
      DecimalIsRead(c.counter);
      HexIsRead(c.actor);
      OpIsRead(s, |sign|, |sign| + |digits|, c);
      LongerThanOneByte(s);
    } else {
      var s := CursorText(c);
      assert s[1..] == [] && ByteLength(s) == Utf8Width(s[0]) + ByteLength([]);
      assert "s"[0] != "e"[0];
    }
  }
}
