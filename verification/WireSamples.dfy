/**
The wire formats byte by byte: tags, constants and the order of fields, written
out.
*/
module WireSamples {
  import opened Wrappers
  import opened Dag
  import opened Actors
  import opened WireFormats
  import Bloom

  /** Numbers come in groups of seven bits, the lowest first.  The last line is an
      example of DWARF Version 5, section 7.6. */
  lemma Numbers()
    ensures Leb128(0) == [0] && Leb128(127) == [127] && Leb128(128) == [0x80, 1] && Leb128(300) == [0xac, 2]
    ensures Leb128(624485) == [0xe5, 0x8e, 0x26]
    ensures Leb128(12857) == [57 + 0x80, 100]
  {
    assert Leb128(4878) == [0x8e] + Leb128(38);
  }

  /** A number that is cut off, too large, or longer than it needs to be. */
  lemma WrongNumbers(rest: seq<Byte>)
    ensures TakeLeb128([], 0) == TakeLeb128([0x80], 0) == Err(Incomplete)
    ensures TakeLeb128([0x80, 0] + rest, 0) == Err(Overlong)
    ensures TakeU32([0x80, 0x80, 0x80, 0x80, 0x10]) == Err(TooLarge)
  {
  }

  /** A whole message: the type, the heads, what is needed, the summary with its
      filter, the chunks and the capabilities. */
  lemma MessageBytes(h1: Hash, h2: Hash, h3: Hash, v: Version)
    ensures EncodeMessage(Message([h1], [h2], [Have([h3], Filter(2, 10, 7, [5, 6, 8]))], [[9, 8]],
                                  Some([MessageV1, MessageV2, Unknown(77)]), v))
         == [if v == V1 then 0x42 else 0x43]
          + ([1] + h1
          + ([1] + h2
          + ([1] + ([1] + h3 + [6, 2, 10, 7, 5, 6, 8])
          + ([1] + [2, 9, 8]
          + [3, 1, 2, 77]))))
  {
    OneHash(h1);
    OneHash(h2);
    OneSummary(h3);
    OneChunk();
    ThreeCapabilities();
  }

  lemma OneSummary(h: Hash)
    ensures EncodeMany([Have([h], Filter(2, 10, 7, [5, 6, 8]))], EncodeHave)
         == [1] + ([1] + h + [6, 2, 10, 7, 5, 6, 8])
  {
    OneHash(h);
    var f := Filter(2, 10, 7, [5, 6, 8]);
    assert EncodeFilter(f) == [2, 10, 7, 5, 6, 8];
    One(Have([h], f), EncodeHave);
  }

  lemma OneChunk()
    ensures EncodeMany([[9, 8]], EncodeBytes) == [1] + [2, 9, 8]
  {
    One([9, 8], EncodeBytes);
  }

  lemma One<T>(x: T, encode: T -> seq<Byte>)
    ensures EncodeMany([x], encode) == [1] + encode(x)
  {
    assert [x][1..] == [] && EncodeEach([x], encode) == encode(x) + [];
  }

  lemma OneHash(h: Hash)
    ensures EncodeMany([h], EncodeHash) == [1] + h
  {
    One(h, EncodeHash);
  }

  lemma ThreeCapabilities()
    ensures EncodeCapabilities(Some([MessageV1, MessageV2, Unknown(77)])) == [3, 1, 2, 77]
  {
    var c := [MessageV1, MessageV2, Unknown(77)];
    assert c[1..] == [MessageV2, Unknown(77)] && c[1..][1..] == [Unknown(77)] && c[1..][1..][1..] == [];
    assert EncodeEach(c[1..][1..], EncodeCapability) == [77];
    assert EncodeEach(c[1..], EncodeCapability) == [2, 77];
  }

  /** The first message of a fresh peer with an empty document: a summary without
      bytes for its filter. */
  lemma FirstMessageBytes()
    ensures EncodeMessage(Message([], [], [Have([], DefaultFilter)], [], Some([MessageV1, MessageV2]), V1))
         == [0x42, 0, 0, 1, 0, 0, 0, 2, 1, 2]
    ensures TakeMessage([0x44]) == Err(WrongType(0x44)) && TakeMessage([]) == Err(Incomplete)
  {
    assert EncodeHave(Have([], DefaultFilter)) == [0, 0];
    One(Have([], DefaultFilter), EncodeHave);
    var c := [MessageV1, MessageV2];
    assert c[1..] == [MessageV2] && c[1..][1..] == [];
    assert EncodeEach(c[1..], EncodeCapability) == [2];
  }

  /** Ten bits per entry, rounded up to bytes, and seven probes: with the words 1,
      2 and 3 of a hash, and 20 bits. */
  lemma FilterNumbers()
    ensures |Bloom.FilterOf(1, {}).bits| == 16 && |Bloom.FilterOf(4, {}).bits| == 40 && BytesFor(3, 10) == 4
    ensures DefaultFilter.bitsPerEntry == 10 && DefaultFilter.numProbes == 7
    ensures seq(7, i requires 0 <= i < 7 => Bloom.Probe(Digest(1, 2, 3), 20, i)) == [1, 3, 8, 16, 7, 1, 18]
  {
  }

  /** The bits a filter calls for, in whole bytes. */
  lemma BytesHoldBits(numEntries: U32, bitsPerEntry: U32)
    ensures numEntries * bitsPerEntry <= 8 * BytesFor(numEntries, bitsPerEntry) < numEntries * bitsPerEntry + 8
  {
  }

  /** The bytes of cursors: version, tag, actor, counter and direction. */
  lemma CursorBytes()
    ensures CursorToBytes(Start) == [1, 1] && CursorToBytes(End) == [1, 2]
    ensures CursorToBytes(Op(300, [7, 9], Before)) == [1, 3, 2, 7, 9, 0xac, 2, 1]
    ensures CursorToBytes(Op(5, [7, 9], After)) == [1, 3, 2, 7, 9, 5, 2]
    ensures CursorFromBytes([0, 2, 7, 9, 5]) == Some(Op(5, [7, 9], After))
    ensures CursorFromBytes([]) == CursorFromBytes([2, 1]) == CursorFromBytes([1]) == CursorFromBytes([1, 4]) == None
  {
    Numbers();
    assert EncodeBytes([7, 9]) == [2, 7, 9];
    var older: seq<Byte> := [0, 2, 7, 9, 5];
    assert older[1..] == [2, 7, 9] + ([5] + []);
    ActorCounterExact(older[1..], [7, 9], 5, []);
  }

  /** The bytes of object ids: version and type in one byte, then actor, place of
      the actor, and counter. */
  lemma ObjectIdBytes()
    ensures ObjectIdToBytes(ObjectId.Root) == [0]
    ensures ObjectIdToBytes(Id(300, [7, 9], 4)) == [16, 2, 7, 9, 4, 0xac, 2]
    ensures ObjectIdFromBytes([]) == Err(NoVersion) && ObjectIdFromBytes([1]) == Err(InvalidVersion(1))
    ensures ObjectIdFromBytes([32]) == Err(InvalidType(2)) && ObjectIdFromBytes([16]) == Err(ParseActorLen)
    ensures ObjectIdFromBytes([16, 1]) == Err(ParseActor) && ObjectIdFromBytes([16, 0]) == Err(ParseCounter)
    ensures ObjectIdFromBytes([16, 0, 4]) == Err(ParseActorIdxHint)
  {
    Numbers();
    assert EncodeBytes([7, 9]) == [2, 7, 9];
  }

  /** The texts of cursors: direction, counter in decimals, and actor in lower-case
      hexadecimals. */
  lemma CursorTexts()
    ensures CursorText(Start) == "s" && CursorText(End) == "e"
    ensures CursorText(Op(305, [0x0a, 0xf9], Before)) == "-" + "305" + "@" + "0af9"
    ensures CursorText(Op(7, [0xc0], After)) == "" + "7" + "@" + "c0"
  {
    TextParts();
  }

  lemma TextParts()
    ensures Decimal(305) == "305" && Decimal(7) == "7"
    ensures Hex([0x0a, 0xf9]) == "0af9" && Hex([0xc0]) == "c0"
  {
    assert Decimal(3) == "3";
    assert Decimal(30) == "30";
    assert [0x0a, 0xf9][1..] == [0xf9] && [0xf9][1..] == [] && [0xc0][1..] == [];
    assert Hex([]) == "";
    assert Hex([0xf9]) == "f9";
  }

  /** What counts as a digit, and for how much. */
  lemma Digits(d: nat, c: char)
    ensures d < 10 ==> DigitOf("0123456789"[d]) == Some(d)
    ensures d < 6 ==> DigitOf("abcdef"[d]) == DigitOf("ABCDEF"[d]) == Some(10 + d)
    ensures DigitOf(c).Some? <==> '0' <= c <= '9' || 'a' <= c <= 'f' || 'A' <= c <= 'F'
  {
  }

  /** Numbers are read from decimal digits only, bytes from pairs of hexadecimal
      digits only. */
  lemma {:induction false} OnlyDigits(s: string)
    ensures DecimalValue(s).Some? <==> forall i :: 0 <= i < |s| ==> '0' <= s[i] <= '9'
  {
    if s != [] {
      OnlyDigits(s[..|s| - 1]);
      Digits(0, s[|s| - 1]);
    }
  }

  lemma {:induction false} OnlyHexDigits(s: string)
    ensures HexDecode(s).Some? <==>
      |s| % 2 == 0 && forall i :: 0 <= i < |s| ==> '0' <= s[i] <= '9' || 'a' <= s[i] <= 'f' || 'A' <= s[i] <= 'F'
  {
    if |s| >= 2 {
      var rest := s[2..];
      OnlyHexDigits(rest);
      Digits(0, s[0]);
      Digits(0, s[1]);
      assert s == [s[0], s[1]] + rest && |rest| % 2 == |s| % 2;
    }
  }

  /** The bytes of a character in UTF-8 (section 3 of RFC 3629). */
  lemma Utf8Widths(c: char)
    ensures Utf8Width(c) == 1 <==> (c as int) <= 0x7f
    ensures Utf8Width(c) == 2 <==> 0x80 <= (c as int) <= 0x7ff
    ensures Utf8Width(c) == 3 <==> 0x800 <= (c as int) <= 0xffff
    ensures Utf8Width(c) == 4 <==> 0x1_0000 <= (c as int)
  {
  }

  /** An actor for concurrent work: four bytes to tell it, the level, and the
      actor. */
  lemma ConcurrencyBytes(actor: ActorId)
    ensures WithConcurrency(actor, 1) == [0x13, 0xb2, 0x23, 0x09, 1] + actor
    ensures WithConcurrency(actor, 300) == [0x13, 0xb2, 0x23, 0x09, 0xac, 2] + actor
  {
    Numbers();
  }
}
