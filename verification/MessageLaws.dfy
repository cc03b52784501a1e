// The laws of the codec for the messages of proto/license/v1.
module MessageLaws {
  import opened GoInts
  import opened Wire
  import opened Codec
  import opened CanonicalSize
  import opened CodecLaws
  import opened LicenseMessage
  import opened LicenseTypeMessage
  import opened GenesisMessage
  import opened IdsMessage
  import opened IssueMessage
  import opened Results
  import Varint

  lemma MessagesNumbered()
    ensures Numbered(LICENSE) && Numbered(LICENSE_TYPE) && Numbered(GENESIS)
    ensures Numbered(ISSUE_ENTRY) && Numbered(ISSUE) && Numbered(IDS)
  {
  }

  // A message without unknown bytes at any depth is clean.
  lemma {:induction false} NoUnknownIsClean(sch: Schema, m: Msg)
    requires Typed(sch, m) && Erase(sch, m) == m
    ensures Clean(sch, m)
    decreases sch
  {
    hide Step;
    assert Erase(sch, m).unknown == [];
    forall k | 0 <= k < |m.vals|
      ensures CleanVal(sch.kinds[k], m.vals[k])
    {
      assert Fits(sch.kinds[k], m.vals[k]);
      assert EraseVal(sch.kinds[k], m.vals[k]) == Erase(sch, m).vals[k] == m.vals[k];
      if sch.kinds[k].KMessages? {
        var sub, ms := sch.kinds[k].sub, m.vals[k].ms;
        forall j | 0 <= j < |ms|
          ensures Clean(sub, ms[j])
        {
          assert Erase(sub, ms[j]) == EraseVal(sch.kinds[k], m.vals[k]).ms[j] == ms[j];
          NoUnknownIsClean(sub, ms[j]);
        }
      }
    }
  }

  // A message without unknown bytes at any depth survives the trip, whether the decoder
  // discards unknown bytes or not.
  lemma {:induction false} PlainRoundTrip(sch: Schema, m: Msg, discard: bool)
    requires Numbered(sch) && Typed(sch, m) && Erase(sch, m) == m && |EncodeMsg(sch, m)| < TWO_63
    ensures Decode(sch, discard, EncodeMsg(sch, m), Empty(sch)) == Ok(m)
  {
    hide Step, Decode, EncodeMsg;
    NoUnknownIsClean(sch, m);
    RoundTrip(sch, m);
    EraseEmpty(sch);
    Discarding(sch, EncodeMsg(sch, m), Empty(sch));
  }

  // For every genesis state without unknown bytes, unmarshalling the marshalled bytes into
  // an empty message gives back the same two lists in order and the same next id.
  lemma GenesisRoundTrip(g: Msg, discard: bool)
    requires Typed(GENESIS, g) && Erase(GENESIS, g) == g && |EncodeMsg(GENESIS, g)| < TWO_63
    ensures Decode(GENESIS, discard, EncodeMsg(GENESIS, g), Empty(GENESIS)) == Ok(g)
  {
    MessagesNumbered();
    PlainRoundTrip(GENESIS, g, discard);
  }

  // For every list of ids, the packed bytes decode to the same list.
  lemma IdsRoundTrip(ids: seq<uint64>, discard: bool)
    requires |EncodeMsg(IDS, Msg([Us(ids)], []))| < TWO_63
    ensures Decode(IDS, discard, EncodeMsg(IDS, Msg([Us(ids)], [])), Empty(IDS)) == Ok(Msg([Us(ids)], []))
  {
    hide Step, Decode, EncodeMsg;
    var m := Msg([Us(ids)], []);
    MessagesNumbered();
    assert Erase(IDS, m).vals == m.vals;
    PlainRoundTrip(IDS, m, discard);
  }

  // Every accepted byte string of a license has a canonical form with the same meaning.
  lemma LicenseNormalisation(b: bytes)
    requires 2 * |b| < TWO_63 && Decode(LICENSE, false, b, Empty(LICENSE)).Ok?
    ensures var m := Decode(LICENSE, false, b, Empty(LICENSE)).value;
            |EncodeMsg(LICENSE, m)| <= 2 * |b| && Decode(LICENSE, false, EncodeMsg(LICENSE, m), Empty(LICENSE)) == Ok(m)
  {
    MessagesNumbered();
    InputNormalisation(LICENSE, false, b);
  }

  // ---- Where the round trip and the concatenation law stop ----

  // A license whose unknown bytes are a known field (id = 1).
  function Smuggled(): (l: Msg)
    ensures Typed(LICENSE, l)
  {
    Msg(Empty(LICENSE).vals, [0x08, 0x01])
  }

  lemma SmuggledIsUnclean()
    ensures EncodeMsg(LICENSE, Smuggled()) == [0x08, 0x01] && !Clean(LICENSE, Smuggled())
  {
    var u: bytes := [0x08, 0x01];
    MessagesNumbered();
    assert Varint.Encode(0x08) == [0x08] && Varint.Encode(1) == [0x01];
    StepNumber(LICENSE, 0, 1);
    assert u == Tag(0, 0) + Varint.Encode(1);
    assert !UnknownOnly(LICENSE, u);
    EmptyFieldsEncodeToNothing(Smuggled(), 0);
  }

  // It does not survive the trip.
  lemma KnownBytesAsUnknownAreLost()
    ensures Decode(LICENSE, false, EncodeMsg(LICENSE, Smuggled()), Empty(LICENSE)) != Ok(Smuggled())
  {
    hide Decode, EncodeMsg, Clean, Smuggled;
    MessagesNumbered();
    SmuggledIsUnclean();
    RoundTripExactly(LICENSE, Smuggled());
  }

  // Nor does a genesis state that lists it, whose own unknown bytes are empty.
  lemma KnownBytesInAListAreLost()
    ensures var g := Msg([Ms([]), Ms([Smuggled()]), U(0)], []);
            Typed(GENESIS, g) && Decode(GENESIS, false, EncodeMsg(GENESIS, g), Empty(GENESIS)) != Ok(g)
  {
    hide Decode, EncodeMsg, Clean, Smuggled;
    var g := Msg([Ms([]), Ms([Smuggled()]), U(0)], []);
    MessagesNumbered();
    SmuggledIsUnclean();
    SmuggledListUnclean(g);
    ListedLicenseSize(g);
    RoundTripExactly(GENESIS, g);
  }

  lemma SmuggledListUnclean(g: Msg)
    requires Typed(GENESIS, g) && g.vals[1] == Ms([Smuggled()]) && !Clean(LICENSE, Smuggled())
    ensures !Clean(GENESIS, g)
  {
    hide UnknownOnly, Smuggled;
    if Clean(GENESIS, g) {
      ElementClean(GENESIS, g, 1, 0);
    }
  }

  lemma ElementClean(sch: Schema, m: Msg, k: nat, j: nat)
    requires Typed(sch, m) && Clean(sch, m)
    requires k < |m.vals| && m.vals[k].Ms? && j < |m.vals[k].ms|
    ensures sch.kinds[k].KMessages? && Typed(sch.kinds[k].sub, m.vals[k].ms[j])
    ensures Clean(sch.kinds[k].sub, m.vals[k].ms[j])
  {
    hide UnknownOnly;
    assert Fits(sch.kinds[k], m.vals[k]) && CleanVal(sch.kinds[k], m.vals[k]);
  }

  lemma ListedLicenseSize(g: Msg)
    requires Typed(GENESIS, g) && g == Msg([Ms([]), Ms([Smuggled()]), U(0)], [])
    requires |EncodeMsg(LICENSE, Smuggled())| == 2
    ensures |EncodeMsg(GENESIS, g)| < TWO_63
  {
    hide Smuggled;
    var kind := GENESIS.kinds[1];
    assert EncodeFrom(GENESIS, g, 3) == [] && EncodeFrom(GENESIS, g, 2) == [];
    assert Varint.Encode(18) == [18] && Varint.Encode(2) == [2];
    assert |EncodeChildren(1, kind, [Smuggled()])| == 4;
    assert |EncodeFrom(GENESIS, g, 1)| == 4;
    assert EncodeChildren(0, GENESIS.kinds[0], []) == [];
    assert EncodeFrom(GENESIS, g, 0) == EncodeFrom(GENESIS, g, 1);
  }

  lemma {:induction false} EmptyFieldsEncodeToNothing(m: Msg, k: nat)
    requires m.vals == Empty(LICENSE).vals && k <= 7
    ensures Typed(LICENSE, m) && EncodeFrom(LICENSE, m, k) == m.unknown
    decreases 7 - k
  {
    if k < 7 {
      EmptyFieldsEncodeToNothing(m, k + 1);
    }
  }

  // A ten-byte type field, then a type field that claims 2^63 - 11 bytes: decoded on its own
  // the second part is UnexpectedEOF, after the first it is InvalidLength.
  lemma ConcatenationChangesTheError()
    ensures var a: bytes := Delimited(1, [0, 0, 0, 0, 0, 0, 0, 0]);
            var b := Tag(1, 2) + Varint.Encode(TWO_63 - 11);
            && Decode(LICENSE, false, a, Empty(LICENSE)).Ok?
            && var x := Decode(LICENSE, false, a, Empty(LICENSE)).value;
               && GoResult(Decode(LICENSE, false, b, x)) == Err(UnexpectedEOF)
               && GoResult(Decode(LICENSE, false, a + b, Empty(LICENSE))) == Err(InvalidLength)
  {
    hide Decode, Varint.Encode, Delimited, Tag, Typed, Empty;
    var p: bytes := [0, 0, 0, 0, 0, 0, 0, 0];
    var a, m, len := Delimited(1, p), Empty(LICENSE), TWO_63 - 11;
    var b := Tag(1, 2) + Varint.Encode(len);
    var x := TypeFieldDecodes(p, m);
    Concatenation(LICENSE, false, a, b, m);
    TruncatedBlob(len, x);
    NineBytes(len);
    FirstPart(p);
  }

  lemma TypeFieldDecodes(p: bytes, m: Msg) returns (x: Msg)
    requires |p| < TWO_63 && Typed(LICENSE, m)
    ensures Typed(LICENSE, x) && Decode(LICENSE, false, Delimited(1, p), m) == Ok(x)
  {
    hide Step, Decode;
    MessagesNumbered();
    StepBlob(LICENSE, 1, p);
    DecodeOne(LICENSE, false, Delimited(1, p), m, Blob(1, p));
    x := m.(vals := m.vals[1 := S(p)]);
  }

  // A type field whose length prefix is the end of the buffer.
  lemma TruncatedBlob(len: nat, m: Msg)
    requires 0 < len < TWO_63 && Typed(LICENSE, m)
    ensures var b := Tag(1, 2) + Varint.Encode(len); Decode(LICENSE, false, b, m) == Err(Overrun(|b| + len))
  {
    hide Varint.Read, Skip;
    var e := Varint.Encode(len);
    var b := Tag(1, 2) + e;
    ReadWrittenTag(1, 2, e);
    assert b[|Tag(1, 2)|..] == e + [];
    Varint.RoundTrip(len, []);
    assert Step(Switch(LICENSE), b) == Err(Overrun(|b| + len));
  }

  lemma NineBytes(len: nat)
    requires len < TWO_63
    ensures 1 <= |Tag(1, 2) + Varint.Encode(len)| <= 10
  {
    Pow2Constants();
    Varint.EncodeLength(len, 9);
    assert Varint.Encode(18) == [18];
  }

  lemma FirstPart(p: bytes)
    requires |p| == 8
    ensures |Delimited(1, p)| == 10
  {
    assert Varint.Encode(18) == [18] && Varint.Encode(8) == [8];
  }
}
