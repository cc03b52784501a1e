// api/license/v1/genesis.pulsar.go: the size, marshal and unmarshal closures of GenesisState.
module GenesisMessage {
  import opened GoInts
  import opened Wire
  import opened Codec
  import opened CodecLaws
  import opened Buffer
  import opened Decoder
  import opened Encoder
  import opened LicenseMessage
  import opened LicenseTypeMessage
  import opened Results
  import Varint

  // proto/license/v1/genesis.proto: license_types, licenses, next_license_id
  const GENESIS := Schema([KMessages(LICENSE_TYPE), KMessages(LICENSE), KUint64])

  class GenesisState {
    var licenseTypes: seq<LicenseType>
    var licenses: seq<License>
    var nextLicenseId: uint64
    var unknownFields: bytes

    constructor ()
      ensures Contents() == Empty(GENESIS)
    {
      licenseTypes, licenses, nextLicenseId, unknownFields := [], [], 0, [];
      new;
      assert Contents().vals == Empty(GENESIS).vals;
    }

    ghost function Contents(): (m: Msg)
      reads this, licenseTypes, licenses
      ensures Typed(GENESIS, m)
    {
      Msg([Ms(LicenseTypeContents(licenseTypes)), Ms(LicenseContents(licenses)), U(nextLicenseId)], unknownFields)
    }

    // The encoding is the license types in order, the licenses in order, the next id, the
    // unknown bytes.
    lemma Layout()
      ensures EncodeMsg(GENESIS, Contents()) ==
              EncodeChildren(0, KMessages(LICENSE_TYPE), LicenseTypeContents(licenseTypes)) +
              (EncodeChildren(1, KMessages(LICENSE), LicenseContents(licenses)) +
              (NumberBytes(0x18, nextLicenseId) + unknownFields))
    {
      hide EncodeChildren, NumberBytes;
      var m := Contents();
      FieldBytes(2, KUint64, m.vals[2]);
      assert EncodeFrom(GENESIS, m, 3) == unknownFields;
      assert EncodeFrom(GENESIS, m, 2) == NumberBytes(0x18, nextLicenseId) + EncodeFrom(GENESIS, m, 3);
      assert EncodeFrom(GENESIS, m, 0)
          == EncodeChildren(0, KMessages(LICENSE_TYPE), m.vals[0].ms) + EncodeFrom(GENESIS, m, 1);
      assert EncodeFrom(GENESIS, m, 1)
          == EncodeChildren(1, KMessages(LICENSE), m.vals[1].ms) + EncodeFrom(GENESIS, m, 2);
    }

    method Size() returns (n: nat)
      ensures n == |EncodeMsg(GENESIS, Contents())|
    {
      hide EncodeChildren, NumberBytes, EncodeMsg;
      Layout();
      n := 0;
      ghost var types := LicenseTypeContents(licenseTypes);
      assert types[0..] == types;
      for j := 0 to |licenseTypes|
        invariant n + |EncodeChildren(0, KMessages(LICENSE_TYPE), types[j..])|
               == |EncodeChildren(0, KMessages(LICENSE_TYPE), types)|
      {
        ChildInFront(0, KMessages(LICENSE_TYPE), types, j);
        var l := licenseTypes[j].Size();
        n := n + 1 + l + Varint.Sov(l);
      }
      NoChildren(0, KMessages(LICENSE_TYPE), types[|types|..]);
      ghost var ls := LicenseContents(licenses);
      ghost var n0 := n;
      assert ls[0..] == ls;
      for j := 0 to |licenses|
        invariant n + |EncodeChildren(1, KMessages(LICENSE), ls[j..])|
               == n0 + |EncodeChildren(1, KMessages(LICENSE), ls)|
      {
        ChildInFront(1, KMessages(LICENSE), ls, j);
        var l := licenses[j].Size();
        n := n + 1 + l + Varint.Sov(l);
      }
      NoChildren(1, KMessages(LICENSE), ls[|ls|..]);
      n := SizeNumber(n, nextLicenseId);
      n := n + |unknownFields|;
    }

    // The licenses, last to first, each marshalled on its own and put below the cursor.
    method PutLicenses(dAtA: array<byte>, offset: nat, ghost written: multiset<nat>)
      returns (i: nat, ghost written': multiset<nat>)
      requires |EncodeChildren(1, KMessages(LICENSE), LicenseContents(licenses))| <= offset <= dAtA.Length < TWO_63
      requires written == Offsets(offset, dAtA.Length)
      modifies dAtA
      ensures i == offset - |EncodeChildren(1, KMessages(LICENSE), LicenseContents(licenses))|
      ensures dAtA[i..] == EncodeChildren(1, KMessages(LICENSE), LicenseContents(licenses)) + old(dAtA[offset..])
      ensures dAtA[..i] == old(dAtA[..i])
      ensures written' == Offsets(i, dAtA.Length)
    {
      hide *;
      ghost var kind, ms := KMessages(LICENSE), LicenseContents(licenses);
      ghost var above, was := dAtA[offset..], dAtA[..];
      NoChildren(1, kind, ms[|ms|..]);
      i, written' := offset, written;
      for iNdEx := |licenses| downto 0
        invariant 0 <= i == offset - |EncodeChildren(1, kind, ms[iNdEx..])|
        invariant dAtA[i..] == EncodeChildren(1, kind, ms[iNdEx..]) + above
        invariant dAtA[..i] == was[..i] && written' == Offsets(i, dAtA.Length)
        invariant ms == LicenseContents(licenses)
      {
        ChildInFront(1, kind, ms, iNdEx);
        var encoded, _ := licenses[iNdEx].Marshal();
        i, written' := PutElement(dAtA, i, 0x12, encoded[..], written',
                                 EncodeChildren(1, kind, ms[iNdEx + 1..]), above, was);
      }
      assert ms[0..] == ms;
    }

    // The license types in the same way.
    method PutLicenseTypes(dAtA: array<byte>, offset: nat, ghost written: multiset<nat>)
      returns (i: nat, ghost written': multiset<nat>)
      requires |EncodeChildren(0, KMessages(LICENSE_TYPE), LicenseTypeContents(licenseTypes))| <= offset
      requires offset <= dAtA.Length < TWO_63
      requires written == Offsets(offset, dAtA.Length)
      modifies dAtA
      ensures i == offset - |EncodeChildren(0, KMessages(LICENSE_TYPE), LicenseTypeContents(licenseTypes))|
      ensures dAtA[i..]
              == EncodeChildren(0, KMessages(LICENSE_TYPE), LicenseTypeContents(licenseTypes)) + old(dAtA[offset..])
      ensures dAtA[..i] == old(dAtA[..i])
      ensures written' == Offsets(i, dAtA.Length)
    {
      hide *;
      ghost var kind, ms := KMessages(LICENSE_TYPE), LicenseTypeContents(licenseTypes);
      ghost var above, was := dAtA[offset..], dAtA[..];
      NoChildren(0, kind, ms[|ms|..]);
      i, written' := offset, written;
      for iNdEx := |licenseTypes| downto 0
        invariant 0 <= i == offset - |EncodeChildren(0, kind, ms[iNdEx..])|
        invariant dAtA[i..] == EncodeChildren(0, kind, ms[iNdEx..]) + above
        invariant dAtA[..i] == was[..i] && written' == Offsets(i, dAtA.Length)
        invariant ms == LicenseTypeContents(licenseTypes)
      {
        ChildInFront(0, kind, ms, iNdEx);
        var encoded, _ := licenseTypes[iNdEx].Marshal();
        i, written' := PutElement(dAtA, i, 0x0a, encoded[..], written',
                                 EncodeChildren(0, kind, ms[iNdEx + 1..]), above, was);
      }
      assert ms[0..] == ms;
    }

    method Marshal() returns (dAtA: array<byte>, ghost written: multiset<nat>)
      requires |EncodeMsg(GENESIS, Contents())| < TWO_63
      ensures fresh(dAtA) && dAtA[..] == EncodeMsg(GENESIS, Contents())
      ensures written == Offsets(0, dAtA.Length)
    {
      hide *;
      Layout();
      ghost var types, ls := LicenseTypeContents(licenseTypes), LicenseContents(licenses);
      ghost var tail, m := NumberBytes(0x18, nextLicenseId) + unknownFields, Contents();
      ghost var a, b := EncodeChildren(0, KMessages(LICENSE_TYPE), types), EncodeChildren(1, KMessages(LICENSE), ls);
      var size := Size();
      assert size == |a| + |b| + |tail|;
      dAtA := new byte[size](_ => 0);
      var i;
      i, written := PutUnknown(dAtA, unknownFields);
      i, written := PutNumber(dAtA, i, 0x18, nextLicenseId, written);
      assert dAtA[i..] == tail && LicenseContents(licenses) == ls;
      i, written := PutLicenses(dAtA, i, written);
      assert dAtA[i..] == b + tail && LicenseTypeContents(licenseTypes) == types;
      i, written := PutLicenseTypes(dAtA, i, written);
      assert dAtA[i..] == a + (b + tail);
      assert Contents() == m;
      assert i == 0 && dAtA[i..] == dAtA[..];
    }

    lemma TypeAppended(m: Msg, before: seq<LicenseType>, child: LicenseType)
      requires licenseTypes == before + [child]
      requires m == Msg([Ms(LicenseTypeContents(before)), Ms(LicenseContents(licenses)), U(nextLicenseId)],
                        unknownFields)
      ensures Contents() == m.(vals := m.vals[0 := Ms(m.vals[0].ms + [child.Contents()])])
    {
      hide LicenseContents, LicenseTypeContents, Fits;
      AppendLicenseType(before, child);
    }

    lemma LicenseAppended(m: Msg, before: seq<License>, child: License)
      requires licenses == before + [child]
      requires m == Msg([Ms(LicenseTypeContents(licenseTypes)), Ms(LicenseContents(before)), U(nextLicenseId)],
                        unknownFields)
      ensures Contents() == m.(vals := m.vals[1 := Ms(m.vals[1].ms + [child.Contents()])])
    {
      hide LicenseContents, LicenseTypeContents, Fits;
      AppendLicense(before, child);
    }

    // Field 1: append a new element, then decode the payload into it.
    method UnmarshalLicenseType(discard: bool, dAtA: bytes, ghost m0: Msg, start: nat, wireType: nat, i: nat)
      returns (err: Option<Error>, iNdEx: nat)
      requires |dAtA| < TWO_63 && AtTag(GENESIS, discard, dAtA, m0, start, Contents(), 1, wireType, i)
      modifies this
      ensures if err.Some? then Fails(GENESIS, discard, dAtA, m0, err.value)
              else start < iNdEx <= |dAtA| && At(GENESIS, discard, dAtA, m0, iNdEx, Contents())
    {
      hide At, Decode, ReadTag, Typed, Fits, Clean, GoResult, LicenseContents, LicenseTypeContents;
      ghost var m := Contents();
      var postIndex;
      err, iNdEx, postIndex := MessageBounds(GENESIS, discard, dAtA, m0, start, m, 1, wireType, i);
      if err.Some? {
        return err, iNdEx;
      }
      var child := new LicenseType();
      ghost var before := licenseTypes;
      licenseTypes := licenseTypes + [child];
      err := child.Unmarshal(dAtA[iNdEx..postIndex], discard);
      iNdEx := postIndex;
      TypeAppended(m, before, child);
    }

    // Field 2: append a new element, then decode the payload into it.
    method UnmarshalLicense(discard: bool, dAtA: bytes, ghost m0: Msg, start: nat, wireType: nat, i: nat)
      returns (err: Option<Error>, iNdEx: nat)
      requires |dAtA| < TWO_63 && AtTag(GENESIS, discard, dAtA, m0, start, Contents(), 2, wireType, i)
      modifies this
      ensures if err.Some? then Fails(GENESIS, discard, dAtA, m0, err.value)
              else start < iNdEx <= |dAtA| && At(GENESIS, discard, dAtA, m0, iNdEx, Contents())
    {
      hide At, Decode, ReadTag, Typed, Fits, Clean, GoResult, LicenseContents, LicenseTypeContents;
      ghost var m := Contents();
      var postIndex;
      err, iNdEx, postIndex := MessageBounds(GENESIS, discard, dAtA, m0, start, m, 2, wireType, i);
      if err.Some? {
        return err, iNdEx;
      }
      var child := new License();
      ghost var before := licenses;
      licenses := licenses + [child];
      err := child.Unmarshal(dAtA[iNdEx..postIndex], discard);
      iNdEx := postIndex;
      LicenseAppended(m, before, child);
    }

    method Unmarshal(dAtA: bytes, discard: bool) returns (err: Option<Error>)
      requires |dAtA| < TWO_63
      modifies this
      ensures var r := GoResult(Decode(GENESIS, discard, dAtA, old(Contents())));
              if r.Ok? then err == None && Contents() == r.value else err == Some(r.error)
    {
      hide At, Decode, ReadTag, Typed, Fits, Clean, GoResult, LicenseContents, LicenseTypeContents;
      ghost var m0 := Contents();
      AtStart(GENESIS, discard, dAtA, m0);
      var iNdEx := 0;
      while iNdEx < |dAtA|
        invariant iNdEx <= |dAtA| && At(GENESIS, discard, dAtA, m0, iNdEx, Contents())
      {
        ghost var m := Contents();
        var preIndex := iNdEx;
        var fieldNum, wireType;
        TagFails(GENESIS, discard, dAtA, m0, preIndex, m);
        err, fieldNum, wireType, iNdEx := ReadTagAt(dAtA, iNdEx);
        if err.Some? {
          return err;
        }
        match fieldNum
        case 1 =>
          err, iNdEx := UnmarshalLicenseType(discard, dAtA, m0, preIndex, wireType, iNdEx);
          if err.Some? {
            return err;
          }
        case 2 =>
          err, iNdEx := UnmarshalLicense(discard, dAtA, m0, preIndex, wireType, iNdEx);
          if err.Some? {
            return err;
          }
        case 3 =>
          var v;
          err, v, iNdEx := UnmarshalUint64(GENESIS, discard, dAtA, m0, preIndex, m, 3, wireType, iNdEx);
          if err.Some? {
            return err;
          }
          nextLicenseId := v;
          assert Contents().vals == m.vals[2 := U(nextLicenseId)];
        case _ =>
          var unknown;
          err, unknown, iNdEx := UnmarshalUnknown(GENESIS, discard, dAtA, m0, preIndex, m, unknownFields);
          if err.Some? {
            return err;
          }
          unknownFields := unknown;
      }
      AtEnd(GENESIS, discard, dAtA, m0, Contents());
      if iNdEx > |dAtA| {
        return Some(UnexpectedEOF);
      }
      return None;
    }
  }
}
