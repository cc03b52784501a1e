// api/license/v1/license_type.pulsar.go: the size, marshal and unmarshal closures of LicenseType.
module LicenseTypeMessage {
  import opened GoInts
  import opened Wire
  import opened Codec
  import opened CodecLaws
  import opened Buffer
  import opened Decoder
  import opened Encoder
  import opened Results

  // proto/license/v1/license_type.proto: id, transferrable, max_supply, issued_count,
  // active_count, revoked_count
  const LICENSE_TYPE := Schema([KString, KBool, KString, KString, KString, KString])

  // The contents of a list of license types.
  ghost function LicenseTypeContents(ls: seq<LicenseType>): (ms: seq<Msg>)
    reads ls
    ensures |ms| == |ls| && forall j :: 0 <= j < |ls| ==> ms[j] == ls[j].Contents()
  {
    seq(|ls|, j requires 0 <= j < |ls| reads ls => ls[j].Contents())
  }

  lemma AppendLicenseType(ls: seq<LicenseType>, l: LicenseType)
    ensures LicenseTypeContents(ls + [l]) == LicenseTypeContents(ls) + [l.Contents()]
  {
  }

  class LicenseType {
    var id: bytes
    var transferrable: bool
    var maxSupply: bytes
    var issuedCount: bytes
    var activeCount: bytes
    var revokedCount: bytes
    var unknownFields: bytes

    constructor ()
      ensures Contents() == Empty(LICENSE_TYPE)
    {
      id, transferrable, maxSupply, issuedCount, activeCount, revokedCount := [], false, [], [], [], [];
      unknownFields := [];
      new;
      assert Contents().vals == Empty(LICENSE_TYPE).vals;
    }

    ghost function Contents(): (m: Msg)
      reads this
      ensures Typed(LICENSE_TYPE, m)
    {
      Msg([S(id), B(transferrable), S(maxSupply), S(issuedCount), S(activeCount), S(revokedCount)], unknownFields)
    }

    // The encoding is the plain forward concatenation of the present fields in ascending
    // field number, unknown bytes last.
    lemma Layout()
      ensures EncodeMsg(LICENSE_TYPE, Contents()) ==
              StringBytes(0x0a, id) + (BoolBytes(0x10, transferrable) + (StringBytes(0x1a, maxSupply) +
              (StringBytes(0x22, issuedCount) + (StringBytes(0x2a, activeCount) +
              (StringBytes(0x32, revokedCount) + unknownFields)))))
    {
      hide EncodeField, BoolBytes, StringBytes;
      var m := Contents();
      forall k | 0 <= k < 6 { FieldBytes(k, LICENSE_TYPE.kinds[k], m.vals[k]); }
      assert EncodeFrom(LICENSE_TYPE, m, 6) == unknownFields;
      assert EncodeFrom(LICENSE_TYPE, m, 5) == StringBytes(0x32, revokedCount) + EncodeFrom(LICENSE_TYPE, m, 6);
      assert EncodeFrom(LICENSE_TYPE, m, 4) == StringBytes(0x2a, activeCount) + EncodeFrom(LICENSE_TYPE, m, 5);
      assert EncodeFrom(LICENSE_TYPE, m, 3) == StringBytes(0x22, issuedCount) + EncodeFrom(LICENSE_TYPE, m, 4);
      assert EncodeFrom(LICENSE_TYPE, m, 2) == StringBytes(0x1a, maxSupply) + EncodeFrom(LICENSE_TYPE, m, 3);
      assert EncodeFrom(LICENSE_TYPE, m, 1) == BoolBytes(0x10, transferrable) + EncodeFrom(LICENSE_TYPE, m, 2);
    }

    method Size() returns (n: nat)
      ensures n == |EncodeMsg(LICENSE_TYPE, Contents())|
    {
      hide StringBytes;
      Layout();
      n := SizeString(0, id);
      if transferrable {
        n := n + 2;
      }
      n := SizeString(n, maxSupply);
      n := SizeString(n, issuedCount);
      n := SizeString(n, activeCount);
      n := SizeString(n, revokedCount);
      n := n + |unknownFields|;
    }

    method Marshal() returns (dAtA: array<byte>, ghost written: multiset<nat>)
      requires |EncodeMsg(LICENSE_TYPE, Contents())| < TWO_63
      ensures fresh(dAtA) && dAtA[..] == EncodeMsg(LICENSE_TYPE, Contents())
      ensures written == Offsets(0, dAtA.Length)
    {
      hide StringBytes, BoolBytes, EncodeMsg;
      Layout();
      var size := Size();
      dAtA := new byte[size](_ => 0);
      var i;
      i, written := PutUnknown(dAtA, unknownFields);
      ghost var tail := unknownFields;
      assert dAtA[i..] == tail;
      i, written := PutString(dAtA, i, 0x32, revokedCount, written);
      tail := StringBytes(0x32, revokedCount) + tail;
      i, written := PutString(dAtA, i, 0x2a, activeCount, written);
      tail := StringBytes(0x2a, activeCount) + tail;
      i, written := PutString(dAtA, i, 0x22, issuedCount, written);
      tail := StringBytes(0x22, issuedCount) + tail;
      i, written := PutString(dAtA, i, 0x1a, maxSupply, written);
      tail := StringBytes(0x1a, maxSupply) + tail;
      i, written := PutBool(dAtA, i, 0x10, transferrable, written);
      tail := BoolBytes(0x10, transferrable) + tail;
      i, written := PutString(dAtA, i, 0x0a, id, written);
      tail := StringBytes(0x0a, id) + tail;
      assert i == 0 && dAtA[i..] == dAtA[..];
    }

    method Unmarshal(dAtA: bytes, discard: bool) returns (err: Option<Error>)
      requires |dAtA| < TWO_63
      modifies this
      ensures var r := GoResult(Decode(LICENSE_TYPE, discard, dAtA, old(Contents())));
              if r.Ok? then err == None && Contents() == r.value else err == Some(r.error)
    {
      hide At, Decode, ReadTag, Typed, Fits, Clean, GoResult;
      ghost var m0 := Contents();
      AtStart(LICENSE_TYPE, discard, dAtA, m0);
      var iNdEx := 0;
      while iNdEx < |dAtA|
        invariant iNdEx <= |dAtA| && At(LICENSE_TYPE, discard, dAtA, m0, iNdEx, Contents())
      {
        ghost var m := Contents();
        var preIndex := iNdEx;
        var fieldNum, wireType;
        TagFails(LICENSE_TYPE, discard, dAtA, m0, preIndex, m);
        err, fieldNum, wireType, iNdEx := ReadTagAt(dAtA, iNdEx);
        if err.Some? {
          return err;
        }
        match fieldNum
        case 1 =>
          var s;
          err, s, iNdEx := UnmarshalString(LICENSE_TYPE, discard, dAtA, m0, preIndex, m, 1, wireType, iNdEx);
          if err.Some? {
            return err;
          }
          id := s;
          assert Contents().vals == m.vals[0 := S(id)];
        case 2 =>
          var v;
          err, v, iNdEx := UnmarshalBool(LICENSE_TYPE, discard, dAtA, m0, preIndex, m, 2, wireType, iNdEx);
          if err.Some? {
            return err;
          }
          transferrable := v;
          assert Contents().vals == m.vals[1 := B(transferrable)];
        case 3 =>
          var s;
          err, s, iNdEx := UnmarshalString(LICENSE_TYPE, discard, dAtA, m0, preIndex, m, 3, wireType, iNdEx);
          if err.Some? {
            return err;
          }
          maxSupply := s;
          assert Contents().vals == m.vals[2 := S(maxSupply)];
        case 4 =>
          var s;
          err, s, iNdEx := UnmarshalString(LICENSE_TYPE, discard, dAtA, m0, preIndex, m, 4, wireType, iNdEx);
          if err.Some? {
            return err;
          }
          issuedCount := s;
          assert Contents().vals == m.vals[3 := S(issuedCount)];
        case 5 =>
          var s;
          err, s, iNdEx := UnmarshalString(LICENSE_TYPE, discard, dAtA, m0, preIndex, m, 5, wireType, iNdEx);
          if err.Some? {
            return err;
          }
          activeCount := s;
          assert Contents().vals == m.vals[4 := S(activeCount)];
        case 6 =>
          var s;
          err, s, iNdEx := UnmarshalString(LICENSE_TYPE, discard, dAtA, m0, preIndex, m, 6, wireType, iNdEx);
          if err.Some? {
            return err;
          }
          revokedCount := s;
          assert Contents().vals == m.vals[5 := S(revokedCount)];
        case _ =>
          var unknown;
          err, unknown, iNdEx := UnmarshalUnknown(LICENSE_TYPE, discard, dAtA, m0, preIndex, m, unknownFields);
          if err.Some? {
            return err;
          }
          unknownFields := unknown;
      }
      AtEnd(LICENSE_TYPE, discard, dAtA, m0, Contents());
      if iNdEx > |dAtA| {
        return Some(UnexpectedEOF);
      }
      return None;
    }
  }
}
