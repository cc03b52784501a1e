// api/license/v1/license.pulsar.go: the size, marshal and unmarshal closures of License.
module LicenseMessage {
  import opened GoInts
  import opened Wire
  import opened Codec
  import opened CodecLaws
  import opened Buffer
  import opened Decoder
  import opened Encoder
  import opened Results

  // proto/license/v1/license.proto: id, type, holder, start_date, end_date, status, revoked_date
  const LICENSE := Schema([KUint64, KString, KString, KString, KString, KEnum, KString])

  // The contents of a list of licenses.
  ghost function LicenseContents(ls: seq<License>): (ms: seq<Msg>)
    reads ls
    ensures |ms| == |ls| && forall j :: 0 <= j < |ls| ==> ms[j] == ls[j].Contents()
  {
    seq(|ls|, j requires 0 <= j < |ls| reads ls => ls[j].Contents())
  }

  lemma AppendLicense(ls: seq<License>, l: License)
    ensures LicenseContents(ls + [l]) == LicenseContents(ls) + [l.Contents()]
  {
  }

  class License {
    var id: uint64
    var typ: bytes
    var holder: bytes
    var startDate: bytes
    var endDate: bytes
    var status: int32
    var revokedDate: bytes
    var unknownFields: bytes

    constructor ()
      ensures Contents() == Empty(LICENSE)
    {
      id, typ, holder, startDate, endDate, status, revokedDate := 0, [], [], [], [], 0, [];
      unknownFields := [];
      new;
      assert Contents().vals == Empty(LICENSE).vals;
    }

    ghost function Contents(): (m: Msg)
      reads this
      ensures Typed(LICENSE, m)
    {
      Msg([U(id), S(typ), S(holder), S(startDate), S(endDate), E(status), S(revokedDate)], unknownFields)
    }

    // The encoding is the plain forward concatenation of the present fields in ascending
    // field number, unknown bytes last.
    lemma Layout()
      ensures EncodeMsg(LICENSE, Contents()) ==
              NumberBytes(0x08, id) + (StringBytes(0x12, typ) + (StringBytes(0x1a, holder) +
              (StringBytes(0x22, startDate) + (StringBytes(0x2a, endDate) +
              (NumberBytes(0x30, SignExtend(status)) + (StringBytes(0x3a, revokedDate) + unknownFields))))))
    {
      hide EncodeField, NumberBytes, StringBytes;
      var m := Contents();
      forall k | 0 <= k < 7 { FieldBytes(k, LICENSE.kinds[k], m.vals[k]); }
      assert EncodeFrom(LICENSE, m, 7) == unknownFields;
      assert EncodeFrom(LICENSE, m, 6) == StringBytes(0x3a, revokedDate) + EncodeFrom(LICENSE, m, 7);
      assert EncodeFrom(LICENSE, m, 5) == NumberBytes(0x30, SignExtend(status)) + EncodeFrom(LICENSE, m, 6);
      assert EncodeFrom(LICENSE, m, 4) == StringBytes(0x2a, endDate) + EncodeFrom(LICENSE, m, 5);
      assert EncodeFrom(LICENSE, m, 3) == StringBytes(0x22, startDate) + EncodeFrom(LICENSE, m, 4);
      assert EncodeFrom(LICENSE, m, 2) == StringBytes(0x1a, holder) + EncodeFrom(LICENSE, m, 3);
      assert EncodeFrom(LICENSE, m, 1) == StringBytes(0x12, typ) + EncodeFrom(LICENSE, m, 2);
    }

    method Size() returns (n: nat)
      ensures n == |EncodeMsg(LICENSE, Contents())|
    {
      hide NumberBytes, StringBytes;
      Layout();
      n := SizeNumber(0, id);
      n := SizeString(n, typ);
      n := SizeString(n, holder);
      n := SizeString(n, startDate);
      n := SizeString(n, endDate);
      n := SizeNumber(n, SignExtend(status));
      n := SizeString(n, revokedDate);
      n := n + |unknownFields|;
    }

    method Marshal() returns (dAtA: array<byte>, ghost written: multiset<nat>)
      requires |EncodeMsg(LICENSE, Contents())| < TWO_63
      ensures fresh(dAtA) && dAtA[..] == EncodeMsg(LICENSE, Contents())
      ensures written == Offsets(0, dAtA.Length)
    {
      hide NumberBytes, StringBytes, EncodeMsg;
      Layout();
      var size := Size();
      dAtA := new byte[size](_ => 0);
      var i;
      i, written := PutUnknown(dAtA, unknownFields);
      ghost var tail := unknownFields;
      assert dAtA[i..] == tail;
      i, written := PutString(dAtA, i, 0x3a, revokedDate, written);
      tail := StringBytes(0x3a, revokedDate) + tail;
      i, written := PutNumber(dAtA, i, 0x30, SignExtend(status), written);
      tail := NumberBytes(0x30, SignExtend(status)) + tail;
      i, written := PutString(dAtA, i, 0x2a, endDate, written);
      tail := StringBytes(0x2a, endDate) + tail;
      i, written := PutString(dAtA, i, 0x22, startDate, written);
      tail := StringBytes(0x22, startDate) + tail;
      i, written := PutString(dAtA, i, 0x1a, holder, written);
      tail := StringBytes(0x1a, holder) + tail;
      i, written := PutString(dAtA, i, 0x12, typ, written);
      tail := StringBytes(0x12, typ) + tail;
      i, written := PutNumber(dAtA, i, 0x08, id, written);
      tail := NumberBytes(0x08, id) + tail;
      assert i == 0 && dAtA[i..] == dAtA[..];
    }

    method Unmarshal(dAtA: bytes, discard: bool) returns (err: Option<Error>)
      requires |dAtA| < TWO_63
      modifies this
      ensures var r := GoResult(Decode(LICENSE, discard, dAtA, old(Contents())));
              if r.Ok? then err == None && Contents() == r.value else err == Some(r.error)
    {
      hide At, Decode, ReadTag, Typed, Fits, Clean, GoResult;
      ghost var m0 := Contents();
      AtStart(LICENSE, discard, dAtA, m0);
      var iNdEx := 0;
      while iNdEx < |dAtA|
        invariant iNdEx <= |dAtA| && At(LICENSE, discard, dAtA, m0, iNdEx, Contents())
      {
        ghost var m := Contents();
        var preIndex := iNdEx;
        var fieldNum, wireType;
        TagFails(LICENSE, discard, dAtA, m0, preIndex, m);
        err, fieldNum, wireType, iNdEx := ReadTagAt(dAtA, iNdEx);
        if err.Some? {
          return err;
        }
        match fieldNum
        case 1 =>
          var v;
          err, v, iNdEx := UnmarshalUint64(LICENSE, discard, dAtA, m0, preIndex, m, 1, wireType, iNdEx);
          if err.Some? {
            return err;
          }
          id := v;
          assert Contents().vals == m.vals[0 := U(id)];
        case 2 =>
          var s;
          err, s, iNdEx := UnmarshalString(LICENSE, discard, dAtA, m0, preIndex, m, 2, wireType, iNdEx);
          if err.Some? {
            return err;
          }
          typ := s;
          assert Contents().vals == m.vals[1 := S(typ)];
        case 3 =>
          var s;
          err, s, iNdEx := UnmarshalString(LICENSE, discard, dAtA, m0, preIndex, m, 3, wireType, iNdEx);
          if err.Some? {
            return err;
          }
          holder := s;
          assert Contents().vals == m.vals[2 := S(holder)];
        case 4 =>
          var s;
          err, s, iNdEx := UnmarshalString(LICENSE, discard, dAtA, m0, preIndex, m, 4, wireType, iNdEx);
          if err.Some? {
            return err;
          }
          startDate := s;
          assert Contents().vals == m.vals[3 := S(startDate)];
        case 5 =>
          var s;
          err, s, iNdEx := UnmarshalString(LICENSE, discard, dAtA, m0, preIndex, m, 5, wireType, iNdEx);
          if err.Some? {
            return err;
          }
          endDate := s;
          assert Contents().vals == m.vals[4 := S(endDate)];
        case 6 =>
          var v;
          err, v, iNdEx := UnmarshalEnum(LICENSE, discard, dAtA, m0, preIndex, m, 6, wireType, iNdEx);
          if err.Some? {
            return err;
          }
          status := v;
          assert Contents().vals == m.vals[5 := E(status)];
        case 7 =>
          var s;
          err, s, iNdEx := UnmarshalString(LICENSE, discard, dAtA, m0, preIndex, m, 7, wireType, iNdEx);
          if err.Some? {
            return err;
          }
          revokedDate := s;
          assert Contents().vals == m.vals[6 := S(revokedDate)];
        case _ =>
          var unknown;
          err, unknown, iNdEx := UnmarshalUnknown(LICENSE, discard, dAtA, m0, preIndex, m, unknownFields);
          if err.Some? {
            return err;
          }
          unknownFields := unknown;
      }
      AtEnd(LICENSE, discard, dAtA, m0, Contents());
      if iNdEx > |dAtA| {
        return Some(UnexpectedEOF);
      }
      return None;
    }
  }
}
