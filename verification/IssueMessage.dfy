// api/license/v1/tx.pulsar.go: the size, marshal and unmarshal closures of IssueLicenseEntry
// and of MsgIssueLicenses, a string and a list of submessages.
module IssueMessage {
  import opened GoInts
  import opened Wire
  import opened Codec
  import opened CodecLaws
  import opened Buffer
  import opened Decoder
  import opened Encoder
  import opened Results
  import Varint

  // proto/license/v1/tx.proto: license_type_id, holder, start_date, end_date, count
  const ISSUE_ENTRY := Schema([KString, KString, KString, KString, KUint64])

  // proto/license/v1/tx.proto: issuer, entries
  const ISSUE := Schema([KString, KMessages(ISSUE_ENTRY)])

  // The contents of a list of entries.
  ghost function EntryContents(es: seq<IssueLicenseEntry>): (ms: seq<Msg>)
    reads es
    ensures |ms| == |es| && forall j :: 0 <= j < |es| ==> ms[j] == es[j].Contents()
  {
    seq(|es|, j requires 0 <= j < |es| reads es => es[j].Contents())
  }

  lemma AppendEntry(es: seq<IssueLicenseEntry>, e: IssueLicenseEntry)
    ensures EntryContents(es + [e]) == EntryContents(es) + [e.Contents()]
  {
  }

  class IssueLicenseEntry {
    var licenseTypeId: bytes
    var holder: bytes
    var startDate: bytes
    var endDate: bytes
    var count: uint64
    var unknownFields: bytes

    constructor ()
      ensures Contents() == Empty(ISSUE_ENTRY)
    {
      licenseTypeId, holder, startDate, endDate, count := [], [], [], [], 0;
      unknownFields := [];
      new;
      assert Contents().vals == Empty(ISSUE_ENTRY).vals;
    }

    ghost function Contents(): (m: Msg)
      reads this
      ensures Typed(ISSUE_ENTRY, m)
    {
      Msg([S(licenseTypeId), S(holder), S(startDate), S(endDate), U(count)], unknownFields)
    }

    // The encoding is the plain forward concatenation of the present fields in ascending
    // field number, unknown bytes last.
    lemma Layout()
      ensures EncodeMsg(ISSUE_ENTRY, Contents()) ==
              StringBytes(0x0a, licenseTypeId) + (StringBytes(0x12, holder) + (StringBytes(0x1a, startDate) +
              (StringBytes(0x22, endDate) + (NumberBytes(0x28, count) + unknownFields))))
    {
      hide EncodeField, NumberBytes, StringBytes;
      var m := Contents();
      forall k | 0 <= k < 5 { FieldBytes(k, ISSUE_ENTRY.kinds[k], m.vals[k]); }
      assert EncodeFrom(ISSUE_ENTRY, m, 5) == unknownFields;
      assert EncodeFrom(ISSUE_ENTRY, m, 4) == NumberBytes(0x28, count) + EncodeFrom(ISSUE_ENTRY, m, 5);
      assert EncodeFrom(ISSUE_ENTRY, m, 3) == StringBytes(0x22, endDate) + EncodeFrom(ISSUE_ENTRY, m, 4);
      assert EncodeFrom(ISSUE_ENTRY, m, 2) == StringBytes(0x1a, startDate) + EncodeFrom(ISSUE_ENTRY, m, 3);
      assert EncodeFrom(ISSUE_ENTRY, m, 1) == StringBytes(0x12, holder) + EncodeFrom(ISSUE_ENTRY, m, 2);
    }

    method Size() returns (n: nat)
      ensures n == |EncodeMsg(ISSUE_ENTRY, Contents())|
    {
      hide NumberBytes, StringBytes;
      Layout();
      n := SizeString(0, licenseTypeId);
      n := SizeString(n, holder);
      n := SizeString(n, startDate);
      n := SizeString(n, endDate);
      n := SizeNumber(n, count);
      n := n + |unknownFields|;
    }

    method Marshal() returns (dAtA: array<byte>, ghost written: multiset<nat>)
      requires |EncodeMsg(ISSUE_ENTRY, Contents())| < TWO_63
      ensures fresh(dAtA) && dAtA[..] == EncodeMsg(ISSUE_ENTRY, Contents())
      ensures written == Offsets(0, dAtA.Length)
    {
      hide NumberBytes, StringBytes, EncodeMsg;
      Layout();
      var size := Size();
      dAtA := new byte[size](_ => 0);
      var i;
      i, written := PutUnknown(dAtA, unknownFields);
      ghost var tail := unknownFields;
      assert dAtA[i..] == tail;
      i, written := PutNumber(dAtA, i, 0x28, count, written);
      tail := NumberBytes(0x28, count) + tail;
      i, written := PutString(dAtA, i, 0x22, endDate, written);
      tail := StringBytes(0x22, endDate) + tail;
      i, written := PutString(dAtA, i, 0x1a, startDate, written);
      tail := StringBytes(0x1a, startDate) + tail;
      i, written := PutString(dAtA, i, 0x12, holder, written);
      tail := StringBytes(0x12, holder) + tail;
      i, written := PutString(dAtA, i, 0x0a, licenseTypeId, written);
      tail := StringBytes(0x0a, licenseTypeId) + tail;
      assert i == 0 && dAtA[i..] == dAtA[..];
    }

    method Unmarshal(dAtA: bytes, discard: bool) returns (err: Option<Error>)
      requires |dAtA| < TWO_63
      modifies this
      ensures var r := GoResult(Decode(ISSUE_ENTRY, discard, dAtA, old(Contents())));
              if r.Ok? then err == None && Contents() == r.value else err == Some(r.error)
    {
      hide At, Decode, ReadTag, Typed, Fits, Clean, GoResult;
      ghost var m0 := Contents();
      AtStart(ISSUE_ENTRY, discard, dAtA, m0);
      var iNdEx := 0;
      while iNdEx < |dAtA|
        invariant iNdEx <= |dAtA| && At(ISSUE_ENTRY, discard, dAtA, m0, iNdEx, Contents())
      {
        ghost var m := Contents();
        var preIndex := iNdEx;
        var fieldNum, wireType;
        TagFails(ISSUE_ENTRY, discard, dAtA, m0, preIndex, m);
        err, fieldNum, wireType, iNdEx := ReadTagAt(dAtA, iNdEx);
        if err.Some? {
          return err;
        }
        match fieldNum
        case 1 =>
          var s;
          err, s, iNdEx := UnmarshalString(ISSUE_ENTRY, discard, dAtA, m0, preIndex, m, 1, wireType, iNdEx);
          if err.Some? {
            return err;
          }
          licenseTypeId := s;
          assert Contents().vals == m.vals[0 := S(licenseTypeId)];
        case 2 =>
          var s;
          err, s, iNdEx := UnmarshalString(ISSUE_ENTRY, discard, dAtA, m0, preIndex, m, 2, wireType, iNdEx);
          if err.Some? {
            return err;
          }
          holder := s;
          assert Contents().vals == m.vals[1 := S(holder)];
        case 3 =>
          var s;
          err, s, iNdEx := UnmarshalString(ISSUE_ENTRY, discard, dAtA, m0, preIndex, m, 3, wireType, iNdEx);
          if err.Some? {
            return err;
          }
          startDate := s;
          assert Contents().vals == m.vals[2 := S(startDate)];
        case 4 =>
          var s;
          err, s, iNdEx := UnmarshalString(ISSUE_ENTRY, discard, dAtA, m0, preIndex, m, 4, wireType, iNdEx);
          if err.Some? {
            return err;
          }
          endDate := s;
          assert Contents().vals == m.vals[3 := S(endDate)];
        case 5 =>
          var v;
          err, v, iNdEx := UnmarshalUint64(ISSUE_ENTRY, discard, dAtA, m0, preIndex, m, 5, wireType, iNdEx);
          if err.Some? {
            return err;
          }
          count := v;
          assert Contents().vals == m.vals[4 := U(count)];
        case _ =>
          var unknown;
          err, unknown, iNdEx := UnmarshalUnknown(ISSUE_ENTRY, discard, dAtA, m0, preIndex, m, unknownFields);
          if err.Some? {
            return err;
          }
          unknownFields := unknown;
      }
      AtEnd(ISSUE_ENTRY, discard, dAtA, m0, Contents());
      if iNdEx > |dAtA| {
        return Some(UnexpectedEOF);
      }
      return None;
    }
  }

  class MsgIssueLicenses {
    var issuer: bytes
    var entries: seq<IssueLicenseEntry>
    var unknownFields: bytes

    constructor ()
      ensures Contents() == Empty(ISSUE)
    {
      issuer, entries, unknownFields := [], [], [];
      new;
      assert Contents().vals == Empty(ISSUE).vals;
    }

    ghost function Contents(): (m: Msg)
      reads this, entries
      ensures Typed(ISSUE, m)
    {
      Msg([S(issuer), Ms(EntryContents(entries))], unknownFields)
    }

    // The encoding is the issuer, the entries in order, the unknown bytes.
    lemma Layout()
      ensures EncodeMsg(ISSUE, Contents()) ==
              StringBytes(0x0a, issuer) +
              (EncodeChildren(1, KMessages(ISSUE_ENTRY), EntryContents(entries)) + unknownFields)
    {
      hide EncodeChildren, StringBytes;
      var m := Contents();
      FieldBytes(0, KString, m.vals[0]);
      assert EncodeFrom(ISSUE, m, 2) == unknownFields;
      assert EncodeFrom(ISSUE, m, 0) == StringBytes(0x0a, issuer) + EncodeFrom(ISSUE, m, 1);
      assert EncodeFrom(ISSUE, m, 1)
          == EncodeChildren(1, KMessages(ISSUE_ENTRY), m.vals[1].ms) + EncodeFrom(ISSUE, m, 2);
    }

    method Size() returns (n: nat)
      ensures n == |EncodeMsg(ISSUE, Contents())|
    {
      hide EncodeChildren, StringBytes, EncodeMsg;
      Layout();
      n := SizeString(0, issuer);
      ghost var n0, es := n, EntryContents(entries);
      assert es[0..] == es;
      for j := 0 to |entries|
        invariant n + |EncodeChildren(1, KMessages(ISSUE_ENTRY), es[j..])|
               == n0 + |EncodeChildren(1, KMessages(ISSUE_ENTRY), es)|
      {
        ChildInFront(1, KMessages(ISSUE_ENTRY), es, j);
        var l := entries[j].Size();
        n := n + 1 + l + Varint.Sov(l);
      }
      NoChildren(1, KMessages(ISSUE_ENTRY), es[|es|..]);
      n := n + |unknownFields|;
    }

    // The entries, last to first, each marshalled on its own and put below the cursor.
    method PutEntries(dAtA: array<byte>, offset: nat, ghost written: multiset<nat>)
      returns (i: nat, ghost written': multiset<nat>)
      requires |EncodeChildren(1, KMessages(ISSUE_ENTRY), EntryContents(entries))| <= offset <= dAtA.Length < TWO_63
      requires written == Offsets(offset, dAtA.Length)
      modifies dAtA
      ensures i == offset - |EncodeChildren(1, KMessages(ISSUE_ENTRY), EntryContents(entries))|
      ensures dAtA[i..] == EncodeChildren(1, KMessages(ISSUE_ENTRY), EntryContents(entries)) + old(dAtA[offset..])
      ensures dAtA[..i] == old(dAtA[..i])
      ensures written' == Offsets(i, dAtA.Length)
    {
      hide *;
      ghost var kind, ms, above, was := KMessages(ISSUE_ENTRY), EntryContents(entries), dAtA[offset..], dAtA[..];
      NoChildren(1, kind, ms[|ms|..]);
      i, written' := offset, written;
      for iNdEx := |entries| downto 0
        invariant 0 <= i == offset - |EncodeChildren(1, kind, ms[iNdEx..])|
        invariant dAtA[i..] == EncodeChildren(1, kind, ms[iNdEx..]) + above
        invariant dAtA[..i] == was[..i] && written' == Offsets(i, dAtA.Length)
        invariant ms == EntryContents(entries)
      {
        ChildInFront(1, kind, ms, iNdEx);
        var encoded, _ := entries[iNdEx].Marshal();
        i, written' := PutElement(dAtA, i, 0x12, encoded[..], written',
                                 EncodeChildren(1, kind, ms[iNdEx + 1..]), above, was);
      }
      assert ms[0..] == ms;
    }

    method Marshal() returns (dAtA: array<byte>, ghost written: multiset<nat>)
      requires |EncodeMsg(ISSUE, Contents())| < TWO_63
      ensures fresh(dAtA) && dAtA[..] == EncodeMsg(ISSUE, Contents())
      ensures written == Offsets(0, dAtA.Length)
    {
      hide *;
      Layout();
      ghost var es, m := EntryContents(entries), Contents();
      ghost var a, b := StringBytes(0x0a, issuer), EncodeChildren(1, KMessages(ISSUE_ENTRY), es);
      var size := Size();
      assert size == |a| + |b| + |unknownFields|;
      dAtA := new byte[size](_ => 0);
      var i;
      i, written := PutUnknown(dAtA, unknownFields);
      assert dAtA[i..] == unknownFields && EntryContents(entries) == es;
      i, written := PutEntries(dAtA, i, written);
      assert dAtA[i..] == b + unknownFields;
      i, written := PutString(dAtA, i, 0x0a, issuer, written);
      assert dAtA[i..] == a + (b + unknownFields);
      assert Contents() == m;
      assert i == 0 && dAtA[i..] == dAtA[..];
    }

    // Field 2: append a new element, then decode the payload into it.
    method UnmarshalEntry(discard: bool, dAtA: bytes, ghost m0: Msg, start: nat, wireType: nat, i: nat)
      returns (err: Option<Error>, iNdEx: nat)
      requires |dAtA| < TWO_63 && AtTag(ISSUE, discard, dAtA, m0, start, Contents(), 2, wireType, i)
      modifies this
      ensures if err.Some? then Fails(ISSUE, discard, dAtA, m0, err.value)
              else start < iNdEx <= |dAtA| && At(ISSUE, discard, dAtA, m0, iNdEx, Contents())
    {
      hide At, Decode, ReadTag, Typed, Fits, Clean, GoResult, EntryContents;
      ghost var m := Contents();
      var postIndex;
      err, iNdEx, postIndex := MessageBounds(ISSUE, discard, dAtA, m0, start, m, 2, wireType, i);
      if err.Some? {
        return err, iNdEx;
      }
      var child := new IssueLicenseEntry();
      ghost var before := entries;
      entries := entries + [child];
      err := child.Unmarshal(dAtA[iNdEx..postIndex], discard);
      iNdEx := postIndex;
      assert EntryContents(before) == m.vals[1].ms;
      AppendEntry(before, child);
      assert Contents().vals == m.vals[1 := Ms(m.vals[1].ms + [child.Contents()])];
    }

    method Unmarshal(dAtA: bytes, discard: bool) returns (err: Option<Error>)
      requires |dAtA| < TWO_63
      modifies this
      ensures var r := GoResult(Decode(ISSUE, discard, dAtA, old(Contents())));
              if r.Ok? then err == None && Contents() == r.value else err == Some(r.error)
    {
      hide At, Decode, ReadTag, Typed, Fits, Clean, GoResult, EntryContents;
      ghost var m0 := Contents();
      AtStart(ISSUE, discard, dAtA, m0);
      var iNdEx := 0;
      while iNdEx < |dAtA|
        invariant iNdEx <= |dAtA| && At(ISSUE, discard, dAtA, m0, iNdEx, Contents())
      {
        ghost var m := Contents();
        var preIndex := iNdEx;
        var fieldNum, wireType;
        TagFails(ISSUE, discard, dAtA, m0, preIndex, m);
        err, fieldNum, wireType, iNdEx := ReadTagAt(dAtA, iNdEx);
        if err.Some? {
          return err;
        }
        match fieldNum
        case 1 =>
          var s;
          err, s, iNdEx := UnmarshalString(ISSUE, discard, dAtA, m0, preIndex, m, 1, wireType, iNdEx);
          if err.Some? {
            return err;
          }
          issuer := s;
          assert Contents().vals == m.vals[0 := S(issuer)];
        case 2 =>
          err, iNdEx := UnmarshalEntry(discard, dAtA, m0, preIndex, wireType, iNdEx);
          if err.Some? {
            return err;
          }
        case _ =>
          var unknown;
          err, unknown, iNdEx := UnmarshalUnknown(ISSUE, discard, dAtA, m0, preIndex, m, unknownFields);
          if err.Some? {
            return err;
          }
          unknownFields := unknown;
      }
      AtEnd(ISSUE, discard, dAtA, m0, Contents());
      if iNdEx > |dAtA| {
        return Some(UnexpectedEOF);
      }
      return None;
    }
  }
}
