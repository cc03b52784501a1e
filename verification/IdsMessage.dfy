// api/license/v1/tx.pulsar.go: the size, marshal and unmarshal closures of
// MsgIssueLicensesResponse, a packed list of ids. MsgRevokeLicensesResponse has the same
// closures under another name.
module IdsMessage {
  import opened GoInts
  import opened Wire
  import opened Codec
  import opened CodecLaws
  import opened Buffer
  import opened Decoder
  import opened Encoder
  import opened Results
  import Varint

  // proto/license/v1/tx.proto: ids
  const IDS := Schema([KPacked])

  // ---- Facts about packed payloads ----

  lemma {:induction false} EncodeIdsSplit(ids: seq<uint64>, j: nat)
    requires j < |ids|
    ensures EncodeIds(ids[..j + 1]) == EncodeIds(ids[..j]) + Varint.Encode(ids[j])
    ensures EncodeIds(ids[j..]) == Varint.Encode(ids[j]) + EncodeIds(ids[j + 1..])
  {
    assert ids[j..][1..] == ids[j + 1..];
    if j > 0 {
      EncodeIdsSplit(ids[1..], j - 1);
      assert ids[..j + 1][1..] == ids[1..][..j] && ids[..j][1..] == ids[1..][..j - 1];
    } else {
      assert ids[..1] == [ids[0]] && ids[..1][1..] == [];
    }
  }

  function Prepend(done: seq<uint64>, r: Result<(seq<uint64>, nat)>): Result<(seq<uint64>, nat)> {
    match r
    case Ok((ids, j)) => Ok((done + ids, j))
    case Err(e) => Err(e)
  }

  // One turn of the packed read loop.
  lemma {:induction false} PackedTurn(b: bytes, i: nat, post: nat, done: seq<uint64>)
    requires i < post <= |b|
    ensures Varint.Read(b[i..]).Err? ==> Prepend(done, ReadPacked(b, i, post)) == Err(Varint.Read(b[i..]).error)
    ensures Varint.Read(b[i..]).Ok? ==>
              var (v, n) := Varint.Read(b[i..]).value;
              Prepend(done, ReadPacked(b, i, post)) == Prepend(done + [v], ReadPacked(b, i + n, post))
  {
    hide Varint.Read;
    if Varint.Read(b[i..]).Ok? {
      var (v, n) := Varint.Read(b[i..]).value;
      var r := ReadPacked(b, i + n, post);
      if r.Ok? {
        assert done + ([v] + r.value.0) == done + [v] + r.value.0;
      }
    }
  }

  // What one record of the list does, by wire type.
  lemma IdsRecord(discard: bool, dAtA: bytes, m0: Msg, i: nat, m: Msg, wireType: nat, n: nat)
    requires At(IDS, discard, dAtA, m0, i, m) && i < |dAtA| && |m.vals| == 1 && m.vals[0].Us?
    requires ReadTag(dAtA[i..]) == Ok((1, wireType, n))
    ensures wireType != 0 && wireType != 2 ==> Fails(IDS, discard, dAtA, m0, WrongWireType(1, wireType))
    ensures wireType == 0 ==>
              var r := Varint.Read(dAtA[i + n..]);
              if r.Err? then Fails(IDS, discard, dAtA, m0, r.error)
              else At(IDS, discard, dAtA, m0, i + n + r.value.1, AppendIds(m, 0, [r.value.0]))
    ensures wireType == 2 ==>
              var r := ReadLength(dAtA[i..], n);
              if r.Err? then Fails(IDS, discard, dAtA, m0, Settle(i, r.error))
              else
                var q := ReadPacked(dAtA[i..], r.value.0, r.value.1);
                if q.Err? then Fails(IDS, discard, dAtA, m0, Settle(i, q.error))
                else At(IDS, discard, dAtA, m0, i + q.value.1, AppendIds(m, 0, q.value.0))
  {
    hide Varint.Read, ReadTag, ReadLength, ReadPacked;
    assert dAtA[i..][n..] == dAtA[i + n..];
    if wireType == 0 {
      var r := Varint.Read(dAtA[i + n..]);
      if r.Err? {
        StepFails(IDS, discard, dAtA, m0, i, m, r.error);
      } else {
        ApplyOutcome(IDS, discard, dAtA, m0, i, m, Number(0, r.value.0), n + r.value.1);
      }
    } else if wireType == 2 {
      var r := ReadLength(dAtA[i..], n);
      if r.Err? {
        StepFails(IDS, discard, dAtA, m0, i, m, r.error);
      } else {
        var q := ReadPacked(dAtA[i..], r.value.0, r.value.1);
        if q.Err? {
          StepFails(IDS, discard, dAtA, m0, i, m, q.error);
        } else {
          ApplyOutcome(IDS, discard, dAtA, m0, i, m, Pack(0, q.value.0), q.value.1);
        }
      }
    } else {
      StepFails(IDS, discard, dAtA, m0, i, m, WrongWireType(1, wireType));
    }
  }

  lemma {:induction false} ReadPackedErrors(b: bytes, i: nat, post: nat)
    requires i <= |b| && post <= |b|
    ensures ReadPacked(b, i, post).Err? ==> ReadPacked(b, i, post).error in {IntOverflow, UnexpectedEOF}
    decreases |b| - i
  {
    hide Varint.Read;
    if i < post && Varint.Read(b[i..]).Ok? {
      ReadPackedErrors(b, i + Varint.Read(b[i..]).value.1, post);
    }
  }

  // The estimate of how many ids the payload holds.
  method ElementCount(payload: bytes) returns (count: nat)
    ensures count == CountTerminators(payload)
  {
    count := 0;
    for j := 0 to |payload|
      invariant count == CountTerminators(payload[..j])
    {
      CountSplit(payload[..j + 1], j);
      assert payload[..j + 1][..j] == payload[..j] && payload[..j + 1][j..] == [payload[j]];
      if payload[j] < 128 {
        count := count + 1;
      }
    }
    assert payload[..|payload|] == payload;
  }

  // The packed loop reads varints up to postIndex, each bounded by the buffer only. The ids
  // appended are as many as the estimate, or one more when the payload's last varint does
  // not end inside it.
  method ReadIds(dAtA: bytes, start: nat, i: nat, postIndex: nat, ids: seq<uint64>)
    returns (err: Option<Error>, ids': seq<uint64>, elementCount: nat, iNdEx: nat)
    requires start <= i <= postIndex <= |dAtA|
    ensures var r := ReadPacked(dAtA[start..], i - start, postIndex - start);
            if r.Err? then err == Some(r.error)
            else err == None && ids' == ids + r.value.0 && iNdEx == start + r.value.1
    ensures err == None ==>
              |ids'| == |ids| + elementCount + (if i < postIndex && dAtA[postIndex - 1] >= 128 then 1 else 0)
  {
    hide Varint.Read, ReadPacked, CountTerminators;
    ghost var b := dAtA[start..];
    assert b[i - start..postIndex - start] == dAtA[i..postIndex];
    elementCount := ElementCount(dAtA[i..postIndex]);
    ids', iNdEx, err := ids, i, None;
    ghost var done := [];
    assert Prepend([], ReadPacked(b, i - start, postIndex - start)) == ReadPacked(b, i - start, postIndex - start) by {
      var r := ReadPacked(b, i - start, postIndex - start);
      if r.Ok? { assert [] + r.value.0 == r.value.0; }
    }
    while iNdEx < postIndex
      invariant i <= iNdEx <= |dAtA| && ids' == ids + done
      invariant Prepend(done, ReadPacked(b, iNdEx - start, postIndex - start))
             == ReadPacked(b, i - start, postIndex - start)
      decreases |dAtA| - iNdEx
    {
      PackedTurn(b, iNdEx - start, postIndex - start, done);
      assert b[iNdEx - start..] == dAtA[iNdEx..];
      var v;
      err, v, iNdEx := ReadUint64(dAtA, iNdEx);
      if err.Some? {
        return;
      }
      ids' := ids' + [v];
      done := done + [v];
    }
    PackedEnd(b, iNdEx - start, postIndex - start);
    err := None;
    PackedCount(b, i - start, postIndex - start);
  }

  lemma PackedEnd(b: bytes, i: nat, post: nat)
    requires post <= i <= |b|
    ensures ReadPacked(b, i, post) == Ok(([], i))
  {
  }

  class MsgIssueLicensesResponse {
    var ids: seq<uint64>
    var unknownFields: bytes

    constructor ()
      ensures Contents() == Empty(IDS)
    {
      ids, unknownFields := [], [];
      new;
      assert Contents().vals == Empty(IDS).vals;
    }

    ghost function Contents(): (m: Msg)
      reads this
      ensures Typed(IDS, m)
    {
      Msg([Us(ids)], unknownFields)
    }

    // A present list is one packed record.
    lemma Layout()
      ensures EncodeMsg(IDS, Contents()) == StringBytes(0x0a, EncodeIds(ids)) + unknownFields
      ensures |ids| > 0 <==> |EncodeIds(ids)| > 0
    {
      OneByteTag(0, 2);
      assert EncodeFrom(IDS, Contents(), 1) == unknownFields;
    }

    // The first pass: what the ids take in all.
    method PackedSize() returns (l: nat)
      ensures l == |EncodeIds(ids)|
    {
      l := 0;
      for j := 0 to |ids|
        invariant l == |EncodeIds(ids[..j])|
      {
        EncodeIdsSplit(ids, j);
        l := l + Varint.Sov(ids[j]);
      }
      assert ids[..|ids|] == ids;
    }

    method Size() returns (n: nat)
      ensures n == |EncodeMsg(IDS, Contents())|
    {
      Layout();
      n := 0;
      if |ids| > 0 {
        var l := PackedSize();
        n := n + 1 + Varint.Sov(l) + l;
      }
      n := n + |unknownFields|;
    }

    // The two-pass packed writer: the sum of the sizes, then forward writes from j1.
    method PutIds(dAtA: array<byte>, offset: nat, ghost written: multiset<nat>)
      returns (i: nat, pksize2: nat, ghost written': multiset<nat>)
      requires |EncodeIds(ids)| <= offset <= dAtA.Length && written == Offsets(offset, dAtA.Length)
      modifies dAtA
      ensures pksize2 == |EncodeIds(ids)| && i == offset - pksize2
      ensures dAtA[i..] == EncodeIds(ids) + old(dAtA[offset..]) && dAtA[..i] == old(dAtA[..i])
      ensures written' == Offsets(i, dAtA.Length)
    {
      hide EncodeIds, Varint.Encode, Varint.Sov, Offsets;
      pksize2 := PackedSize();
      i := offset - pksize2;
      var j1 := i;
      NoIds(ids[..0], ids[|ids|..]);
      OffsetsNext(i, i);
      written' := written;
      for k := 0 to |ids|
        invariant i <= j1 && j1 + |EncodeIds(ids[k..])| == offset
        invariant dAtA[i..j1] == EncodeIds(ids[..k])
        invariant dAtA[..i] == old(dAtA[..i]) && dAtA[offset..] == old(dAtA[offset..])
        invariant written' == written + Offsets(i, j1)
      {
        EncodeIdsSplit(ids, k);
        ghost var before, done, above := dAtA[..j1], dAtA[i..j1], dAtA[offset..];
        ghost var j0 := j1;
        j1, written' := WriteVarint(dAtA, j1, ids[k], written');
        OffsetsJoin(i, j0, j1);
        assert dAtA[..i] == before[..i] && dAtA[i..j0] == before[i..] == done;
        assert dAtA[i..j1] == done + Varint.Encode(ids[k]);
        assert dAtA[offset..] == dAtA[j1..][offset - j1..] == above;
      }
      assert ids[..|ids|] == ids;
      assert j1 == offset;
      OffsetsJoin(i, offset, dAtA.Length);
      ArrayTail(dAtA, i, offset);
    }

    lemma NoIds(a: seq<uint64>, b: seq<uint64>)
      requires a == [] && b == []
      ensures EncodeIds(a) == [] && EncodeIds(b) == []
    {
    }

    // A present list is written as one packed record: the ids, their size and the tag.
    method PutPacked(dAtA: array<byte>, offset: nat, ghost written: multiset<nat>)
      returns (i: nat, ghost written': multiset<nat>)
      requires |StringBytes(0x0a, EncodeIds(ids))| <= offset <= dAtA.Length < TWO_63
      requires written == Offsets(offset, dAtA.Length)
      modifies dAtA
      ensures i == offset - |StringBytes(0x0a, EncodeIds(ids))|
      ensures dAtA[i..] == StringBytes(0x0a, EncodeIds(ids)) + old(dAtA[offset..])
      ensures dAtA[..i] == old(dAtA[..i])
      ensures written' == Offsets(i, dAtA.Length)
    {
      hide EncodeIds, Varint.Encode, Offsets;
      Layout();
      ghost var above := dAtA[offset..];
      i, written' := offset, written;
      if |ids| > 0 {
        var pksize2;
        i, pksize2, written' := PutIds(dAtA, i, written');
        i, written' := PutVarint(dAtA, i, 0x0a, pksize2, written');
        Associative([0x0a] + Varint.Encode(pksize2), EncodeIds(ids), above);
      }
    }

    method Marshal() returns (dAtA: array<byte>, ghost written: multiset<nat>)
      requires |EncodeMsg(IDS, Contents())| < TWO_63
      ensures fresh(dAtA) && dAtA[..] == EncodeMsg(IDS, Contents())
      ensures written == Offsets(0, dAtA.Length)
    {
      hide EncodeIds, EncodeMsg, StringBytes;
      Layout();
      var size := Size();
      dAtA := new byte[size](_ => 0);
      var i;
      i, written := PutUnknown(dAtA, unknownFields);
      i, written := PutPacked(dAtA, i, written);
      assert i == 0 && dAtA[i..] == dAtA[..];
    }

    method Unmarshal(dAtA: bytes, discard: bool) returns (err: Option<Error>)
      requires |dAtA| < TWO_63
      modifies this
      ensures var r := GoResult(Decode(IDS, discard, dAtA, old(Contents())));
              if r.Ok? then err == None && Contents() == r.value else err == Some(r.error)
    {
      hide At, Decode, ReadTag, ReadLength, ReadPacked, Varint.Read, Typed;
      ghost var m0 := Contents();
      AtStart(IDS, discard, dAtA, m0);
      var iNdEx := 0;
      while iNdEx < |dAtA|
        invariant iNdEx <= |dAtA| && At(IDS, discard, dAtA, m0, iNdEx, Contents())
      {
        ghost var m := Contents();
        var preIndex := iNdEx;
        var fieldNum, wireType;
        TagFails(IDS, discard, dAtA, m0, preIndex, m);
        err, fieldNum, wireType, iNdEx := ReadTagAt(dAtA, iNdEx);
        if err.Some? {
          return err;
        }
        match fieldNum
        case 1 =>
          IdsRecord(discard, dAtA, m0, preIndex, m, wireType, iNdEx - preIndex);
          if wireType == 0 {
            var v;
            err, v, iNdEx := ReadUint64(dAtA, iNdEx);
            if err.Some? {
              return err;
            }
            ids := ids + [v];
          } else if wireType == 2 {
            var postIndex;
            err, iNdEx, postIndex := ReadMessageBounds(dAtA, preIndex, iNdEx);
            if err.Some? {
              return err;
            }
            ReadPackedErrors(dAtA[preIndex..], iNdEx - preIndex, postIndex - preIndex);
            var more, elementCount;
            err, more, elementCount, iNdEx := ReadIds(dAtA, preIndex, iNdEx, postIndex, ids);
            if err.Some? {
              return err;
            }
            ids := more;
          } else {
            return Some(WrongWireType(1, wireType));
          }
          assert Contents() == AppendIds(m, 0, ids[|m.vals[0].us|..]);
        case _ =>
          var unknown;
          err, unknown, iNdEx := UnmarshalUnknown(IDS, discard, dAtA, m0, preIndex, m, unknownFields);
          if err.Some? {
            return err;
          }
          unknownFields := unknown;
      }
      AtEnd(IDS, discard, dAtA, m0, Contents());
      if iNdEx > |dAtA| {
        return Some(UnexpectedEOF);
      }
      return None;
    }
  }
}
