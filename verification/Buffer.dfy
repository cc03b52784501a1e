// The statement patterns that the generated closures repeat for every field, each written
// once: filling a byte array backwards from its end, and reading a buffer forwards.
module Buffer {
  import opened GoInts
  import opened Wire
  import opened Results
  import Varint

  // ---- Writing: the cursor only moves down, and what is above it never changes ----

  lemma Associative(a: bytes, b: bytes, c: bytes)
    ensures a + (b + c) == (a + b) + c
  {
  }

  lemma ArrayTail(a: array<byte>, i: nat, j: nat)
    requires i <= j <= a.Length
    ensures a[i..] == a[i..j] + a[j..]
  {
  }

  // Which offsets were written, and how often: every assignment to a buffer adds its offset.
  // Offsets(lo, hi) is each offset from lo up to hi once.
  ghost function Offsets(lo: nat, hi: nat): multiset<nat>
    requires lo <= hi
    decreases hi - lo
  {
    if lo == hi then multiset{} else multiset{lo} + Offsets(lo + 1, hi)
  }

  lemma {:induction false} OffsetsOnce(lo: nat, hi: nat, k: nat)
    requires lo <= hi
    ensures Offsets(lo, hi)[k] == if lo <= k < hi then 1 else 0
    decreases hi - lo
  {
    if lo < hi {
      OffsetsOnce(lo + 1, hi, k);
    }
  }

  lemma {:induction false} OffsetsJoin(lo: nat, mid: nat, hi: nat)
    requires lo <= mid <= hi
    ensures Offsets(lo, mid) + Offsets(mid, hi) == Offsets(lo, hi)
    decreases mid - lo
  {
    if lo < mid {
      OffsetsJoin(lo + 1, mid, hi);
    }
  }

  lemma OffsetsNext(lo: nat, hi: nat)
    requires lo <= hi
    ensures Offsets(lo, lo) == multiset{} && Offsets(lo, hi + 1) == Offsets(lo, hi) + multiset{hi}
  {
    OffsetsJoin(lo, hi, hi + 1);
    assert Offsets(hi, hi + 1) == multiset{hi} + Offsets(hi + 1, hi + 1);
  }

  // The one place where a buffer is written.
  method WriteByte(dAtA: array<byte>, j: nat, b: byte, ghost written: multiset<nat>)
    returns (ghost written': multiset<nat>)
    requires j < dAtA.Length
    modifies dAtA
    ensures dAtA[j] == b && forall k :: 0 <= k < dAtA.Length && k != j ==> dAtA[k] == old(dAtA[k])
    ensures written' == written + multiset{j}
  {
    dAtA[j] := b;
    written' := written + multiset{j};
  }

  // Copying a string or payload to its slot.
  method CopyAt(dAtA: array<byte>, i: nat, src: bytes, ghost written: multiset<nat>)
    returns (ghost written': multiset<nat>)
    requires i + |src| <= dAtA.Length
    modifies dAtA
    ensures dAtA[i..] == src + old(dAtA[i + |src|..])
    ensures dAtA[..i] == old(dAtA[..i])
    ensures written' == written + Offsets(i, i + |src|)
  {
    hide Offsets;
    written' := written;
    OffsetsNext(i, i);
    for j := 0 to |src|
      invariant dAtA[i..i + j] == src[..j]
      invariant forall k :: 0 <= k < i || i + j <= k < dAtA.Length ==> dAtA[k] == old(dAtA[k])
      invariant written' == written + Offsets(i, i + j)
    {
      OffsetsNext(i, i + j);
      ghost var done := dAtA[i..i + j];
      written' := WriteByte(dAtA, i + j, src[j], written');
      assert dAtA[i..i + j + 1] == done + [src[j]];
    }
    assert src[..|src|] == src;
    assert dAtA[i + |src|..] == old(dAtA[i + |src|..]);
    ArrayTail(dAtA, i, i + |src|);
  }

  // Where every marshal begins: the unknown bytes fill the end of the buffer.
  method PutUnknown(dAtA: array<byte>, unknown: bytes) returns (i: nat, ghost written: multiset<nat>)
    requires |unknown| <= dAtA.Length
    modifies dAtA
    ensures i == dAtA.Length - |unknown| && dAtA[i..] == unknown && dAtA[..i] == old(dAtA[..i])
    ensures written == Offsets(i, dAtA.Length)
  {
    i := dAtA.Length;
    i := i - |unknown|;
    written := CopyAt(dAtA, i, unknown, multiset{});
    assert dAtA[i + |unknown|..] == [];
  }

  // runtime.EncodeVarint: v written so that it ends just below offset; returns where it starts.
  method EncodeVarint(dAtA: array<byte>, offset: nat, v: uint64, ghost written: multiset<nat>)
    returns (base: nat, ghost written': multiset<nat>)
    requires Varint.Sov(v) <= offset <= dAtA.Length && written == Offsets(offset, dAtA.Length)
    modifies dAtA
    ensures base == offset - Varint.Sov(v)
    ensures dAtA[base..] == Varint.Encode(v) + old(dAtA[offset..])
    ensures dAtA[..base] == old(dAtA[..base])
    ensures written' == Offsets(base, dAtA.Length)
  {
    hide Offsets;
    base := offset - Varint.Sov(v);
    var j;
    j, written' := WriteVarint(dAtA, base, v, written);
    ArrayTail(dAtA, base, offset);
    OffsetsJoin(base, offset, dAtA.Length);
  }

  // The varint loop, seven bits a byte, least significant group first.
  method WriteVarint(dAtA: array<byte>, start: nat, v: uint64, ghost written: multiset<nat>)
    returns (j: nat, ghost written': multiset<nat>)
    requires start + Varint.Sov(v) <= dAtA.Length
    modifies dAtA
    ensures j == start + Varint.Sov(v)
    ensures dAtA[start..j] == Varint.Encode(v)
    ensures dAtA[..start] == old(dAtA[..start]) && dAtA[j..] == old(dAtA[j..])
    ensures written' == written + Offsets(start, j)
  {
    hide Varint.Encode, Varint.Sov, Offsets;
    var num := v;
    j, written' := start, written;
    OffsetsNext(start, start);
    assert dAtA[start..j] + Varint.Encode(num) == Varint.Encode(v);
    while num >= 128
      invariant start <= j && start + Varint.Sov(v) == j + Varint.Sov(num)
      invariant dAtA[start..j] + Varint.Encode(num) == Varint.Encode(v)
      invariant forall k :: 0 <= k < start || j <= k < dAtA.Length ==> dAtA[k] == old(dAtA[k])
      invariant written' == written + Offsets(start, j)
    {
      ghost var done := dAtA[start..j];
      OneByteDone(done, num);
      OffsetsNext(start, j);
      written' := WriteByte(dAtA, j, num % 128 + 128, written');
      assert dAtA[start..j + 1] == done + [num % 128 + 128];
      num := num / 128;
      j := j + 1;
    }
    ghost var done := dAtA[start..j];
    OneByteDone(done, num);
    OffsetsNext(start, j);
    written' := WriteByte(dAtA, j, num, written');
    assert dAtA[start..j + 1] == done + [num];
    j := j + 1;
  }

  // What one turn of the loop leaves to write.
  lemma OneByteDone(done: bytes, num: nat)
    ensures num >= 128 ==>
              && done + Varint.Encode(num) == (done + [num % 128 + 128]) + Varint.Encode(num / 128)
              && Varint.Sov(num) == 1 + Varint.Sov(num / 128)
    ensures num < 128 ==> done + Varint.Encode(num) == done + [num] && Varint.Sov(num) == 1
  {
    Varint.EncodeTurn(num);
    if num >= 128 {
      Associative(done, [num % 128 + 128], Varint.Encode(num / 128));
    }
  }

  // One byte just below the cursor.
  method PutByte(dAtA: array<byte>, offset: nat, b: byte, ghost written: multiset<nat>)
    returns (i: nat, ghost written': multiset<nat>)
    requires 0 < offset <= dAtA.Length && written == Offsets(offset, dAtA.Length)
    modifies dAtA
    ensures i == offset - 1
    ensures dAtA[i..] == [b] + old(dAtA[offset..])
    ensures dAtA[..i] == old(dAtA[..i])
    ensures written' == Offsets(i, dAtA.Length)
  {
    i := offset - 1;
    written' := WriteByte(dAtA, i, b, written);
  }

  // A payload, its length in front of it, and the tag in front of both.
  method PutDelimited(dAtA: array<byte>, offset: nat, tag: byte, payload: bytes, ghost written: multiset<nat>)
    returns (i: nat, ghost written': multiset<nat>)
    requires 1 + Varint.Sov(|payload|) + |payload| <= offset <= dAtA.Length < TWO_63
    requires written == Offsets(offset, dAtA.Length)
    modifies dAtA
    ensures i == offset - (1 + Varint.Sov(|payload|) + |payload|)
    ensures dAtA[i..] == [tag] + Varint.Encode(|payload|) + payload + old(dAtA[offset..])
    ensures dAtA[..i] == old(dAtA[..i])
    ensures written' == Offsets(i, dAtA.Length)
  {
    hide Varint.Encode, Varint.Sov, Offsets;
    var i1 := offset - |payload|;
    written' := CopyAt(dAtA, i1, payload, written);
    OffsetsJoin(i1, offset, dAtA.Length);
    i, written' := PutVarint(dAtA, i1, tag, |payload|, written');
    assert old(dAtA[..i1])[..i] == old(dAtA[..i]);
  }

  // The same for one element of a list: the elements after it are already in the buffer,
  // with what was there before above them, and below the cursor nothing has changed.
  method PutElement(dAtA: array<byte>, offset: nat, tag: byte, payload: bytes, ghost written: multiset<nat>,
                    ghost after: bytes, ghost above: bytes, ghost was: bytes)
    returns (i: nat, ghost written': multiset<nat>)
    requires 1 + Varint.Sov(|payload|) + |payload| <= offset <= dAtA.Length < TWO_63
    requires |was| == dAtA.Length && dAtA[offset..] == after + above && dAtA[..offset] == was[..offset]
    requires written == Offsets(offset, dAtA.Length)
    modifies dAtA
    ensures i == offset - (1 + Varint.Sov(|payload|) + |payload|)
    ensures dAtA[i..] == ([tag] + Varint.Encode(|payload|) + payload) + after + above
    ensures dAtA[..i] == was[..i]
    ensures written' == Offsets(i, dAtA.Length)
  {
    hide Varint.Encode, Varint.Sov, Offsets;
    i, written' := PutDelimited(dAtA, offset, tag, payload, written);
    Associative([tag] + Varint.Encode(|payload|) + payload, after, above);
    assert was[..offset][..i] == was[..i];
  }

  // A varint and the tag in front of it.
  method PutVarint(dAtA: array<byte>, offset: nat, tag: byte, v: uint64, ghost written: multiset<nat>)
    returns (i: nat, ghost written': multiset<nat>)
    requires 1 + Varint.Sov(v) <= offset <= dAtA.Length && written == Offsets(offset, dAtA.Length)
    modifies dAtA
    ensures i == offset - (1 + Varint.Sov(v))
    ensures dAtA[i..] == [tag] + Varint.Encode(v) + old(dAtA[offset..])
    ensures dAtA[..i] == old(dAtA[..i])
    ensures written' == Offsets(i, dAtA.Length)
  {
    hide Varint.Encode, Varint.Sov, Offsets;
    var i1;
    i1, written' := EncodeVarint(dAtA, offset, v, written);
    i, written' := PutByte(dAtA, i1, tag, written');
    assert old(dAtA[..i1])[..i] == old(dAtA[..i]);
  }

  // ---- Reading: the varint loops ----

  // The decoding loop over a uint64 accumulator: seven bits a turn, until a byte below 128.
  method ReadUint64(dAtA: bytes, start: nat) returns (err: Option<Error>, v: uint64, iNdEx: nat)
    requires start <= |dAtA|
    ensures match Varint.Read(dAtA[start..])
            case Ok((w, n)) => err == None && v == w && iNdEx == start + n
            case Err(e) => err == Some(e)
  {
    hide VarintLoop, BitOr, Shl, Pow2, Varint.Read, Varint.Value, AsInt32, AsInt64;
    Pow2Constants();
    v, iNdEx := 0, start;
    var shift := 0;
    VarintLoopStarts(dAtA, start);
    while true
      invariant start <= iNdEx <= |dAtA| && VarintLoop(dAtA, start, iNdEx, shift)
      invariant v == Varint.Value(dAtA[start..iNdEx]) % Pow2(64)
      decreases |dAtA| - iNdEx
    {
      if shift >= 64 {
        VarintLoopOverflows(dAtA, start, iNdEx, shift);
        return Some(IntOverflow), v, iNdEx;
      }
      if iNdEx >= |dAtA| {
        VarintLoopEnds(dAtA, start, iNdEx, shift);
        return Some(UnexpectedEOF), v, iNdEx;
      }
      var b := dAtA[iNdEx];
      VarintLoopTurn(dAtA, start, iNdEx, shift, 64);
      v := BitOr(v, Shl(64, b % 128, shift));
      iNdEx := iNdEx + 1;
      if b < 128 {
        VarintLoopDone(dAtA, start, iNdEx, shift);
        return None, v, iNdEx;
      }
      shift := shift + 7;
    }
  }

  // The same loop over a Go int, which a large varint turns negative.
  method ReadInt(dAtA: bytes, start: nat) returns (err: Option<Error>, v: int64, iNdEx: nat)
    requires start <= |dAtA|
    ensures match Varint.Read(dAtA[start..])
            case Ok((w, n)) => err == None && v == AsInt64(w) && iNdEx == start + n
            case Err(e) => err == Some(e)
  {
    hide VarintLoop, BitOr, Shl, Pow2, Varint.Read, Varint.Value, AsInt32, AsInt64;
    Pow2Constants();
    v, iNdEx := 0, start;
    var shift := 0;
    VarintLoopStarts(dAtA, start);
    while true
      invariant start <= iNdEx <= |dAtA| && VarintLoop(dAtA, start, iNdEx, shift)
      invariant Pattern64(v) == Varint.Value(dAtA[start..iNdEx]) % Pow2(64)
      decreases |dAtA| - iNdEx
    {
      if shift >= 64 {
        VarintLoopOverflows(dAtA, start, iNdEx, shift);
        return Some(IntOverflow), v, iNdEx;
      }
      if iNdEx >= |dAtA| {
        VarintLoopEnds(dAtA, start, iNdEx, shift);
        return Some(UnexpectedEOF), v, iNdEx;
      }
      var b := dAtA[iNdEx];
      VarintLoopTurn(dAtA, start, iNdEx, shift, 64);
      PatternInverse(BitOr(Pattern64(v), Shl(64, b % 128, shift)));
      v := AsInt64(BitOr(Pattern64(v), Shl(64, b % 128, shift)));
      iNdEx := iNdEx + 1;
      if b < 128 {
        VarintLoopDone(dAtA, start, iNdEx, shift);
        return None, v, iNdEx;
      }
      shift := shift + 7;
    }
  }

  // The same loop over an int32 enum: a shift of 32 or more contributes nothing.
  method ReadEnum(dAtA: bytes, start: nat) returns (err: Option<Error>, v: int32, iNdEx: nat)
    requires start <= |dAtA|
    ensures match Varint.Read(dAtA[start..])
            case Ok((w, n)) => err == None && v == AsInt32(w) && iNdEx == start + n
            case Err(e) => err == Some(e)
  {
    hide VarintLoop, BitOr, Shl, Pow2, Varint.Read, Varint.Value, AsInt32, AsInt64;
    Pow2Constants();
    v, iNdEx := 0, start;
    var shift := 0;
    VarintLoopStarts(dAtA, start);
    while true
      invariant start <= iNdEx <= |dAtA| && VarintLoop(dAtA, start, iNdEx, shift)
      invariant Pattern32(v) == Varint.Value(dAtA[start..iNdEx]) % Pow2(32)
      decreases |dAtA| - iNdEx
    {
      if shift >= 64 {
        VarintLoopOverflows(dAtA, start, iNdEx, shift);
        return Some(IntOverflow), v, iNdEx;
      }
      if iNdEx >= |dAtA| {
        VarintLoopEnds(dAtA, start, iNdEx, shift);
        return Some(UnexpectedEOF), v, iNdEx;
      }
      var b := dAtA[iNdEx];
      VarintLoopTurn(dAtA, start, iNdEx, shift, 32);
      PatternInverse(BitOr(Pattern32(v), Shl(32, b % 128, shift)));
      v := AsInt32(BitOr(Pattern32(v), Shl(32, b % 128, shift)));
      iNdEx := iNdEx + 1;
      if b < 128 {
        VarintLoopDone(dAtA, start, iNdEx, shift);
        Varint.Mod32Of64(Varint.Value(dAtA[start..iNdEx]));
        return None, v, iNdEx;
      }
      shift := shift + 7;
    }
  }

  // What holds at the top of the loop, whatever the accumulator: only continuation bytes
  // so far, seven bits of shift for each.
  ghost predicate VarintLoop(dAtA: bytes, start: nat, iNdEx: nat, shift: nat) {
    start <= iNdEx <= |dAtA| && shift == 7 * (iNdEx - start) <= 70 &&
    forall k :: start <= k < iNdEx ==> dAtA[k] >= 128
  }

  lemma VarintLoopStarts(dAtA: bytes, start: nat)
    requires start <= |dAtA|
    ensures VarintLoop(dAtA, start, start, 0) && Varint.Value(dAtA[start..start]) == 0
  {
  }

  lemma VarintLoopTurn(dAtA: bytes, start: nat, iNdEx: nat, shift: nat, w: nat)
    requires VarintLoop(dAtA, start, iNdEx, shift) && iNdEx < |dAtA|
    ensures BitOr(Varint.Value(dAtA[start..iNdEx]) % Pow2(w), Shl(w, dAtA[iNdEx] % 128, shift))
            == Varint.Value(dAtA[start..iNdEx + 1]) % Pow2(w)
    ensures dAtA[iNdEx] >= 128 && shift < 64 ==> VarintLoop(dAtA, start, iNdEx + 1, shift + 7)
  {
    var b := dAtA[start..iNdEx];
    assert dAtA[start..iNdEx + 1] == b + [dAtA[iNdEx]];
    assert (b + [dAtA[iNdEx]])[..|b|] == b;
    Varint.ValueBound(b);
    OrShiftStep(w, Varint.Value(b), dAtA[iNdEx] % 128, shift);
  }

  lemma VarintLoopOverflows(dAtA: bytes, start: nat, iNdEx: nat, shift: nat)
    requires VarintLoop(dAtA, start, iNdEx, shift) && shift >= 64
    ensures Varint.Read(dAtA[start..]) == Err(IntOverflow)
  {
    var b := dAtA[start..];
    assert forall k :: 0 <= k < 10 ==> b[k] == dAtA[start + k];
    Varint.ReadCharacterised(b, 1);
  }

  lemma VarintLoopEnds(dAtA: bytes, start: nat, iNdEx: nat, shift: nat)
    requires VarintLoop(dAtA, start, iNdEx, shift) && shift < 64 && iNdEx == |dAtA|
    ensures Varint.Read(dAtA[start..]) == Err(UnexpectedEOF)
  {
    var b := dAtA[start..];
    assert forall k :: 0 <= k < |b| ==> b[k] == dAtA[start + k];
    Varint.ReadCharacterised(b, 1);
  }

  lemma VarintLoopDone(dAtA: bytes, start: nat, iNdEx: nat, shift: nat)
    requires iNdEx > 0 && VarintLoop(dAtA, start, iNdEx - 1, shift) && shift < 64
    requires iNdEx <= |dAtA| && dAtA[iNdEx - 1] < 128
    ensures Varint.Read(dAtA[start..]) == Ok((Varint.Value(dAtA[start..iNdEx]) % TWO_64, iNdEx - start))
    ensures Pow2(64) == TWO_64
  {
    var b, n := dAtA[start..], iNdEx - start;
    assert forall k :: 0 <= k < n ==> b[k] == dAtA[start + k];
    Varint.ReadCharacterised(b, n);
    assert b[..n] == dAtA[start..iNdEx];
    Pow2Constants();
  }
}
