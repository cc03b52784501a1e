// The statement patterns of the generated unmarshal closures, and the loop invariant that
// ties them to Codec.Decode.
module Decoder {
  import opened GoInts
  import opened Wire
  import opened Codec
  import opened CodecLaws
  import opened Buffer
  import opened Results
  import Varint

  // ---- Statement patterns ----

  // The tag at iNdEx: a varint, split into a truncated field number and a wire type, with the
  // two tags that are refused.
  method ReadTagAt(dAtA: bytes, start: nat) returns (err: Option<Error>, fieldNum: int32, wireType: nat, iNdEx: nat)
    requires start <= |dAtA|
    ensures match ReadTag(dAtA[start..])
            case Ok((f, w, n)) => err == None && fieldNum == f && wireType == w && iNdEx == start + n
            case Err(e) => err == Some(e)
  {
    hide Varint.Read;
    var wire;
    err, wire, iNdEx := ReadUint64(dAtA, start);
    fieldNum, wireType := AsInt32(wire / 8), wire % 8;
    if err.Some? {
      return;
    }
    if wireType == 4 {
      return Some(EndGroupForNonGroup), fieldNum, wireType, iNdEx;
    }
    if fieldNum <= 0 {
      return Some(IllegalTag(fieldNum, wire)), fieldNum, wireType, iNdEx;
    }
  }

  // The three checks on a length in wrapping 64-bit arithmetic: a negative length, an end that
  // wraps to a negative, an end past the buffer. What passes is a slice within bounds.
  method CheckBounds(l: nat, iNdEx: nat, len: int64) returns (err: Option<Error>, postIndex: nat)
    requires iNdEx <= l < TWO_63
    ensures err == None <==> 0 <= len && iNdEx + len <= l
    ensures err == None ==> iNdEx <= postIndex <= l && postIndex == iNdEx + len
    ensures err.Some? ==> err.value == if len < 0 || iNdEx + len >= TWO_63 then InvalidLength else UnexpectedEOF
  {
    hide WrapAdd;
    postIndex := 0;
    if len < 0 {
      return Some(InvalidLength), 0;
    }
    WrapAddValue(iNdEx, len);
    var post := WrapAdd(iNdEx, len);
    if post < 0 {
      return Some(InvalidLength), 0;
    }
    if post > l {
      return Some(UnexpectedEOF), 0;
    }
    return None, post;
  }

  // The length of a string, read as a uint64 and then taken as an int.
  method ReadStringBounds(dAtA: bytes, base: nat, i: nat) returns (err: Option<Error>, iNdEx: nat, postIndex: nat)
    requires base <= i <= |dAtA| < TWO_63
    ensures match ReadLength(dAtA[base..], i - base)
            case Ok((s, p)) => err == None && iNdEx == base + s && postIndex == base + p
            case Err(e) => err == Some(Settle(base, e))
  {
    hide Varint.Read, AsInt64;
    assert dAtA[base..][i - base..] == dAtA[i..];
    var stringLen;
    err, stringLen, iNdEx := ReadUint64(dAtA, i);
    postIndex := 0;
    if err.None? {
      AsInt64Value(stringLen);
      var intStringLen := AsInt64(stringLen);
      err, postIndex := CheckBounds(|dAtA|, iNdEx, intStringLen);
    }
  }

  // The length of a submessage or packed block, read as an int from the start.
  method ReadMessageBounds(dAtA: bytes, base: nat, i: nat) returns (err: Option<Error>, iNdEx: nat, postIndex: nat)
    requires base <= i <= |dAtA| < TWO_63
    ensures match ReadLength(dAtA[base..], i - base)
            case Ok((s, p)) => err == None && iNdEx == base + s && postIndex == base + p
            case Err(e) => err == Some(Settle(base, e))
  {
    hide Varint.Read, AsInt64;
    assert dAtA[base..][i - base..] == dAtA[i..];
    var msglen;
    err, msglen, iNdEx := ReadInt(dAtA, i);
    postIndex := 0;
    if err.None? {
      AsInt64Value(Varint.Read(dAtA[i..]).value.0);
      err, postIndex := CheckBounds(|dAtA|, iNdEx, msglen);
    }
  }

  // runtime.Skip: the length of the record at the front of b, which it does not compare
  // with len(b) when the record is not inside a group.
  function RuntimeSkip(b: bytes): (r: Result<nat>)
    ensures r.Ok? ==> 0 < r.value && (r.value <= |b| || r.value < TWO_63)
    ensures Skip(b, 0, 0).Ok? <==> r.Ok? && r.value <= |b|
  {
    SkipErrors(b, 0, 0);
    match Skip(b, 0, 0)
    case Err(Overrun(end)) => if end >= TWO_63 then Err(InvalidLength) else Ok(end)
    case r => r
  }

  // The default branch: skip from the start of the tag, then compare with the buffer.
  method SkipUnknown(dAtA: bytes, iNdEx: nat) returns (err: Option<Error>, skippy: nat)
    requires iNdEx <= |dAtA| < TWO_63
    ensures match Skip(dAtA[iNdEx..], 0, 0)
            case Ok(n) => err == None && skippy == n
            case Err(e) => err == Some(Settle(iNdEx, e))
  {
    hide Skip, WrapAdd;
    SkipErrors(dAtA[iNdEx..], 0, 0);
    match RuntimeSkip(dAtA[iNdEx..])
    case Err(e) => return Some(e), 0;
    case Ok(n) =>
      WrapAddValue(iNdEx, n);
      if n < 0 || WrapAdd(iNdEx, n) < 0 {
        return Some(InvalidLength), 0;
      }
      if WrapAdd(iNdEx, n) > |dAtA| {
        return Some(UnexpectedEOF), 0;
      }
      return None, n;
  }

  // An overrun that Skip reports is past the end of the buffer.
  lemma {:induction false} SkipErrors(b: bytes, i: nat, depth: nat)
    requires i <= |b|
    ensures Skip(b, i, depth).Err? && Skip(b, i, depth).error.Overrun? ==> Skip(b, i, depth).error.end > |b|
    decreases |b| - i
  {
    hide Varint.Read;
    if i < |b| && SkipTurn(b, i, depth).Ok? {
      var (j, d) := SkipTurn(b, i, depth).value;
      if d > 0 && j <= |b| {
        SkipErrors(b, j, d);
      }
    }
  }

  // ---- The loop invariant ----

  // With the cursor at i and m decoded so far, what is left to do is to decode dAtA[i..]
  // on top of m.
  ghost predicate At(sch: Schema, discard: bool, dAtA: bytes, m0: Msg, i: nat, m: Msg) {
    Typed(sch, m0) && Typed(sch, m) && i <= |dAtA| &&
    Decode(sch, discard, dAtA, m0) == Shift(i, Decode(sch, discard, dAtA[i..], m))
  }

  // The loop returns error e.
  ghost predicate Fails(sch: Schema, discard: bool, dAtA: bytes, m0: Msg, e: Error) {
    Typed(sch, m0) && GoResult(Decode(sch, discard, dAtA, m0)) == Err(e)
  }

  lemma AtStart(sch: Schema, discard: bool, dAtA: bytes, m0: Msg)
    requires Typed(sch, m0)
    ensures At(sch, discard, dAtA, m0, 0, m0)
  {
    assert dAtA[0..] == dAtA;
  }

  lemma AtEnd(sch: Schema, discard: bool, dAtA: bytes, m0: Msg, m: Msg)
    requires At(sch, discard, dAtA, m0, |dAtA|, m)
    ensures GoResult(Decode(sch, discard, dAtA, m0)) == Ok(m)
  {
    assert dAtA[|dAtA|..] == [];
  }

  lemma StepFails(sch: Schema, discard: bool, dAtA: bytes, m0: Msg, i: nat, m: Msg, e: Error)
    requires At(sch, discard, dAtA, m0, i, m) && i < |dAtA|
    requires Step(Switch(sch), dAtA[i..]) == Err(e)
    ensures Fails(sch, discard, dAtA, m0, Settle(i, e))
  {
    hide Step;
  }

  lemma ApplyOutcome(sch: Schema, discard: bool, dAtA: bytes, m0: Msg, i: nat, m: Msg, it: Item, n: nat)
    requires At(sch, discard, dAtA, m0, i, m) && i < |dAtA|
    requires Step(Switch(sch), dAtA[i..]) == Ok((it, n))
    ensures ItemFits(sch, it) && i + n <= |dAtA|
    ensures var r := Apply(sch, discard, m, it);
            if r.Ok? then At(sch, discard, dAtA, m0, i + n, r.value)
            else Fails(sch, discard, dAtA, m0, r.error)
  {
    hide Step, Apply;
    DecodeRecord(sch, discard, dAtA[i..], m, it, n);
    assert dAtA[i..][n..] == dAtA[i + n..];
    ApplyErrors(sch, discard, m, it);
  }

  lemma ApplyErrors(sch: Schema, discard: bool, m: Msg, it: Item)
    requires Typed(sch, m) && ItemFits(sch, it)
    ensures Apply(sch, discard, m, it).Err? ==> !Apply(sch, discard, m, it).error.Overrun?
  {
  }

  // ---- One record, field kind by field kind ----

  lemma TagFails(sch: Schema, discard: bool, dAtA: bytes, m0: Msg, i: nat, m: Msg)
    requires At(sch, discard, dAtA, m0, i, m) && i < |dAtA|
    ensures ReadTag(dAtA[i..]).Err? ==> Fails(sch, discard, dAtA, m0, ReadTag(dAtA[i..]).error)
  {
    hide Varint.Read;
    var r := ReadTag(dAtA[i..]);
    if r.Err? {
      StepFails(sch, discard, dAtA, m0, i, m, r.error);
    }
  }

  lemma UnknownRecord(sch: Schema, discard: bool, dAtA: bytes, m0: Msg, i: nat, m: Msg)
    requires At(sch, discard, dAtA, m0, i, m) && i < |dAtA|
    requires ReadTag(dAtA[i..]).Ok? && ReadTag(dAtA[i..]).value.0 > |sch.kinds|
    ensures var r := Skip(dAtA[i..], 0, 0);
            if r.Ok? then
              At(sch, discard, dAtA, m0, i + r.value,
                 if discard then m else m.(unknown := m.unknown + dAtA[i..i + r.value]))
            else Fails(sch, discard, dAtA, m0, Settle(i, r.error))
  {
    hide Skip, ReadTag;
    match Skip(dAtA[i..], 0, 0)
    case Ok(n) =>
      assert dAtA[i..][..n] == dAtA[i..i + n];
      ApplyOutcome(sch, discard, dAtA, m0, i, m, Raw(dAtA[i..i + n]), n);
    case Err(e) => StepFails(sch, discard, dAtA, m0, i, m, e);
  }

  function NumberVal(kind: Kind, v: uint64): Val {
    match kind
    case KUint64 => U(v)
    case KEnum => E(AsInt32(v))
    case _ => B(v != 0)
  }

  lemma VarintRecord(sch: Schema, discard: bool, dAtA: bytes, m0: Msg, i: nat, m: Msg, f: nat, wireType: nat, n: nat)
    requires At(sch, discard, dAtA, m0, i, m) && i < |dAtA|
    requires ReadTag(dAtA[i..]) == Ok((f, wireType, n)) && 0 < f <= |sch.kinds|
    requires AcceptsOf(sch.kinds[f - 1]).AcceptsVarint?
    ensures wireType != 0 ==> Fails(sch, discard, dAtA, m0, WrongWireType(f, wireType))
    ensures wireType == 0 ==>
              var r := Varint.Read(dAtA[i + n..]);
              if r.Err? then Fails(sch, discard, dAtA, m0, r.error)
              else At(sch, discard, dAtA, m0, i + n + r.value.1,
                      m.(vals := m.vals[f - 1 := NumberVal(sch.kinds[f - 1], r.value.0)]))
  {
    hide Varint.Read, ReadTag;
    assert dAtA[i..][n..] == dAtA[i + n..];
    var r := Varint.Read(dAtA[i + n..]);
    if wireType != 0 {
      StepFails(sch, discard, dAtA, m0, i, m, WrongWireType(f, wireType));
    } else if r.Err? {
      StepFails(sch, discard, dAtA, m0, i, m, r.error);
    } else {
      ApplyOutcome(sch, discard, dAtA, m0, i, m, Number(f - 1, r.value.0), n + r.value.1);
    }
  }

  lemma BlobRecord(sch: Schema, discard: bool, dAtA: bytes, m0: Msg, i: nat, m: Msg, f: nat, wireType: nat, n: nat)
    requires At(sch, discard, dAtA, m0, i, m) && i < |dAtA|
    requires ReadTag(dAtA[i..]) == Ok((f, wireType, n)) && 0 < f <= |sch.kinds|
    requires AcceptsOf(sch.kinds[f - 1]).AcceptsBlob?
    ensures wireType != 2 ==> Fails(sch, discard, dAtA, m0, WrongWireType(f, wireType))
    ensures wireType == 2 ==>
              var r := ReadLength(dAtA[i..], n);
              if r.Err? then Fails(sch, discard, dAtA, m0, Settle(i, r.error))
              else
                var v := ApplyVal(sch.kinds[f - 1], discard, m.vals[f - 1],
                                  Blob(f - 1, dAtA[i + r.value.0..i + r.value.1]));
                if v.Err? then Fails(sch, discard, dAtA, m0, v.error)
                else At(sch, discard, dAtA, m0, i + r.value.1, m.(vals := m.vals[f - 1 := v.value]))
  {
    hide ReadLength, ReadTag, ApplyVal;
    if wireType != 2 {
      StepFails(sch, discard, dAtA, m0, i, m, WrongWireType(f, wireType));
    } else {
      match ReadLength(dAtA[i..], n)
      case Err(e) => StepFails(sch, discard, dAtA, m0, i, m, e);
      case Ok((s, p)) =>
        assert dAtA[i..][s..p] == dAtA[i + s..i + p];
        var it := Blob(f - 1, dAtA[i + s..i + p]);
        ApplyOutcome(sch, discard, dAtA, m0, i, m, it, p);
        ApplyErrors(sch, discard, m, it);
    }
  }

  // ---- The cases of the switch, one method per kind of field ----
  //
  // Each takes over after the tag: start is the cursor at the tag, i the cursor after it.
  // Afterwards either the whole decode fails with err, or the invariant holds at iNdEx with
  // the one field replaced.

  ghost predicate AtTag(sch: Schema, discard: bool, dAtA: bytes, m0: Msg, start: nat, m: Msg,
                        f: nat, wireType: nat, i: nat) {
    At(sch, discard, dAtA, m0, start, m) && start < i <= |dAtA| && 0 < f <= |sch.kinds| &&
    ReadTag(dAtA[start..]) == Ok((f, wireType, i - start))
  }

  ghost predicate Outcome(sch: Schema, discard: bool, dAtA: bytes, m0: Msg, m: Msg,
                          f: nat, start: nat, err: Option<Error>, v: Val, iNdEx: nat) {
    match err
    case Some(e) => Fails(sch, discard, dAtA, m0, e)
    case None =>
      0 < f <= |m.vals| && start < iNdEx <= |dAtA| && At(sch, discard, dAtA, m0, iNdEx, m.(vals := m.vals[f - 1 := v]))
  }

  method UnmarshalUint64(ghost sch: Schema, ghost discard: bool, dAtA: bytes, ghost m0: Msg, start: nat, ghost m: Msg,
                         f: nat, wireType: nat, i: nat) returns (err: Option<Error>, v: uint64, iNdEx: nat)
    requires AtTag(sch, discard, dAtA, m0, start, m, f, wireType, i) && sch.kinds[f - 1].KUint64?
    ensures Outcome(sch, discard, dAtA, m0, m, f, start, err, U(v), iNdEx)
  {
    hide Decode, ReadTag, Varint.Read, Fits;
    VarintRecord(sch, discard, dAtA, m0, start, m, f, wireType, i - start);
    v, iNdEx := 0, i;
    if wireType != 0 {
      return Some(WrongWireType(f, wireType)), v, iNdEx;
    }
    err, v, iNdEx := ReadUint64(dAtA, iNdEx);
  }

  method UnmarshalEnum(ghost sch: Schema, ghost discard: bool, dAtA: bytes, ghost m0: Msg, start: nat, ghost m: Msg,
                       f: nat, wireType: nat, i: nat) returns (err: Option<Error>, v: int32, iNdEx: nat)
    requires AtTag(sch, discard, dAtA, m0, start, m, f, wireType, i) && sch.kinds[f - 1].KEnum?
    ensures Outcome(sch, discard, dAtA, m0, m, f, start, err, E(v), iNdEx)
  {
    hide Decode, ReadTag, Varint.Read, Fits;
    VarintRecord(sch, discard, dAtA, m0, start, m, f, wireType, i - start);
    v, iNdEx := 0, i;
    if wireType != 0 {
      return Some(WrongWireType(f, wireType)), v, iNdEx;
    }
    err, v, iNdEx := ReadEnum(dAtA, iNdEx);
  }

  // A bool is read as an int; anything but zero is true.
  method UnmarshalBool(ghost sch: Schema, ghost discard: bool, dAtA: bytes, ghost m0: Msg, start: nat, ghost m: Msg,
                       f: nat, wireType: nat, i: nat) returns (err: Option<Error>, b: bool, iNdEx: nat)
    requires AtTag(sch, discard, dAtA, m0, start, m, f, wireType, i) && sch.kinds[f - 1].KBool?
    ensures Outcome(sch, discard, dAtA, m0, m, f, start, err, B(b), iNdEx)
  {
    hide Decode, ReadTag, Varint.Read, Fits;
    VarintRecord(sch, discard, dAtA, m0, start, m, f, wireType, i - start);
    b, iNdEx := false, i;
    if wireType != 0 {
      return Some(WrongWireType(f, wireType)), b, iNdEx;
    }
    var v;
    err, v, iNdEx := ReadInt(dAtA, iNdEx);
    b := v != 0;
  }

  method UnmarshalString(ghost sch: Schema, ghost discard: bool, dAtA: bytes, ghost m0: Msg, start: nat, ghost m: Msg,
                         f: nat, wireType: nat, i: nat) returns (err: Option<Error>, s: bytes, iNdEx: nat)
    requires |dAtA| < TWO_63
    requires AtTag(sch, discard, dAtA, m0, start, m, f, wireType, i) && sch.kinds[f - 1].KString?
    ensures Outcome(sch, discard, dAtA, m0, m, f, start, err, S(s), iNdEx)
  {
    hide Decode, ReadTag, ReadLength, Varint.Read, Fits;
    BlobRecord(sch, discard, dAtA, m0, start, m, f, wireType, i - start);
    s, iNdEx := [], i;
    if wireType != 2 {
      return Some(WrongWireType(f, wireType)), s, iNdEx;
    }
    var postIndex;
    err, iNdEx, postIndex := ReadStringBounds(dAtA, start, iNdEx);
    if err.None? {
      s, iNdEx := dAtA[iNdEx..postIndex], postIndex;
    }
  }

  // The bounds of a submessage; the caller decodes dAtA[iNdEx..postIndex] into a new element.
  method MessageBounds(ghost sch: Schema, ghost discard: bool, dAtA: bytes, ghost m0: Msg, start: nat, ghost m: Msg,
                       f: nat, wireType: nat, i: nat) returns (err: Option<Error>, iNdEx: nat, postIndex: nat)
    requires |dAtA| < TWO_63
    requires AtTag(sch, discard, dAtA, m0, start, m, f, wireType, i) && sch.kinds[f - 1].KMessages?
    ensures if err.Some? then Fails(sch, discard, dAtA, m0, err.value)
            else
              && start < iNdEx <= postIndex <= |dAtA|
              && f <= |m.vals| && m.vals[f - 1].Ms?
              && var r := GoResult(Decode(sch.kinds[f - 1].sub, discard, dAtA[iNdEx..postIndex],
                                          Empty(sch.kinds[f - 1].sub)));
                 if r.Err? then Fails(sch, discard, dAtA, m0, r.error)
                 else At(sch, discard, dAtA, m0, postIndex,
                         m.(vals := m.vals[f - 1 := Ms(m.vals[f - 1].ms + [r.value])]))
  {
    hide Decode, ReadTag, ReadLength, Varint.Read;
    assert Fits(sch.kinds[f - 1], m.vals[f - 1]);
    BlobRecord(sch, discard, dAtA, m0, start, m, f, wireType, i - start);
    iNdEx, postIndex := i, i;
    if wireType != 2 {
      return Some(WrongWireType(f, wireType)), iNdEx, postIndex;
    }
    err, iNdEx, postIndex := ReadMessageBounds(dAtA, start, iNdEx);
  }

  // The default branch: the record goes to the unknown bytes unless they are discarded.
  method UnmarshalUnknown(ghost sch: Schema, discard: bool, dAtA: bytes, ghost m0: Msg, start: nat, ghost m: Msg,
                          unknown: bytes) returns (err: Option<Error>, unknown': bytes, iNdEx: nat)
    requires |dAtA| < TWO_63 && At(sch, discard, dAtA, m0, start, m) && start < |dAtA| && unknown == m.unknown
    requires ReadTag(dAtA[start..]).Ok? && ReadTag(dAtA[start..]).value.0 > |sch.kinds|
    ensures if err.Some? then Fails(sch, discard, dAtA, m0, err.value)
            else start < iNdEx <= |dAtA| && At(sch, discard, dAtA, m0, iNdEx, m.(unknown := unknown'))
  {
    hide Decode, ReadTag, Typed;
    UnknownRecord(sch, discard, dAtA, m0, start, m);
    iNdEx, unknown' := start, unknown;
    var skippy;
    err, skippy := SkipUnknown(dAtA, iNdEx);
    if err.None? {
      if !discard {
        unknown' := unknown' + dAtA[iNdEx..iNdEx + skippy];
      }
      iNdEx := iNdEx + skippy;
    }
  }
}
