// Records as a writer of the wire format lays them out ("Message Structure" in the Protocol
// Buffers encoding specification), written down without reference to any decoder, and what
// the decoders make of them.
module Records {
  import opened GoInts
  import opened Wire
  import opened CanonicalSize
  import opened Codec
  import opened CodecLaws
  import opened Results
  import Varint

  // `f` is a field number. A group holds records and is closed by an end tag of its own number.
  datatype Record =
    | WVarint(f: nat, v: uint64)
    | WFixed64(f: nat, data: bytes)
    | WDelimited(f: nat, payload: bytes)
    | WGroup(f: nat, records: Records)
    | WFixed32(f: nat, data: bytes)

  datatype Records = NoRecords | Then(first: Record, others: Records)

  function TagBytes(f: nat, wireType: nat): bytes {
    Varint.Encode(f * 8 + wireType)
  }

  function Written(r: Record): bytes {
    match r
    case WVarint(f, v) => TagBytes(f, 0) + Varint.Encode(v)
    case WFixed64(f, data) => TagBytes(f, 1) + data
    case WDelimited(f, payload) => TagBytes(f, 2) + (Varint.Encode(|payload|) + payload)
    case WGroup(f, records) => TagBytes(f, 3) + (AllWritten(records) + TagBytes(f, 4))
    case WFixed32(f, data) => TagBytes(f, 5) + data
  }

  function AllWritten(rs: Records): bytes {
    match rs
    case NoRecords => []
    case Then(r, others) => Written(r) + AllWritten(others)
  }

  predicate WellFormed(r: Record) {
    && 1 <= r.f < 0x2000_0000
    && (r.WFixed64? ==> |r.data| == 8)
    && (r.WFixed32? ==> |r.data| == 4)
    && (r.WGroup? ==> AllWellFormed(r.records))
  }

  predicate AllWellFormed(rs: Records) {
    rs.NoRecords? || (WellFormed(rs.first) && AllWellFormed(rs.others))
  }

  // ---- Tags ----

  // What becomes of every tag, for every uint64 that may stand in its place.
  lemma TagExactly(wire: uint64, rest: bytes)
    ensures var f := (wire / 8) % TWO_32;
            ReadTag(Varint.Encode(wire) + rest) ==
            if wire % 8 == 4 then Err(EndGroupForNonGroup)
            else if f == 0 then Err(IllegalTag(0, wire))
            else if f >= TWO_31 then Err(IllegalTag(f - TWO_32, wire))
            else Ok((f, wire % 8, |Varint.Encode(wire)|))
  {
    Varint.RoundTrip(wire, rest);
  }

  lemma TagParts(f: nat, wireType: nat)
    requires f < 0x2000_0000 && wireType < 8
    ensures f * 8 + wireType < TWO_32 && (f * 8 + wireType) % 8 == wireType && (f * 8 + wireType) / 8 == f
  {
    ModUnique(f * 8 + wireType, f, wireType, 8);
  }

  // ---- Skipping ----

  // b holds w at offset i.
  ghost predicate Holds(b: bytes, i: nat, w: bytes) {
    i + |w| <= |b| && b[i..i + |w|] == w
  }

  lemma HoldsParts(b: bytes, i: nat, x: bytes, y: bytes)
    requires Holds(b, i, x + y)
    ensures Holds(b, i, x) && Holds(b, i + |x|, y)
  {
    var w := x + y;
    assert b[i..i + |w|][..|x|] == w[..|x|] == x;
    assert b[i..i + |w|][|x|..] == w[|x|..] == y;
  }

  lemma ReadHeld(b: bytes, i: nat, v: uint64)
    requires Holds(b, i, Varint.Encode(v))
    ensures Varint.Read(b[i..]) == Ok((v, |Varint.Encode(v)|))
  {
    hide Varint.Read, Varint.Encode;
    var n := |Varint.Encode(v)|;
    assert b[i..] == Varint.Encode(v) + b[i + n..];
    Varint.RoundTrip(v, b[i + n..]);
  }

  // Where Skip stands after a record: done outside any group, or reading on inside one.
  function Resume(b: bytes, i: nat, depth: nat): Result<nat>
    requires i <= |b|
  {
    if depth == 0 then Ok(i) else Skip(b, i, depth)
  }

  lemma TurnDone(b: bytes, i: nat, depth: nat, j: nat, depth': nat)
    requires i < |b| < TWO_63 && SkipTurn(b, i, depth) == Ok((j, depth')) && j <= |b|
    ensures Skip(b, i, depth) == Resume(b, j, depth')
  {
    hide SkipTurn;
  }

  lemma VarintHeld(b: bytes, i: nat, f: nat, v: uint64, depth: nat)
    requires WellFormed(WVarint(f, v)) && Holds(b, i, Written(WVarint(f, v))) && |b| < TWO_63
    ensures Skip(b, i, depth) == Resume(b, i + |Written(WVarint(f, v))|, depth)
  {
    hide Varint.Read, Varint.Encode, Skip, Resume, TagBytes;
    SkipTag(b, i, f, 0, Varint.Encode(v));
    ReadHeld(b, i + |TagBytes(f, 0)|, v);
    TurnDone(b, i, depth, i + |Written(WVarint(f, v))|, depth);
  }

  lemma FixedHeld(b: bytes, i: nat, f: nat, wireType: nat, data: bytes, depth: nat)
    requires f < 0x2000_0000 && Holds(b, i, TagBytes(f, wireType) + data) && |b| < TWO_63
    requires (wireType == 1 && |data| == 8) || (wireType == 5 && |data| == 4)
    ensures Skip(b, i, depth) == Resume(b, i + |TagBytes(f, wireType)| + |data|, depth)
  {
    hide Varint.Read, Varint.Encode, Skip, Resume, TagBytes;
    SkipTag(b, i, f, wireType, data);
    TurnDone(b, i, depth, i + |TagBytes(f, wireType)| + |data|, depth);
  }

  lemma DelimitedHeld(b: bytes, i: nat, f: nat, payload: bytes, depth: nat)
    requires WellFormed(WDelimited(f, payload)) && Holds(b, i, Written(WDelimited(f, payload))) && |b| < TWO_63
    ensures Skip(b, i, depth) == Resume(b, i + |Written(WDelimited(f, payload))|, depth)
  {
    hide Varint.Read, Varint.Encode, Skip, Resume, TagBytes;
    var l := Varint.Encode(|payload|);
    SkipTag(b, i, f, 2, l + payload);
    HoldsParts(b, i + |TagBytes(f, 2)|, l, payload);
    ReadHeld(b, i + |TagBytes(f, 2)|, |payload|);
    TurnDone(b, i, depth, i + |Written(WDelimited(f, payload))|, depth);
  }

  lemma GroupTagHeld(b: bytes, i: nat, f: nat, wireType: nat, depth: nat)
    requires f < 0x2000_0000 && Holds(b, i, TagBytes(f, wireType)) && |b| < TWO_63
    requires wireType == 3 || (wireType == 4 && depth > 0)
    ensures Skip(b, i, depth)
            == Resume(b, i + |TagBytes(f, wireType)|, if wireType == 3 then depth + 1 else depth - 1)
  {
    hide Varint.Read, Varint.Encode, Skip, Resume, TagBytes;
    assert TagBytes(f, wireType) + [] == TagBytes(f, wireType);
    SkipTag(b, i, f, wireType, []);
    TurnDone(b, i, depth, i + |TagBytes(f, wireType)|, if wireType == 3 then depth + 1 else depth - 1);
  }

  // Every written record is skipped as a whole, at any depth of groups, wherever it stands.
  lemma {:induction false} SkipsHeld(b: bytes, i: nat, r: Record, depth: nat)
    requires WellFormed(r) && Holds(b, i, Written(r)) && |b| < TWO_63
    ensures Skip(b, i, depth) == Resume(b, i + |Written(r)|, depth)
    decreases r
  {
    hide Varint.Read, Varint.Encode, Skip, Holds, TagBytes;
    match r
    case WVarint(f, v) => VarintHeld(b, i, f, v, depth);
    case WFixed64(f, data) => FixedHeld(b, i, f, 1, data, depth);
    case WDelimited(f, payload) => DelimitedHeld(b, i, f, payload, depth);
    case WGroup(f, records) =>
      var inner, start := AllWritten(records), i + |TagBytes(f, 3)|;
      HoldsParts(b, i, TagBytes(f, 3), inner + TagBytes(f, 4));
      HoldsParts(b, start, inner, TagBytes(f, 4));
      GroupTagHeld(b, i, f, 3, depth);
      SkipsAllHeld(b, start, records, depth + 1);
      GroupTagHeld(b, start + |inner|, f, 4, depth + 1);
    case WFixed32(f, data) => FixedHeld(b, i, f, 5, data, depth);
  }

  lemma {:induction false} SkipsAllHeld(b: bytes, i: nat, rs: Records, depth: nat)
    requires AllWellFormed(rs) && Holds(b, i, AllWritten(rs)) && |b| < TWO_63 && depth > 0
    ensures Skip(b, i, depth) == Skip(b, i + |AllWritten(rs)|, depth)
    decreases rs
  {
    hide Skip, Written;
    if rs.Then? {
      HoldsParts(b, i, Written(rs.first), AllWritten(rs.others));
      SkipsHeld(b, i, rs.first, depth);
      SkipsAllHeld(b, i + |Written(rs.first)|, rs.others, depth);
    }
  }

  // The tag that a skipped record starts with.
  lemma SkipTag(b: bytes, i: nat, f: nat, wireType: nat, rest: bytes)
    requires f < 0x2000_0000 && wireType < 8 && Holds(b, i, TagBytes(f, wireType) + rest)
    ensures i < |b| && Varint.Read(b[i..]) == Ok((f * 8 + wireType, |TagBytes(f, wireType)|))
    ensures (f * 8 + wireType) % 8 == wireType && Holds(b, i + |TagBytes(f, wireType)|, rest)
  {
    hide Varint.Read, Varint.Encode;
    TagParts(f, wireType);
    HoldsParts(b, i, TagBytes(f, wireType), rest);
    ReadHeld(b, i, f * 8 + wireType);
  }

  // A written record is skipped to its last byte, whatever follows.
  lemma SkipWritten(r: Record, rest: bytes)
    requires WellFormed(r) && |Written(r) + rest| < TWO_63
    ensures Skip(Written(r) + rest, 0, 0) == Ok(|Written(r)|)
  {
    hide Skip, Written;
    SkipsHeld(Written(r) + rest, 0, r, 0);
  }

  // A record that is cut short is refused.
  lemma SkipTruncated(r: Record, n: nat)
    requires WellFormed(r) && n < |Written(r)| < TWO_63
    ensures Skip(Written(r)[..n], 0, 0).Err?
  {
    hide Skip, Written;
    var w := Written(r);
    SkipWritten(r, []);
    assert w + [] == w;
    if Skip(w[..n], 0, 0).Ok? {
      var j := Skip(w[..n], 0, 0).value;
      assert w[..n][..j] == w[..j];
      SkipLocal(w[..n], w, 0, 0);
    }
  }

  // Wire types 6 and 7 do not exist, and an end tag needs a group to end.
  lemma SkipRefuses(wire: uint64, rest: bytes)
    requires wire % 8 in {4, 6, 7}
    ensures Skip(Varint.Encode(wire) + rest, 0, 0)
            == Err(if wire % 8 == 4 then UnexpectedEndOfGroup else IllegalWireType(wire % 8))
  {
    hide Varint.Read;
    var b := Varint.Encode(wire) + rest;
    Varint.RoundTrip(wire, rest);
    assert b[0..] == b;
  }

  // ---- Decoding ----

  // The records that schema sch can read: those of unknown fields, and those of scalar and
  // string fields in the wire type of the field.
  predicate Readable(sch: Schema, r: Record) {
    r.f >= 1 &&
    (r.f > |sch.kinds| ||
     match sch.kinds[r.f - 1] {
       case KUint64 | KEnum | KBool => r.WVarint?
       case KString => r.WDelimited?
       case KMessages(_) => false
       case KPacked => r.WVarint?
     })
  }

  // What a record means: the number itself, its low 32 bits read as signed, whether it is
  // non-zero, the bytes, one more id, or bytes to keep.
  function Meaning(sch: Schema, m: Msg, r: Record): (m': Msg)
    requires Typed(sch, m) && Readable(sch, r)
    ensures Typed(sch, m')
  {
    if r.f > |sch.kinds| then m.(unknown := m.unknown + Written(r))
    else
      var k := r.f - 1;
      assert Fits(sch.kinds[k], m.vals[k]);
      m.(vals := m.vals[k :=
        match sch.kinds[k]
        case KUint64 => U(r.v)
        case KEnum => E(if r.v % 0x1_0000_0000 < 0x8000_0000 then r.v % 0x1_0000_0000
                        else r.v % 0x1_0000_0000 - 0x1_0000_0000)
        case KBool => B(r.v != 0)
        case KString => S(r.payload)
        case KPacked => Us(m.vals[k].us + [r.v])])
  }

  predicate AllReadable(sch: Schema, rs: Records) {
    rs.NoRecords? || (Readable(sch, rs.first) && AllReadable(sch, rs.others))
  }

  function AllMean(sch: Schema, m: Msg, rs: Records): (m': Msg)
    requires Typed(sch, m) && AllReadable(sch, rs)
    ensures Typed(sch, m')
    decreases rs
  {
    if rs.NoRecords? then m else AllMean(sch, Meaning(sch, m, rs.first), rs.others)
  }

  lemma TagsAgree(k: nat, wireType: nat)
    ensures TagBytes(k + 1, wireType) == Tag(k, wireType)
  {
  }

  lemma {:induction false} StepUnknown(sch: Schema, r: Record)
    requires |sch.kinds| < r.f && WellFormed(r) && |Written(r)| < TWO_63
    ensures Step(Switch(sch), Written(r)) == Ok((Raw(Written(r)), |Written(r)|))
  {
    hide Skip, Written, Varint.Encode;
    var w := Written(r);
    assert w + [] == w;
    SkipWritten(r, []);
    WrittenTag(r);
    var wireType, rest := WireTypeOf(r), w[|TagBytes(r.f, WireTypeOf(r))|..];
    TagParts(r.f, wireType);
    ModSmall(r.f, TWO_32);
    TagExactly(r.f * 8 + wireType, rest);
    assert w[..|w|] == w;
  }

  function WireTypeOf(r: Record): nat {
    match r
    case WVarint(_, _) => 0
    case WFixed64(_, _) => 1
    case WDelimited(_, _) => 2
    case WGroup(_, _) => 3
    case WFixed32(_, _) => 5
  }

  lemma WrittenTag(r: Record)
    ensures var t := TagBytes(r.f, WireTypeOf(r)); |t| <= |Written(r)| && Written(r) == t + Written(r)[|t|..]
  {
    hide Varint.Encode;
  }

  lemma {:induction false} RecordDecodes(sch: Schema, r: Record, m: Msg)
    requires Numbered(sch) && Typed(sch, m) && WellFormed(r) && Readable(sch, r) && |Written(r)| < TWO_63
    ensures Decode(sch, false, Written(r), m) == Ok(Meaning(sch, m, r))
  {
    hide Step, Varint.Encode, Decode;
    var w, k := Written(r), r.f - 1;
    if r.f > |sch.kinds| {
      StepUnknown(sch, r);
      DecodeOne(sch, false, w, m, Raw(w));
    } else {
      assert Fits(sch.kinds[k], m.vals[k]);
      TagsAgree(k, WireTypeOf(r));
      if r.WVarint? {
        StepNumber(sch, k, r.v);
        DecodeOne(sch, false, w, m, Number(k, r.v));
      } else {
        assert w == Delimited(k, r.payload);
        StepBlob(sch, k, r.payload);
        DecodeOne(sch, false, w, m, Blob(k, r.payload));
      }
    }
  }

  // Any sequence of readable records, in any order and with any repetitions, decodes to what
  // the records mean one after another.
  lemma {:induction false} WrittenDecodes(sch: Schema, rs: Records, m: Msg)
    requires Numbered(sch) && Typed(sch, m) && AllWellFormed(rs) && AllReadable(sch, rs)
    requires |AllWritten(rs)| < TWO_63
    ensures Decode(sch, false, AllWritten(rs), m) == Ok(AllMean(sch, m, rs))
    decreases rs
  {
    hide Decode, Meaning, Written, WellFormed, Readable;
    if rs.NoRecords? {
      DecodeNothing(sch, false, AllWritten(rs), m);
    } else {
      var m' := Meaning(sch, m, rs.first);
      RecordDecodes(sch, rs.first, m);
      WrittenDecodes(sch, rs.others, m');
      Concatenation(sch, false, Written(rs.first), AllWritten(rs.others), m);
    }
  }

  // A known field in another wire type is refused, whatever follows the tag.
  lemma WrongWire(sch: Schema, discard: bool, k: nat, wireType: nat, rest: bytes, m: Msg)
    requires Numbered(sch) && Typed(sch, m) && k < |sch.kinds| && wireType < 8 && wireType != 4
    requires match sch.kinds[k] {
               case KUint64 | KEnum | KBool => wireType != 0
               case KString | KMessages(_) => wireType != 2
               case KPacked => wireType != 0 && wireType != 2
             }
    ensures Decode(sch, discard, TagBytes(k + 1, wireType) + rest, m) == Err(WrongWireType(k + 1, wireType))
  {
    hide Varint.Read, Varint.Encode, Skip;
    TagParts(k + 1, wireType);
    ModSmall(k + 1, TWO_32);
    TagExactly((k + 1) * 8 + wireType, rest);
    hide ReadTag;
    assert Step(Switch(sch), TagBytes(k + 1, wireType) + rest) == Err(WrongWireType(k + 1, wireType));
  }

  // ---- Encoding ----

  // Every field but a list of submessages is written as one record, or left out at its default.
  lemma FieldWritten(k: nat, kind: Kind, v: Val)
    requires Fits(kind, v) && !kind.KMessages?
    ensures EncodeField(k, kind, v) ==
            match v
            case U(u) => if u == 0 then [] else Written(WVarint(k + 1, u))
            case E(e) => if e == 0 then []
                         else Written(WVarint(k + 1, if e < 0 then 0x1_0000_0000_0000_0000 + e else e))
            case B(b) => if b then Written(WVarint(k + 1, 1)) else []
            case S(s) => if s == [] then [] else Written(WDelimited(k + 1, s))
            case Us(us) => if us == [] then [] else Written(WDelimited(k + 1, EncodeIds(us)))
            case Ms(_) => []
  {
    hide Varint.Encode;
    Varint.EncodeTurn(1);
    match v
    case S(s) => BlobWritten(k, s);
    case Us(us) => BlobWritten(k, EncodeIds(us));
    case _ =>
  }

  lemma BlobWritten(k: nat, payload: bytes)
    ensures Delimited(k, payload) == Written(WDelimited(k + 1, payload))
  {
    hide Varint.Encode;
    assert Tag(k, 2) + Varint.Encode(|payload|) + payload == Tag(k, 2) + (Varint.Encode(|payload|) + payload);
  }

  function Elements(f: nat, sub: Schema, ms: seq<Msg>): Records
    requires forall j :: 0 <= j < |ms| ==> Typed(sub, ms[j])
  {
    if |ms| == 0 then NoRecords else Then(WDelimited(f, EncodeMsg(sub, ms[0])), Elements(f, sub, ms[1..]))
  }

  // A list of submessages is written as one record per element, in order.
  lemma {:induction false} ListWritten(k: nat, kind: Kind, ms: seq<Msg>)
    requires kind.KMessages? && forall j :: 0 <= j < |ms| ==> Typed(kind.sub, ms[j])
    ensures EncodeField(k, kind, Ms(ms)) == AllWritten(Elements(k + 1, kind.sub, ms))
  {
    hide Varint.Encode, EncodeMsg;
    if |ms| > 0 {
      ListWritten(k, kind, ms[1..]);
      BlobWritten(k, EncodeMsg(kind.sub, ms[0]));
    }
  }

  // A negative status goes out as the sixty-four-bit pattern of the same number, ten bytes long.
  lemma NegativeEnum(k: nat, x: int32)
    requires x < 0
    ensures EncodeField(k, KEnum, E(x)) == TagBytes(k + 1, 0) + Varint.Encode(0x1_0000_0000_0000_0000 + x)
    ensures |Varint.Encode(0x1_0000_0000_0000_0000 + x)| == 10
  {
    TopBitSet(TWO_64 + x);
    Varint.TenBytes(TWO_64 + x);
  }

  lemma TopBitSet(v: nat)
    requires v >= TWO_63
    ensures Varint.Sov(v) >= 10
  {
    hide Varint.Sov, Varint.Encode;
    Pow2Constants();
    SovBound(v);
    if Varint.Sov(v) <= 9 {
      Pow2Grows(7 * Varint.Sov(v), 63);
    }
  }
}
