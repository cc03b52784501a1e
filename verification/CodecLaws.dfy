// The laws of the codec, proved once for every schema: concatenation, round trip,
// normalisation, discarding, packed lists.
module CodecLaws {
  import opened GoInts
  import opened Wire
  import opened Codec
  import opened Results
  import Varint

  // ---- Concatenation ("Last One Wins") ----

  // One record at the front of b, then the rest.
  lemma {:induction false} DecodeRecord(sch: Schema, discard: bool, b: bytes, m: Msg, it: Item, n: nat)
    requires Typed(sch, m) && |b| > 0 && Step(Switch(sch), b) == Ok((it, n))
    ensures ItemFits(sch, it) && n <= |b|
    ensures Apply(sch, discard, m, it).Ok? ==>
              Decode(sch, discard, b, m) == Shift(n, Decode(sch, discard, b[n..], Apply(sch, discard, m, it).value))
    ensures Apply(sch, discard, m, it).Err? ==> Decode(sch, discard, b, m) == Err(Apply(sch, discard, m, it).error)
  {
  }

  // If a decodes, decoding a + b is decoding b from where a left the message: same message,
  // same error, with the offset of an overrun moved by |a|.
  lemma {:induction false} Concatenation(sch: Schema, discard: bool, a: bytes, b: bytes, m: Msg)
    requires Typed(sch, m) && Decode(sch, discard, a, m).Ok?
    ensures Decode(sch, discard, a + b, m) == Shift(|a|, Decode(sch, discard, b, Decode(sch, discard, a, m).value))
    decreases |a|
  {
    hide Step, Skip;
    if |a| == 0 {
      assert a + b == b;
    } else {
      var (it, n) := Step(Switch(sch), a).value;
      DecodeRecord(sch, discard, a, m, it, n);
      StepStable(Switch(sch), a, b);
      DecodeRecord(sch, discard, a + b, m, it, n);
      assert (a + b)[n..] == a[n..] + b;
      var m' := Apply(sch, discard, m, it).value;
      Concatenation(sch, discard, a[n..], b, m');
    }
  }

  // The error a Go caller sees from a whole-buffer decode.
  function GoResult<T>(r: Result<T>): Result<T> {
    match r
    case Err(e) => Err(Settle(0, e))
    case _ => r
  }

  // ---- Which bytes are accepted does not depend on the message ----

  // Every record of b can be read, and so can every submessage in it.
  predicate Accepted(sch: Schema, b: bytes)
    decreases sch, |b|
  {
    |b| == 0 || (Step(Switch(sch), b).Ok? &&
                 var (it, n) := Step(Switch(sch), b).value;
                 PayloadAccepted(sch, it) && Accepted(sch, b[n..]))
  }

  predicate PayloadAccepted(sch: Schema, it: Item)
    requires ItemFits(sch, it)
    decreases sch, 0
  {
    it.Blob? && sch.kinds[it.field].KMessages? ==> Accepted(sch.kinds[it.field].sub, it.payload)
  }

  // Where the first record that runs past the end of b claims to end, if a decoder gets there.
  function ClaimedEnd(sch: Schema, b: bytes): Option<nat>
    decreases |b|
  {
    if |b| == 0 then None
    else match Step(Switch(sch), b)
      case Err(e) => if e.Overrun? then Some(e.end) else None
      case Ok((it, n)) =>
        if !PayloadAccepted(sch, it) then None
        else match ClaimedEnd(sch, b[n..])
          case None => None
          case Some(end) => Some(n + end)
  }

  lemma {:induction false} AppliedExactly(sch: Schema, discard: bool, m: Msg, it: Item)
    requires Typed(sch, m) && ItemFits(sch, it)
    ensures Apply(sch, discard, m, it).Ok? <==> PayloadAccepted(sch, it)
    ensures Apply(sch, discard, m, it).Err? ==> !Apply(sch, discard, m, it).error.Overrun?
    decreases sch, 0
  {
    hide Step;
    if it.Blob? && sch.kinds[it.field].KMessages? {
      var sub := sch.kinds[it.field].sub;
      AcceptedExactly(sub, discard, it.payload, Empty(sub));
    }
  }

  // Decoding b succeeds, from any message, exactly when b is accepted.
  lemma {:induction false} AcceptedExactly(sch: Schema, discard: bool, b: bytes, m: Msg)
    requires Typed(sch, m)
    ensures Decode(sch, discard, b, m).Ok? <==> Accepted(sch, b)
    decreases sch, |b|
  {
    hide Step, Apply;
    if |b| > 0 && Step(Switch(sch), b).Ok? {
      var (it, n) := Step(Switch(sch), b).value;
      DecodeRecord(sch, discard, b, m, it, n);
      AppliedExactly(sch, discard, m, it);
      if PayloadAccepted(sch, it) {
        AcceptedExactly(sch, discard, b[n..], Apply(sch, discard, m, it).value);
      }
    }
  }

  // Decoding b overruns to an offset, from any message, exactly when that is its claimed end.
  lemma {:induction false} OverrunExactly(sch: Schema, discard: bool, b: bytes, m: Msg)
    requires Typed(sch, m)
    ensures forall end: nat :: Decode(sch, discard, b, m) == Err(Overrun(end)) <==> ClaimedEnd(sch, b) == Some(end)
    decreases |b|
  {
    hide Step, Apply, PayloadAccepted;
    if |b| > 0 && Step(Switch(sch), b).Ok? {
      var (it, n) := Step(Switch(sch), b).value;
      DecodeRecord(sch, discard, b, m, it, n);
      AppliedExactly(sch, discard, m, it);
      if PayloadAccepted(sch, it) {
        OverrunExactly(sch, discard, b[n..], Apply(sch, discard, m, it).value);
      }
    }
  }

  // The law on Go errors holds unless b stops at a record that claims to end past 2^63 only
  // when |a| is added: there the code reports InvalidLength instead of UnexpectedEOF.
  lemma ConcatenationGo(sch: Schema, discard: bool, a: bytes, b: bytes, m: Msg)
    requires Typed(sch, m) && Decode(sch, discard, a, m).Ok?
    ensures GoResult(Decode(sch, discard, a + b, m))
            == GoResult(Decode(sch, discard, b, Decode(sch, discard, a, m).value))
            <==> !(ClaimedEnd(sch, b).Some? && ClaimedEnd(sch, b).value < TWO_63 <= |a| + ClaimedEnd(sch, b).value)
  {
    hide Decode, ClaimedEnd;
    Concatenation(sch, discard, a, b, m);
    OverrunExactly(sch, discard, b, Decode(sch, discard, a, m).value);
  }

  // ---- Unknown bytes ----

  // u splits into records that the switch does not know.
  ghost predicate UnknownOnly(sch: Schema, u: bytes)
    decreases |u|
  {
    |u| == 0 || (Step(Switch(sch), u).Ok? && var (it, n) := Step(Switch(sch), u).value;
                 it.Raw? && UnknownOnly(sch, u[n..]))
  }

  // Every unknown-field buffer in m, nested ones included, holds unknown records only.
  ghost predicate Clean(sch: Schema, m: Msg)
    requires Typed(sch, m)
    decreases sch
  {
    UnknownOnly(sch, m.unknown) && CleanFields(sch, m)
  }

  ghost predicate CleanFields(sch: Schema, m: Msg)
    requires Typed(sch, m)
    decreases sch, 0
  {
    forall k :: 0 <= k < |m.vals| ==> CleanVal(sch.kinds[k], m.vals[k])
  }

  ghost predicate CleanVal(kind: Kind, v: Val)
    requires Fits(kind, v)
    decreases kind
  {
    kind.KMessages? ==> forall j :: 0 <= j < |v.ms| ==> Clean(kind.sub, v.ms[j])
  }

  lemma {:induction false} UnknownOnlyAppend(sch: Schema, a: bytes, b: bytes)
    requires UnknownOnly(sch, a) && UnknownOnly(sch, b)
    ensures UnknownOnly(sch, a + b)
    decreases |a|
  {
    hide Step;
    if |a| == 0 {
      assert a + b == b;
    } else {
      var (it, n) := Step(Switch(sch), a).value;
      StepStable(Switch(sch), a, b);
      assert (a + b)[n..] == a[n..] + b;
      UnknownOnlyAppend(sch, a[n..], b);
    }
  }

  // Decoding u from m changes nothing but the unknown bytes, to exactly u more, if and only
  // if u holds unknown records only.
  lemma {:induction false} DecodeUnknown(sch: Schema, u: bytes, m: Msg)
    requires Typed(sch, m)
    ensures UnknownOnly(sch, u) ==> Decode(sch, false, u, m) == Ok(m.(unknown := m.unknown + u))
    ensures Decode(sch, false, u, m).Ok? ==>
              var u' := Decode(sch, false, u, m).value.unknown;
              |u'| <= |m.unknown| + |u| && (|u'| == |m.unknown| + |u| ==> UnknownOnly(sch, u))
    decreases |u|
  {
    if |u| == 0 {
      assert m.unknown + u == m.unknown;
    } else if Step(Switch(sch), u).Ok? {
      var (it, n) := Step(Switch(sch), u).value;
      if Apply(sch, false, m, it).Ok? {
        DecodeUnknown(sch, u[n..], Apply(sch, false, m, it).value);
      }
      if it.Raw? {
        assert m.unknown + u[..n] + u[n..] == m.unknown + u;
      }
    }
  }

  // ---- Reading back what was written ----

  // Field numbers are at most 2^29 - 1.
  ghost predicate Numbered(sch: Schema)
    decreases sch
  {
    |sch.kinds| < 0x2000_0000 && forall k :: 0 <= k < |sch.kinds| ==> NumberedKind(sch.kinds[k])
  }

  ghost predicate NumberedKind(kind: Kind)
    decreases kind
  {
    kind.KMessages? ==> Numbered(kind.sub)
  }

  lemma {:induction false} ReadWrittenTag(field: nat, wireType: nat, rest: bytes)
    requires field < 0x1FFF_FFFF && wireType < 8 && wireType != 4
    ensures ReadTag(Tag(field, wireType) + rest) == Ok((field + 1, wireType, |Tag(field, wireType)|))
  {
    var wire := (field + 1) * 8 + wireType;
    Varint.RoundTrip(wire, rest);
    ModUnique(wire, field + 1, wireType, 8);
    ModSmall(field + 1, TWO_32);
  }

  lemma {:induction false} StepNumber(sch: Schema, k: nat, v: uint64)
    requires Numbered(sch) && k < |sch.kinds| && !AcceptsOf(sch.kinds[k]).AcceptsBlob?
    ensures var b := Tag(k, 0) + Varint.Encode(v); Step(Switch(sch), b) == Ok((Number(k, v), |b|))
  {
    hide Varint.Read, Skip;
    var t := Tag(k, 0);
    var b := t + Varint.Encode(v);
    ReadWrittenTag(k, 0, Varint.Encode(v));
    assert b[|t|..] == Varint.Encode(v) + [];
    Varint.RoundTrip(v, []);
  }

  lemma {:induction false} ReadWrittenLength(t: bytes, payload: bytes)
    requires |payload| < TWO_63
    ensures var start := |t| + |Varint.Encode(|payload|)|;
            var b := t + Varint.Encode(|payload|) + payload;
            ReadLength(b, |t|) == Ok((start, |b|)) && b[start..] == payload
  {
    hide Varint.Read;
    var b := t + Varint.Encode(|payload|) + payload;
    assert b[|t|..] == Varint.Encode(|payload|) + payload;
    Varint.RoundTrip(|payload|, payload);
  }

  lemma {:induction false} StepBlob(sch: Schema, k: nat, payload: bytes)
    requires Numbered(sch) && k < |sch.kinds| && AcceptsOf(sch.kinds[k]).AcceptsBlob?
    requires |payload| < TWO_63
    ensures Step(Switch(sch), Delimited(k, payload)) == Ok((Blob(k, payload), |Delimited(k, payload)|))
  {
    hide Varint.Read, Skip, ReadLength;
    var t, e, b := Tag(k, 2), Varint.Encode(|payload|), Delimited(k, payload);
    assert b == t + (e + payload);
    ReadWrittenTag(k, 2, e + payload);
    ReadWrittenLength(t, payload);
    assert b[|t| + |e|..|b|] == payload;
  }

  lemma {:induction false} ReadWrittenIds(b: bytes, i: nat, ids: seq<uint64>)
    requires i <= |b| && b[i..] == EncodeIds(ids)
    ensures ReadPacked(b, i, |b|) == Ok((ids, |b|))
    decreases |ids|
  {
    hide Varint.Read;
    if |ids| > 0 {
      var e := Varint.Encode(ids[0]);
      Varint.RoundTrip(ids[0], EncodeIds(ids[1..]));
      assert b[i + |e|..] == b[i..][|e|..] == EncodeIds(ids[1..]);
      ReadWrittenIds(b, i + |e|, ids[1..]);
      assert [ids[0]] + ids[1..] == ids;
    }
  }

  lemma {:induction false} StepPack(sch: Schema, k: nat, ids: seq<uint64>)
    requires Numbered(sch) && k < |sch.kinds| && sch.kinds[k].KPacked?
    requires |EncodeIds(ids)| < TWO_63
    ensures var b := Delimited(k, EncodeIds(ids)); Step(Switch(sch), b) == Ok((Pack(k, ids), |b|))
  {
    hide Varint.Read, Skip, ReadLength;
    var payload := EncodeIds(ids);
    var t, e, b := Tag(k, 2), Varint.Encode(|payload|), Delimited(k, payload);
    assert b == t + (e + payload);
    ReadWrittenTag(k, 2, e + payload);
    ReadWrittenLength(t, payload);
    ReadWrittenIds(b, |t| + |e|, ids);
  }

  // A buffer holding exactly one record.
  lemma {:induction false} DecodeOne(sch: Schema, discard: bool, b: bytes, m: Msg, it: Item)
    requires Typed(sch, m) && |b| > 0 && Step(Switch(sch), b) == Ok((it, |b|))
    ensures ItemFits(sch, it) && Decode(sch, discard, b, m) == Apply(sch, discard, m, it)
  {
    hide Step;
    DecodeRecord(sch, discard, b, m, it, |b|);
    assert b[|b|..] == [];
  }

  // ---- Merging ----

  // What decoding an encoded value on top of another one gives: an absent scalar leaves the
  // old one, a present one replaces it, lists are appended.
  function MergeVal(old_: Val, v: Val): Val
  {
    match v
    case U(u) => if u == 0 then old_ else v
    case E(e) => if e == 0 then old_ else v
    case B(b) => if !b then old_ else v
    case S(s) => if |s| == 0 then old_ else v
    case Ms(ms) => if old_.Ms? then Ms(old_.ms + ms) else v
    case Us(us) => if old_.Us? then Us(old_.us + us) else v
  }

  // m0 with the fields of m from k on merged in.
  function MergeFrom(m0: Msg, m: Msg, k: nat): Msg
    requires |m0.vals| == |m.vals|
  {
    m0.(vals := seq(|m.vals|, j requires 0 <= j < |m.vals| =>
      if j < k then m0.vals[j] else MergeVal(m0.vals[j], m.vals[j])))
  }

  function Merge(m0: Msg, m: Msg): Msg
    requires |m0.vals| == |m.vals|
  {
    MergeFrom(m0, m, 0).(unknown := m0.unknown + m.unknown)
  }

  lemma {:induction false} ScalarMerges(sch: Schema, k: nat, v: Val, m: Msg)
    requires Numbered(sch) && Typed(sch, m) && k < |sch.kinds| && !sch.kinds[k].KMessages?
    requires Fits(sch.kinds[k], v) && |EncodeField(k, sch.kinds[k], v)| < TWO_63
    ensures Decode(sch, false, EncodeField(k, sch.kinds[k], v), m)
            == Ok(m.(vals := m.vals[k := MergeVal(m.vals[k], v)]))
  {
    hide Step;
    var b := EncodeField(k, sch.kinds[k], v);
    assert Fits(sch.kinds[k], m.vals[k]);
    if v == Default(sch.kinds[k]) {
      assert v.Us? ==> m.vals[k].us + [] == m.vals[k].us;
      assert m.vals[k := m.vals[k]] == m.vals;
    } else {
      match v
      case U(u) => StepNumber(sch, k, u); DecodeOne(sch, false, b, m, Number(k, u));
      case E(e) =>
        Varint.EnumRoundTrip(e, []);
        StepNumber(sch, k, SignExtend(e));
        DecodeOne(sch, false, b, m, Number(k, SignExtend(e)));
      case B(_) =>
        assert Varint.Encode(1) == [1];
        StepNumber(sch, k, 1);
        DecodeOne(sch, false, b, m, Number(k, 1));
      case S(s) => StepBlob(sch, k, s); DecodeOne(sch, false, b, m, Blob(k, s));
      case Us(us) => StepPack(sch, k, us); DecodeOne(sch, false, b, m, Pack(k, us));
    }
  }

  lemma {:induction false} ChildMerges(sch: Schema, k: nat, child: Msg, m: Msg)
    requires Numbered(sch) && Typed(sch, m) && k < |sch.kinds| && sch.kinds[k].KMessages?
    requires Typed(sch.kinds[k].sub, child) && |EncodeMsg(sch.kinds[k].sub, child)| < TWO_63
    requires var sub := sch.kinds[k].sub; Decode(sub, false, EncodeMsg(sub, child), Empty(sub)) == Ok(child)
    ensures Fits(sch.kinds[k], m.vals[k])
    ensures Decode(sch, false, Delimited(k, EncodeMsg(sch.kinds[k].sub, child)), m)
            == Ok(m.(vals := m.vals[k := Ms(m.vals[k].ms + [child])]))
  {
    hide Step;
    var payload := EncodeMsg(sch.kinds[k].sub, child);
    StepBlob(sch, k, payload);
    DecodeOne(sch, false, Delimited(k, payload), m, Blob(k, payload));
  }

  function AppendChildren(m: Msg, k: nat, ms: seq<Msg>): Msg
    requires k < |m.vals| && m.vals[k].Ms?
  {
    m.(vals := m.vals[k := Ms(m.vals[k].ms + ms)])
  }

  lemma AppendChildrenTwice(m: Msg, k: nat, a: seq<Msg>, b: seq<Msg>)
    requires k < |m.vals| && m.vals[k].Ms?
    ensures AppendChildren(m, k, []) == m
    ensures AppendChildren(AppendChildren(m, k, a), k, b) == AppendChildren(m, k, a + b)
  {
    assert m.vals[k].ms + [] == m.vals[k].ms;
    assert m.vals[k := m.vals[k]] == m.vals;
    assert m.vals[k].ms + a + b == m.vals[k].ms + (a + b);
    assert AppendChildren(AppendChildren(m, k, a), k, b).vals == AppendChildren(m, k, a + b).vals;
  }

  lemma DecodeNothing(sch: Schema, discard: bool, b: bytes, m: Msg)
    requires Typed(sch, m) && b == []
    ensures Decode(sch, discard, b, m) == Ok(m)
  {
  }

  lemma PayloadInside(k: nat, payload: bytes)
    ensures |payload| <= |Delimited(k, payload)|
  {
  }

  lemma {:induction false} ChildrenMerge(sch: Schema, k: nat, ms: seq<Msg>, m: Msg)
    requires Numbered(sch) && Typed(sch, m) && k < |sch.kinds| && sch.kinds[k].KMessages?
    requires Fits(sch.kinds[k], Ms(ms)) && CleanVal(sch.kinds[k], Ms(ms))
    requires |EncodeChildren(k, sch.kinds[k], ms)| < TWO_63
    ensures Fits(sch.kinds[k], m.vals[k])
    ensures Decode(sch, false, EncodeChildren(k, sch.kinds[k], ms), m) == Ok(AppendChildren(m, k, ms))
    decreases sch, 0, |ms|
  {
    hide Step, Decode, Delimited, EncodeMsg, Merge, Clean;
    assert Fits(sch.kinds[k], m.vals[k]);
    if |ms| == 0 {
      AppendChildrenTwice(m, k, [], []);
      DecodeNothing(sch, false, EncodeChildren(k, sch.kinds[k], ms), m);
    } else {
      var sub := sch.kinds[k].sub;
      var b, rest := Delimited(k, EncodeMsg(sub, ms[0])), EncodeChildren(k, sch.kinds[k], ms[1..]);
      assert NumberedKind(sch.kinds[k]);
      PayloadInside(k, EncodeMsg(sub, ms[0]));
      RoundTrip(sub, ms[0]);
      ChildMerges(sch, k, ms[0], m);
      Concatenation(sch, false, b, rest, m);
      ChildrenMerge(sch, k, ms[1..], AppendChildren(m, k, [ms[0]]));
      AppendChildrenTwice(m, k, [ms[0]], ms[1..]);
      assert [ms[0]] + ms[1..] == ms;
    }
  }

  lemma {:induction false} FieldMerges(sch: Schema, k: nat, v: Val, m: Msg)
    requires Numbered(sch) && Typed(sch, m) && k < |sch.kinds|
    requires Fits(sch.kinds[k], v) && CleanVal(sch.kinds[k], v)
    requires |EncodeField(k, sch.kinds[k], v)| < TWO_63
    ensures Fits(sch.kinds[k], MergeVal(m.vals[k], v))
    ensures Decode(sch, false, EncodeField(k, sch.kinds[k], v), m)
            == Ok(m.(vals := m.vals[k := MergeVal(m.vals[k], v)]))
    decreases sch, 1, 0
  {
    hide Step;
    assert Fits(sch.kinds[k], m.vals[k]);
    if sch.kinds[k].KMessages? {
      ChildrenMerge(sch, k, v.ms, m);
    } else {
      ScalarMerges(sch, k, v, m);
    }
  }

  lemma MergeFromStep(m0: Msg, m: Msg, k: nat)
    requires |m0.vals| == |m.vals| && k < |m.vals|
    ensures MergeFrom(m0.(vals := m0.vals[k := MergeVal(m0.vals[k], m.vals[k])]), m, k + 1) == MergeFrom(m0, m, k)
  {
    var m1 := m0.(vals := m0.vals[k := MergeVal(m0.vals[k], m.vals[k])]);
    assert MergeFrom(m1, m, k + 1).vals == MergeFrom(m0, m, k).vals;
  }

  // The fields from k on are merged one by one; the unknown bytes are left to decode.
  lemma {:induction false} FieldsMerge(sch: Schema, m: Msg, k: nat, m0: Msg)
    requires Numbered(sch) && Typed(sch, m) && Typed(sch, m0) && CleanFields(sch, m)
    requires k <= |sch.kinds| && |EncodeFrom(sch, m, k)| < TWO_63
    ensures |m.unknown| <= |EncodeFrom(sch, m, k)|
    ensures Typed(sch, MergeFrom(m0, m, k))
    ensures Decode(sch, false, EncodeFrom(sch, m, k), m0)
            == Shift(|EncodeFrom(sch, m, k)| - |m.unknown|, Decode(sch, false, m.unknown, MergeFrom(m0, m, k)))
    decreases sch, 2, |sch.kinds| - k
  {
    hide Step, Decode, EncodeField, MergeVal;
    if k == |sch.kinds| {
      assert MergeFrom(m0, m, k).vals == m0.vals;
    } else {
      var f := EncodeField(k, sch.kinds[k], m.vals[k]);
      FieldMerges(sch, k, m.vals[k], m0);
      var m1 := m0.(vals := m0.vals[k := MergeVal(m0.vals[k], m.vals[k])]);
      assert Typed(sch, m1);
      FieldsMerge(sch, m, k + 1, m1);
      MergeFromStep(m0, m, k);
      Concatenation(sch, false, f, EncodeFrom(sch, m, k + 1), m0);
    }
  }

  // Unmarshalling marshalled bytes on top of any message merges the two.
  lemma {:induction false} MarshalledMerges(sch: Schema, m: Msg, m0: Msg)
    requires Numbered(sch) && Typed(sch, m) && Typed(sch, m0) && Clean(sch, m)
    requires |EncodeMsg(sch, m)| < TWO_63
    ensures Decode(sch, false, EncodeMsg(sch, m), m0) == Ok(Merge(m0, m))
    decreases sch, 3
  {
    hide Step, MergeVal;
    FieldsMerge(sch, m, 0, m0);
    DecodeUnknown(sch, m.unknown, MergeFrom(m0, m, 0));
  }

  lemma {:induction false} MergeIntoEmpty(sch: Schema, m: Msg)
    requires Typed(sch, m)
    ensures MergeFrom(Empty(sch), m, 0) == m.(unknown := []) && Merge(Empty(sch), m) == m
  {
    forall k | 0 <= k < |m.vals|
      ensures MergeVal(Empty(sch).vals[k], m.vals[k]) == m.vals[k]
    {
      assert Fits(sch.kinds[k], m.vals[k]);
      assert m.vals[k].Ms? ==> [] + m.vals[k].ms == m.vals[k].ms;
      assert m.vals[k].Us? ==> [] + m.vals[k].us == m.vals[k].us;
    }
    assert MergeFrom(Empty(sch), m, 0).vals == m.vals;
    assert [] + m.unknown == m.unknown;
  }

  // ---- Round trip ----

  // Unmarshalling what was marshalled gives the message back, lists in order and nested
  // messages included; the unknown bytes must be unknown records.
  lemma {:induction false} RoundTrip(sch: Schema, m: Msg)
    requires Numbered(sch) && Typed(sch, m) && Clean(sch, m)
    requires |EncodeMsg(sch, m)| < TWO_63
    ensures Decode(sch, false, EncodeMsg(sch, m), Empty(sch)) == Ok(m)
    decreases sch, 4
  {
    MarshalledMerges(sch, m, Empty(sch));
    MergeIntoEmpty(sch, m);
  }

  // ---- Normalisation ----

  lemma {:induction false} RawAlone(sch: Schema, b: bytes)
    requires |b| > 0 && Step(Switch(sch), b).Ok? && Step(Switch(sch), b).value.0.Raw?
    ensures UnknownOnly(sch, b[..Step(Switch(sch), b).value.1])
  {
    var n := Step(Switch(sch), b).value.1;
    StepLocal(Switch(sch), b, b[..n]);
    hide Step;
    assert b[..n][n..] == [];
  }

  lemma {:induction false} EmptyClean(sch: Schema)
    ensures Clean(sch, Empty(sch))
  {
  }

  lemma {:induction false} ApplyKeepsClean(sch: Schema, discard: bool, m: Msg, it: Item)
    requires Typed(sch, m) && ItemFits(sch, it) && Clean(sch, m)
    requires it.Raw? ==> UnknownOnly(sch, it.raw)
    requires Apply(sch, discard, m, it).Ok?
    ensures Clean(sch, Apply(sch, discard, m, it).value)
    decreases sch, 0
  {
    hide Step;
    if it.Raw? {
      UnknownOnlyAppend(sch, m.unknown, it.raw);
    } else {
      var k := it.field;
      if sch.kinds[k].KMessages? {
        var sub := sch.kinds[k].sub;
        EmptyClean(sub);
        DecodeKeepsClean(sub, discard, it.payload, Empty(sub));
        assert CleanVal(sch.kinds[k], m.vals[k]);
      }
      var r := Apply(sch, discard, m, it).value;
      forall j | 0 <= j < |r.vals|
        ensures CleanVal(sch.kinds[j], r.vals[j])
      {
        assert CleanVal(sch.kinds[j], m.vals[j]);
      }
    }
  }

  // Whatever bytes are decoded, the unknown bytes collected are unknown records.
  lemma {:induction false} DecodeKeepsClean(sch: Schema, discard: bool, b: bytes, m: Msg)
    requires Typed(sch, m) && Clean(sch, m) && Decode(sch, discard, b, m).Ok?
    ensures Clean(sch, Decode(sch, discard, b, m).value)
    decreases sch, 1, |b|
  {
    hide Step;
    if |b| > 0 {
      var (it, n) := Step(Switch(sch), b).value;
      DecodeRecord(sch, discard, b, m, it, n);
      if it.Raw? {
        RawAlone(sch, b);
      }
      ApplyKeepsClean(sch, discard, m, it);
      DecodeKeepsClean(sch, discard, b[n..], Apply(sch, discard, m, it).value);
    }
  }

  // The condition of the round trip is exact, at every depth.
  lemma {:induction false} RoundTripExactly(sch: Schema, m: Msg)
    requires Numbered(sch) && Typed(sch, m) && |EncodeMsg(sch, m)| < TWO_63
    ensures Decode(sch, false, EncodeMsg(sch, m), Empty(sch)) == Ok(m) <==> Clean(sch, m)
  {
    hide Decode, Clean, EncodeMsg;
    if Clean(sch, m) {
      RoundTrip(sch, m);
    }
    if Decode(sch, false, EncodeMsg(sch, m), Empty(sch)) == Ok(m) {
      EmptyClean(sch);
      DecodeKeepsClean(sch, false, EncodeMsg(sch, m), Empty(sch));
    }
  }

  // Decoding any accepted bytes and encoding the result gives a canonical form: decoding it
  // again gives the same message, unknown bytes included and in order.
  lemma {:induction false} Normalisation(sch: Schema, discard: bool, b: bytes)
    requires Numbered(sch) && Decode(sch, discard, b, Empty(sch)).Ok?
    requires |EncodeMsg(sch, Decode(sch, discard, b, Empty(sch)).value)| < TWO_63
    ensures var m := Decode(sch, discard, b, Empty(sch)).value;
            Decode(sch, false, EncodeMsg(sch, m), Empty(sch)) == Ok(m)
  {
    EmptyClean(sch);
    DecodeKeepsClean(sch, discard, b, Empty(sch));
    RoundTrip(sch, Decode(sch, discard, b, Empty(sch)).value);
  }

  // ---- Discarding unknown fields ----

  function EraseVal(kind: Kind, v: Val): (r: Val)
    requires Fits(kind, v)
    ensures Fits(kind, r)
    decreases kind
  {
    match kind
    case KMessages(sub) =>
      Ms(seq(|v.ms|, j requires 0 <= j < |v.ms| => Erase(sub, v.ms[j])))
    case _ => v
  }

  // m without any unknown bytes, at any depth.
  function Erase(sch: Schema, m: Msg): (r: Msg)
    requires Typed(sch, m)
    ensures Typed(sch, r)
    decreases sch
  {
    Msg(seq(|m.vals|, k requires 0 <= k < |m.vals| => EraseVal(sch.kinds[k], m.vals[k])), [])
  }

  function EraseResult(sch: Schema, r: Result<Msg>): Result<Msg>
    requires r.Ok? ==> Typed(sch, r.value)
  {
    match r
    case Ok(m) => Ok(Erase(sch, m))
    case Err(e) => Err(e)
  }

  lemma {:induction false} EraseEmpty(sch: Schema)
    ensures Erase(sch, Empty(sch)) == Empty(sch)
  {
    var m := Empty(sch);
    forall k | 0 <= k < |m.vals|
      ensures EraseVal(sch.kinds[k], m.vals[k]) == m.vals[k]
    {
    }
    assert Erase(sch, m).vals == m.vals;
  }

  lemma {:induction false} EraseUpdate(sch: Schema, m: Msg, k: nat, v: Val)
    requires Typed(sch, m) && k < |m.vals| && Fits(sch.kinds[k], v)
    ensures Erase(sch, m.(vals := m.vals[k := v])) == Erase(sch, m).(vals := Erase(sch, m).vals[k := EraseVal(sch.kinds[k], v)])
  {
    assert Erase(sch, m.(vals := m.vals[k := v])).vals == Erase(sch, m).vals[k := EraseVal(sch.kinds[k], v)];
  }

  lemma {:induction false} DiscardVal(kind: Kind, v: Val, it: Item)
    requires Fits(kind, v) && !it.Raw?
    requires it.Number? ==> !AcceptsOf(kind).AcceptsBlob?
    requires it.Blob? ==> AcceptsOf(kind).AcceptsBlob?
    requires it.Pack? ==> AcceptsOf(kind).AcceptsPacked?
    ensures var r := ApplyVal(kind, false, v, it);
            ApplyVal(kind, true, EraseVal(kind, v), it) == if r.Ok? then Ok(EraseVal(kind, r.value)) else r
    decreases kind, 0
  {
    hide Step;
    if kind.KMessages? {
      var sub := kind.sub;
      EraseEmpty(sub);
      Discarding(sub, it.payload, Empty(sub));
      var r := Decode(sub, false, it.payload, Empty(sub));
      if r.Ok? {
        assert EraseVal(kind, Ms(v.ms + [r.value])).ms == EraseVal(kind, v).ms + [Erase(sub, r.value)];
      }
    }
  }

  // Decoding with DiscardUnknown accepts the same inputs with the same errors, and gives the
  // same message with the unknown bytes erased at every depth.
  lemma {:induction false} Discarding(sch: Schema, b: bytes, m: Msg)
    requires Typed(sch, m)
    ensures Decode(sch, true, b, Erase(sch, m)) == EraseResult(sch, Decode(sch, false, b, m))
    decreases sch, |b| + 1
  {
    hide Step;
    if |b| > 0 && Step(Switch(sch), b).Ok? {
      var (it, n) := Step(Switch(sch), b).value;
      DecodeRecord(sch, false, b, m, it, n);
      DecodeRecord(sch, true, b, Erase(sch, m), it, n);
      if !it.Raw? {
        DiscardVal(sch.kinds[it.field], m.vals[it.field], it);
      }
      var r := Apply(sch, false, m, it);
      if r.Ok? {
        if !it.Raw? {
          EraseUpdate(sch, m, it.field, ApplyVal(sch.kinds[it.field], false, m.vals[it.field], it).value);
        }
        Discarding(sch, b[n..], r.value);
      }
    }
  }

  // ---- Packed and unpacked lists ----

  // One way to write part of an id list: a packed block or a single varint field.
  datatype Chunk = Block(ids: seq<uint64>) | Single(id: uint64)

  function Ids(c: Chunk): seq<uint64> {
    match c
    case Block(ids) => ids
    case Single(id) => [id]
  }

  function EncodeChunk(field: nat, c: Chunk): bytes {
    match c
    case Block(ids) => Delimited(field, EncodeIds(ids))
    case Single(id) => Tag(field, 0) + Varint.Encode(id)
  }

  function AllIds(cs: seq<Chunk>): seq<uint64> {
    if |cs| == 0 then [] else Ids(cs[0]) + AllIds(cs[1..])
  }

  function EncodeChunks(field: nat, cs: seq<Chunk>): bytes {
    if |cs| == 0 then [] else EncodeChunk(field, cs[0]) + EncodeChunks(field, cs[1..])
  }

  function AppendIds(m: Msg, k: nat, ids: seq<uint64>): Msg
    requires k < |m.vals| && m.vals[k].Us?
  {
    m.(vals := m.vals[k := Us(m.vals[k].us + ids)])
  }

  lemma {:induction false} ChunkDecodes(sch: Schema, discard: bool, k: nat, c: Chunk, m: Msg)
    requires Numbered(sch) && Typed(sch, m) && k < |sch.kinds| && sch.kinds[k].KPacked?
    requires |EncodeChunk(k, c)| < TWO_63
    ensures Fits(sch.kinds[k], m.vals[k])
    ensures Decode(sch, discard, EncodeChunk(k, c), m) == Ok(AppendIds(m, k, Ids(c)))
  {
    hide Step;
    match c
    case Block(ids) =>
      StepPack(sch, k, ids);
      DecodeOne(sch, discard, EncodeChunk(k, c), m, Pack(k, ids));
    case Single(id) =>
      StepNumber(sch, k, id);
      DecodeOne(sch, discard, EncodeChunk(k, c), m, Number(k, id));
  }

  // Any mix of packed blocks and single fields decodes to the same ids in the same order.
  lemma {:induction false} ChunksDecode(sch: Schema, discard: bool, k: nat, cs: seq<Chunk>, m: Msg)
    requires Numbered(sch) && Typed(sch, m) && k < |sch.kinds| && sch.kinds[k].KPacked?
    requires |EncodeChunks(k, cs)| < TWO_63
    ensures Fits(sch.kinds[k], m.vals[k])
    ensures Decode(sch, discard, EncodeChunks(k, cs), m) == Ok(AppendIds(m, k, AllIds(cs)))
    decreases |cs|
  {
    hide Step;
    if |cs| == 0 {
      AppendNothing(m, k);
    } else {
      ChunkDecodes(sch, discard, k, cs[0], m);
      var m' := AppendIds(m, k, Ids(cs[0]));
      var b, rest := EncodeChunk(k, cs[0]), EncodeChunks(k, cs[1..]);
      assert EncodeChunks(k, cs) == b + rest;
      ChunksDecode(sch, discard, k, cs[1..], m');
      Concatenation(sch, discard, b, rest, m);
      AppendTwice(m, k, Ids(cs[0]), AllIds(cs[1..]));
    }
  }

  lemma AppendNothing(m: Msg, k: nat)
    requires k < |m.vals| && m.vals[k].Us?
    ensures AppendIds(m, k, []) == m
  {
    assert m.vals[k].us + [] == m.vals[k].us;
    assert m.vals[k := m.vals[k]] == m.vals;
  }

  lemma AppendTwice(m: Msg, k: nat, a: seq<uint64>, b: seq<uint64>)
    requires k < |m.vals| && m.vals[k].Us?
    ensures AppendIds(AppendIds(m, k, a), k, b) == AppendIds(m, k, a + b)
  {
    assert m.vals[k].us + a + b == m.vals[k].us + (a + b);
    assert AppendIds(AppendIds(m, k, a), k, b).vals == AppendIds(m, k, a + b).vals;
  }
}
