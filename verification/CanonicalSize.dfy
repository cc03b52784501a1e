// How long the canonical form of decoded bytes can be: at most twice the bytes. A status of
// -1 written in five bytes comes back in ten, and nothing grows faster.
module CanonicalSize {
  import opened GoInts
  import opened Wire
  import opened Codec
  import opened CodecLaws
  import opened Results
  import Varint

  // ---- Varints ----

  lemma SovBound(v: nat)
    ensures v < Pow2(7 * Varint.Sov(v))
  {
    Varint.EncodeShape(v);
    Varint.ValueBound(Varint.Encode(v));
  }

  lemma {:induction false} Pow2Grows(a: nat, b: nat)
    requires a <= b
    ensures Pow2(a) <= Pow2(b)
  {
    if a < b {
      Pow2Grows(a, b - 1);
    }
  }

  lemma SovGrows(v: nat, w: nat)
    requires v <= w
    ensures Varint.Sov(v) <= Varint.Sov(w)
  {
    SovBound(w);
    Varint.EncodeLength(v, Varint.Sov(w));
  }

  lemma SovSum(v: nat, w: nat)
    ensures Varint.Sov(v + w) <= Varint.Sov(v) + Varint.Sov(w)
  {
    hide Pow2, Varint.Sov, Varint.Encode;
    var a, b := Varint.Sov(v), Varint.Sov(w);
    var top := if a >= b then a else b;
    SovBound(v);
    SovBound(w);
    Pow2Grows(7 * a, 7 * top);
    Pow2Grows(7 * b, 7 * top);
    Pow2Sum(7, 7 * top);
    Pow2Constants();
    Varint.EncodeLength(v + w, top + 1);
  }

  lemma {:induction false} SovAtMost(v: nat)
    requires v > 0
    ensures Varint.Sov(v) <= v
  {
    if v >= 128 {
      SovAtMost(v / 128);
    }
  }

  // A varint is never shorter than the canonical encoding of its value.
  lemma ReadNoShorter(b: bytes)
    requires Varint.Read(b).Ok?
    ensures var (v, n) := Varint.Read(b).value; v < Pow2(7 * n) && Varint.Sov(v) <= n
  {
    hide Varint.Sov, Varint.Encode, Varint.Value;
    var (v, n) := Varint.Read(b).value;
    Varint.ReadCharacterised(b, n);
    Varint.ValueBound(b[..n]);
    assert v <= Varint.Value(b[..n]);
    Varint.EncodeLength(v, n);
  }

  lemma TagNoShorter(b: bytes, wireType: nat)
    requires ReadTag(b).Ok? && wireType < 8
    ensures |Tag(ReadTag(b).value.0 - 1, wireType)| <= ReadTag(b).value.2
  {
    hide Varint.Sov, Varint.Encode, Varint.Read;
    var (wire, n) := Varint.Read(b).value;
    var f := ReadTag(b).value.0;
    ReadNoShorter(b);
    Pow2Sum(3, 7 * n - 3);
    assert Pow2(3) == 8;
    assert f <= wire / 8 < Pow2(7 * n - 3);
    Varint.EncodeLength(f * 8 + wireType, n);
  }

  // ---- Fields ----

  // Replacing one field changes the size by that field's difference.
  lemma {:induction false} FieldSwapped(sch: Schema, m: Msg, k: nat, v: Val, j: nat)
    requires Typed(sch, m) && j <= k < |sch.kinds| && Fits(sch.kinds[k], v)
    ensures Fits(sch.kinds[k], m.vals[k]) && Typed(sch, m.(vals := m.vals[k := v]))
    ensures |EncodeFrom(sch, m.(vals := m.vals[k := v]), j)| + |EncodeField(k, sch.kinds[k], m.vals[k])|
            == |EncodeFrom(sch, m, j)| + |EncodeField(k, sch.kinds[k], v)|
    decreases k - j
  {
    hide EncodeField;
    assert Fits(sch.kinds[k], m.vals[k]);
    var m' := m.(vals := m.vals[k := v]);
    if j < k {
      FieldSwapped(sch, m, k, v, j + 1);
      assert m'.vals[j] == m.vals[j];
    } else {
      LaterFieldsSame(sch, m, m', j + 1);
    }
  }

  lemma {:induction false} LaterFieldsSame(sch: Schema, m: Msg, m': Msg, j: nat)
    requires Typed(sch, m) && Typed(sch, m') && j <= |sch.kinds|
    requires m.unknown == m'.unknown && forall i :: j <= i < |sch.kinds| ==> m.vals[i] == m'.vals[i]
    ensures EncodeFrom(sch, m, j) == EncodeFrom(sch, m', j)
    decreases |sch.kinds| - j
  {
    if j < |sch.kinds| {
      LaterFieldsSame(sch, m, m', j + 1);
    }
  }

  lemma {:induction false} UnknownGrown(sch: Schema, m: Msg, u: bytes, j: nat)
    requires Typed(sch, m) && j <= |sch.kinds|
    ensures |EncodeFrom(sch, m.(unknown := m.unknown + u), j)| == |EncodeFrom(sch, m, j)| + |u|
    decreases |sch.kinds| - j
  {
    hide EncodeField;
    if j < |sch.kinds| {
      UnknownGrown(sch, m, u, j + 1);
    }
  }

  lemma {:induction false} EmptyTakesNothing(sch: Schema, j: nat)
    requires j <= |sch.kinds|
    ensures EncodeFrom(sch, Empty(sch), j) == []
    decreases |sch.kinds| - j
  {
    if j < |sch.kinds| {
      assert EncodeField(j, sch.kinds[j], Default(sch.kinds[j])) == [];
      assert Empty(sch).vals[j] == Default(sch.kinds[j]);
      EmptyTakesNothing(sch, j + 1);
    }
  }

  // ---- Lists ----

  lemma {:induction false} ChildAppended(k: nat, kind: Kind, ms: seq<Msg>, c: Msg)
    requires kind.KMessages? && (forall j :: 0 <= j < |ms| ==> Typed(kind.sub, ms[j])) && Typed(kind.sub, c)
    ensures |EncodeChildren(k, kind, ms + [c])| == |EncodeChildren(k, kind, ms)| + |Delimited(k, EncodeMsg(kind.sub, c))|
  {
    hide Delimited, EncodeMsg;
    if |ms| == 0 {
      assert ms + [c] == [c] && [c][1..] == [];
    } else {
      ChildAppended(k, kind, ms[1..], c);
      assert (ms + [c])[1..] == ms[1..] + [c];
    }
  }

  lemma {:induction false} IdsAppended(a: seq<uint64>, b: seq<uint64>)
    ensures EncodeIds(a + b) == EncodeIds(a) + EncodeIds(b)
  {
    hide Varint.Encode;
    if |a| == 0 {
      assert a + b == b;
    } else {
      IdsAppended(a[1..], b);
      assert (a + b)[1..] == a[1..] + b;
      assert EncodeIds(a + b) == Varint.Encode(a[0]) + (EncodeIds(a[1..]) + EncodeIds(b));
    }
  }

  lemma {:induction false} IdsNoShorter(b: bytes, i: nat, post: nat)
    requires i <= |b| && post <= |b| && ReadPacked(b, i, post).Ok?
    ensures |EncodeIds(ReadPacked(b, i, post).value.0)| <= ReadPacked(b, i, post).value.1 - i
    decreases |b| - i
  {
    hide Varint.Read, Varint.Encode;
    if i < post {
      var (v, n) := Varint.Read(b[i..]).value;
      ReadNoShorter(b[i..]);
      IdsNoShorter(b, i + n, post);
      var rest := ReadPacked(b, i + n, post).value.0;
      assert ([v] + rest)[1..] == rest;
    }
  }

  // ids that took `taken` bytes after a tag of `tag` bytes, appended to a list.
  lemma IdsGrow(k: nat, us: seq<uint64>, ids: seq<uint64>, tag: nat, taken: nat)
    requires |Tag(k, 2)| <= tag && |EncodeIds(ids)| <= taken
    ensures |EncodeField(k, KPacked, Us(us + ids))| <= |EncodeField(k, KPacked, Us(us))| + 2 * (tag + taken)
  {
    hide Tag, Varint.Sov, Varint.Encode;
    IdsAppended(us, ids);
    var x, y := |EncodeIds(us)|, |EncodeIds(ids)|;
    if ids == [] {
      assert us + ids == us;
    } else {
      SomeIds(ids);
      SovAtMost(y);
      SovSum(x, y);
      assert us == [] ==> us + ids == ids;
    }
  }

  lemma SomeIds(ids: seq<uint64>)
    requires ids != []
    ensures |EncodeIds(ids)| > 0
  {
  }

  // ---- One record ----

  lemma NumberGrows(kind: Kind, k: nat, b: bytes, n: nat, old_: Val)
    requires !kind.KPacked? && !AcceptsOf(kind).AcceptsBlob? && Fits(kind, old_)
    requires n <= |b| && ReadTag(b).Ok? && ReadTag(b).value == (k + 1, 0, n) && Varint.Read(b[n..]).Ok?
    ensures var (v, taken) := Varint.Read(b[n..]).value;
            |EncodeField(k, kind, ApplyVal(kind, false, old_, Number(k, v)).value)| <= 2 * (n + taken)
  {
    hide Varint.Read, Varint.Encode, Varint.Sov, ReadTag;
    var (v, taken) := Varint.Read(b[n..]).value;
    TagNoShorter(b, 0);
    ReadNoShorter(b[n..]);
    if kind.KEnum? {
      EnumGrows(v, taken);
    }
  }

  lemma EnumGrows(v: uint64, taken: nat)
    requires v < Pow2(7 * taken) && taken > 0
    ensures Varint.Sov(SignExtend(AsInt32(v))) <= 2 * taken
  {
    hide Varint.Sov, Varint.Encode, Pow2;
    if AsInt32(v) < 0 {
      Varint.TenBytes(SignExtend(AsInt32(v)));
      if taken < 5 {
        Pow2Grows(7 * taken, 28);
        TwentyEight();
      }
    } else {
      assert SignExtend(AsInt32(v)) <= v;
      Varint.EncodeLength(SignExtend(AsInt32(v)), taken);
    }
  }

  lemma TwentyEight()
    ensures Pow2(28) == 0x1000_0000
  {
    assert Pow2(7) == 128;
    Pow2Sum(7, 7);
    Pow2Sum(14, 14);
  }

  // A payload of size bytes behind a length prefix, encoded as at most twice as many.
  lemma DelimitedGrows(k: nat, payload: bytes, size: nat, tag: nat, prefix: nat)
    requires |Tag(k, 2)| <= tag && Varint.Sov(size) <= prefix && |payload| <= 2 * size
    ensures |Delimited(k, payload)| <= 2 * (tag + prefix + size)
  {
    hide Varint.Sov, Varint.Encode, Tag;
    SovGrows(|payload|, size + size);
    SovSum(size, size);
  }

  lemma LengthNoShorter(b: bytes, n: nat)
    requires n <= |b| && ReadLength(b, n).Ok?
    ensures var (start, post) := ReadLength(b, n).value; n + Varint.Sov(post - start) <= start
  {
    hide Varint.Sov, Varint.Read;
    ReadNoShorter(b[n..]);
  }

  // ---- Whole messages ----

  lemma {:induction false} RecordGrows(sch: Schema, discard: bool, b: bytes, m: Msg)
    requires Typed(sch, m) && |b| > 0 && Step(Switch(sch), b).Ok?
    requires var it := Step(Switch(sch), b).value.0; ItemFits(sch, it) && Apply(sch, discard, m, it).Ok?
    ensures var (it, n) := Step(Switch(sch), b).value;
            |EncodeMsg(sch, Apply(sch, discard, m, it).value)| <= |EncodeMsg(sch, m)| + 2 * n
    decreases sch, 0
  {
    hide Skip, ReadTag, ReadLength, ReadPacked, Varint.Read, EncodeField, EncodeFrom;
    var (it, n) := Step(Switch(sch), b).value;
    if it.Raw? {
      UnknownGrown(sch, m, it.raw, 0);
    } else {
      var k := it.field;
      assert Fits(sch.kinds[k], m.vals[k]);
      var v := ApplyVal(sch.kinds[k], discard, m.vals[k], it).value;
      FieldGrows(sch, discard, b, m.vals[k]);
      FieldSwapped(sch, m, k, v, 0);
    }
  }

  lemma {:induction false} FieldGrows(sch: Schema, discard: bool, b: bytes, old_: Val)
    requires |b| > 0 && Step(Switch(sch), b).Ok?
    requires var it := Step(Switch(sch), b).value.0;
             !it.Raw? && ItemFits(sch, it) && Fits(sch.kinds[it.field], old_) &&
             ApplyVal(sch.kinds[it.field], discard, old_, it).Ok?
    ensures var (it, n) := Step(Switch(sch), b).value;
            |EncodeField(it.field, sch.kinds[it.field], ApplyVal(sch.kinds[it.field], discard, old_, it).value)|
            <= |EncodeField(it.field, sch.kinds[it.field], old_)| + 2 * n
    decreases sch, 0, 0
  {
    hide Skip, ReadTag, ReadLength, ReadPacked, Varint.Read, Varint.Encode, Varint.Sov, Tag, Decode, EncodeChildren;
    var (it, n) := Step(Switch(sch), b).value;
    var (f, wireType, t) := ReadTag(b).value;
    var k, kind := it.field, sch.kinds[it.field];
    if it.Number? {
      if kind.KPacked? {
        TagNoShorter(b, 2);
        ReadNoShorter(b[t..]);
        assert EncodeIds([it.v]) == Varint.Encode(it.v);
        IdsGrow(k, old_.us, [it.v], t, n - t);
      } else {
        NumberGrows(kind, k, b, t, old_);
      }
    } else {
      var (start, post) := ReadLength(b, t).value;
      TagNoShorter(b, 2);
      LengthNoShorter(b, t);
      if it.Pack? {
        IdsNoShorter(b, start, post);
        IdsGrow(k, old_.us, it.ids, t, n - t);
      } else if kind.KString? {
        DelimitedGrows(k, it.payload, post - start, t, start - t);
      } else {
        var child := Decode(kind.sub, discard, it.payload, Empty(kind.sub)).value;
        Grows(kind.sub, discard, it.payload, Empty(kind.sub));
        EmptyTakesNothing(kind.sub, 0);
        DelimitedGrows(k, EncodeMsg(kind.sub, child), post - start, t, start - t);
        ChildAppended(k, kind, old_.ms, child);
      }
    }
  }

  // Whatever is decoded, encoding the result takes at most two bytes for each byte decoded.
  lemma {:induction false} Grows(sch: Schema, discard: bool, b: bytes, m: Msg)
    requires Typed(sch, m) && Decode(sch, discard, b, m).Ok?
    ensures |EncodeMsg(sch, Decode(sch, discard, b, m).value)| <= |EncodeMsg(sch, m)| + 2 * |b|
    decreases sch, 1, |b|
  {
    hide Step, Apply, EncodeMsg;
    if |b| > 0 {
      var (it, n) := Step(Switch(sch), b).value;
      DecodeRecord(sch, discard, b, m, it, n);
      RecordGrows(sch, discard, b, m);
      Grows(sch, discard, b[n..], Apply(sch, discard, m, it).value);
    }
  }

  // So every accepted input of less than 2^62 bytes has a canonical form that decodes to the
  // same message.
  lemma InputNormalisation(sch: Schema, discard: bool, b: bytes)
    requires Numbered(sch) && 2 * |b| < TWO_63 && Decode(sch, discard, b, Empty(sch)).Ok?
    ensures var m := Decode(sch, discard, b, Empty(sch)).value;
            |EncodeMsg(sch, m)| <= 2 * |b| && Decode(sch, false, EncodeMsg(sch, m), Empty(sch)) == Ok(m)
  {
    hide Decode, EncodeMsg;
    Grows(sch, discard, b, Empty(sch));
    NothingToEncode(sch);
    Normalisation(sch, discard, b);
  }

  lemma NothingToEncode(sch: Schema)
    ensures EncodeMsg(sch, Empty(sch)) == []
  {
    EmptyTakesNothing(sch, 0);
  }
}
