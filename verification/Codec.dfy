// Messages as their .proto definitions describe them, and what a schema's encoder and
// decoder compute. Field k (counting from 0) has field number k + 1: every message of
// proto/license/v1 numbers its fields consecutively from 1.
module Codec {
  import opened GoInts
  import opened Wire
  import opened Results
  import Varint

  datatype Kind =
    | KUint64
    | KEnum
    | KBool
    | KString
    | KMessages(sub: Schema)  // repeated submessage
    | KPacked                 // repeated uint64

  datatype Schema = Schema(kinds: seq<Kind>)

  datatype Val =
    | U(u: uint64)
    | E(e: int32)
    | B(b: bool)
    | S(s: bytes)
    | Ms(ms: seq<Msg>)
    | Us(us: seq<uint64>)

  datatype Msg = Msg(vals: seq<Val>, unknown: bytes)

  // ---- Typing ----

  ghost predicate Fits(kind: Kind, v: Val)
    decreases kind
  {
    match kind
    case KUint64 => v.U?
    case KEnum => v.E?
    case KBool => v.B?
    case KString => v.S?
    case KMessages(sub) => v.Ms? && forall j :: 0 <= j < |v.ms| ==> Typed(sub, v.ms[j])
    case KPacked => v.Us?
  }

  ghost predicate Typed(sch: Schema, m: Msg)
    decreases sch
  {
    |m.vals| == |sch.kinds| && forall k :: 0 <= k < |m.vals| ==> Fits(sch.kinds[k], m.vals[k])
  }

  function Default(kind: Kind): (v: Val)
    ensures Fits(kind, v)
  {
    match kind
    case KUint64 => U(0)
    case KEnum => E(0)
    case KBool => B(false)
    case KString => S([])
    case KMessages(_) => Ms([])
    case KPacked => Us([])
  }

  function Empty(sch: Schema): (m: Msg)
    ensures Typed(sch, m)
  {
    Msg(seq(|sch.kinds|, k requires 0 <= k < |sch.kinds| => Default(sch.kinds[k])), [])
  }

  // ---- Encoding: present fields in ascending field number, unknown bytes last ----

  function Tag(field: nat, wireType: nat): bytes {
    Varint.Encode((field + 1) * 8 + wireType)
  }

  function Delimited(field: nat, payload: bytes): bytes {
    Tag(field, 2) + Varint.Encode(|payload|) + payload
  }

  function EncodeIds(ids: seq<uint64>): bytes {
    if |ids| == 0 then [] else Varint.Encode(ids[0]) + EncodeIds(ids[1..])
  }

  function EncodeField(field: nat, kind: Kind, v: Val): bytes
    requires Fits(kind, v)
    decreases kind, 1, 0
  {
    match kind
    case KUint64 => if v.u == 0 then [] else Tag(field, 0) + Varint.Encode(v.u)
    case KEnum => if v.e == 0 then [] else Tag(field, 0) + Varint.Encode(SignExtend(v.e))
    case KBool => if !v.b then [] else Tag(field, 0) + [1]
    case KString => if |v.s| == 0 then [] else Delimited(field, v.s)
    case KMessages(sub) => EncodeChildren(field, kind, v.ms)
    case KPacked => if |v.us| == 0 then [] else Delimited(field, EncodeIds(v.us))
  }

  function EncodeChildren(field: nat, kind: Kind, ms: seq<Msg>): bytes
    requires kind.KMessages? && forall j :: 0 <= j < |ms| ==> Typed(kind.sub, ms[j])
    decreases kind, 0, |ms|
  {
    if |ms| == 0 then []
    else Delimited(field, EncodeMsg(kind.sub, ms[0])) + EncodeChildren(field, kind, ms[1..])
  }

  // The fields from k on, then the unknown bytes.
  function EncodeFrom(sch: Schema, m: Msg, k: nat): bytes
    requires Typed(sch, m) && k <= |sch.kinds|
    decreases sch, 0, |sch.kinds| - k
  {
    if k == |sch.kinds| then m.unknown
    else EncodeField(k, sch.kinds[k], m.vals[k]) + EncodeFrom(sch, m, k + 1)
  }

  function EncodeMsg(sch: Schema, m: Msg): bytes
    requires Typed(sch, m)
    decreases sch, 1, 0
  {
    EncodeFrom(sch, m, 0)
  }

  // ---- Decoding ----

  function AcceptsOf(kind: Kind): Accepts {
    match kind
    case KUint64 | KEnum | KBool => AcceptsVarint
    case KString | KMessages(_) => AcceptsBlob
    case KPacked => AcceptsPacked
  }

  function Switch(sch: Schema): (a: seq<Accepts>)
    ensures |a| == |sch.kinds|
  {
    seq(|sch.kinds|, k requires 0 <= k < |sch.kinds| => AcceptsOf(sch.kinds[k]))
  }

  ghost predicate ItemFits(sch: Schema, it: Item) {
    !it.Raw? ==>
      && it.field < |sch.kinds|
      && (it.Number? ==> !AcceptsOf(sch.kinds[it.field]).AcceptsBlob?)
      && (it.Blob? ==> AcceptsOf(sch.kinds[it.field]).AcceptsBlob?)
      && (it.Pack? ==> AcceptsOf(sch.kinds[it.field]).AcceptsPacked?)
  }

  // What one record does to a message: scalars are overwritten ("Last One Wins"), list
  // elements and unknown bytes are appended, a submessage is decoded on its own.
  function Apply(sch: Schema, discard: bool, m: Msg, it: Item): (r: Result<Msg>)
    requires Typed(sch, m) && ItemFits(sch, it)
    ensures r.Ok? ==> Typed(sch, r.value)
    decreases sch, 0, 0
  {
    match it
    case Raw(raw) => Ok(if discard then m else m.(unknown := m.unknown + raw))
    case _ =>
      var k := it.field;
      match ApplyVal(sch.kinds[k], discard, m.vals[k], it)
      case Err(e) => Err(e)
      case Ok(v) => Ok(m.(vals := m.vals[k := v]))
  }

  function ApplyVal(kind: Kind, discard: bool, v: Val, it: Item): (r: Result<Val>)
    requires Fits(kind, v) && !it.Raw?
    requires it.Number? ==> !AcceptsOf(kind).AcceptsBlob?
    requires it.Blob? ==> AcceptsOf(kind).AcceptsBlob?
    requires it.Pack? ==> AcceptsOf(kind).AcceptsPacked?
    ensures r.Ok? ==> Fits(kind, r.value)
    decreases kind, 0, 0
  {
    match kind
    case KUint64 => Ok(U(it.v))
    case KEnum => Ok(E(AsInt32(it.v)))
    case KBool => Ok(B(it.v != 0))
    case KString => Ok(S(it.payload))
    case KMessages(sub) =>
      (match Decode(sub, discard, it.payload, Empty(sub))
       case Err(e) => Err(Settle(0, e))
       case Ok(child) => Ok(Ms(v.ms + [child])))
    case KPacked => Ok(Us(v.us + (if it.Number? then [it.v] else it.ids)))
  }

  // Unmarshalling b into m. The offset in an Overrun error counts from the start of b.
  function Decode(sch: Schema, discard: bool, b: bytes, m: Msg): (r: Result<Msg>)
    requires Typed(sch, m)
    ensures r.Ok? ==> Typed(sch, r.value)
    decreases sch, |b|, 1
  {
    if |b| == 0 then Ok(m)
    else match Step(Switch(sch), b)
      case Err(e) => Err(e)
      case Ok((it, n)) =>
        match Apply(sch, discard, m, it)
        case Err(e) => Err(e)
        case Ok(m') => Shift(n, Decode(sch, discard, b[n..], m'))
  }
}
