// What the generated size and marshal closures do for each kind of field: its bytes, its
// size, and writing it just below the cursor.
module Encoder {
  import opened GoInts
  import opened Codec
  import opened Buffer
  import Varint

  // ---- The bytes of one field, with its one-byte tag; absent fields take none ----

  function NumberBytes(tag: byte, v: uint64): bytes {
    if v == 0 then [] else [tag] + Varint.Encode(v)
  }

  function BoolBytes(tag: byte, b: bool): bytes {
    if b then [tag, 1] else []
  }

  function DelimitedBytes(tag: byte, payload: bytes): bytes {
    [tag] + Varint.Encode(|payload|) + payload
  }

  function StringBytes(tag: byte, s: bytes): bytes {
    if |s| == 0 then [] else DelimitedBytes(tag, s)
  }

  // Field numbers up to 15 have one-byte tags, the constants in the generated code.
  lemma OneByteTag(k: nat, wireType: nat)
    requires k < 15 && wireType < 8
    ensures Tag(k, wireType) == [(k + 1) * 8 + wireType]
  {
  }

  // What the schema says about field k and what the generated code writes for it agree.
  lemma FieldBytes(k: nat, kind: Kind, v: Val)
    requires k < 15 && Fits(kind, v) && !kind.KMessages? && !kind.KPacked?
    ensures EncodeField(k, kind, v) ==
            match v
            case U(u) => NumberBytes((k + 1) * 8, u)
            case E(e) => NumberBytes((k + 1) * 8, SignExtend(e))
            case B(b) => BoolBytes((k + 1) * 8, b)
            case S(s) => StringBytes((k + 1) * 8 + 2, s)
            case _ => []
  {
    OneByteTag(k, 0);
    OneByteTag(k, 2);
  }

  // ---- Lists of submessages ----

  // Element j, then the elements after it; the whole list is at least as long.
  lemma {:induction false} ChildInFront(k: nat, kind: Kind, ms: seq<Msg>, j: nat)
    requires k < 15 && kind.KMessages? && (forall i :: 0 <= i < |ms| ==> Typed(kind.sub, ms[i])) && j < |ms|
    ensures var e := EncodeMsg(kind.sub, ms[j]);
            && EncodeChildren(k, kind, ms[j..])
               == ([(k + 1) * 8 + 2] + Varint.Encode(|e|) + e) + EncodeChildren(k, kind, ms[j + 1..])
            && |EncodeChildren(k, kind, ms[j..])|
               == 1 + Varint.Sov(|e|) + |e| + |EncodeChildren(k, kind, ms[j + 1..])|
    ensures |EncodeChildren(k, kind, ms[j..])| <= |EncodeChildren(k, kind, ms)|
  {
    OneByteTag(k, 2);
    assert ms[j..][1..] == ms[j + 1..];
    if j > 0 {
      ChildInFront(k, kind, ms, j - 1);
    } else {
      assert ms[0..] == ms;
    }
  }

  lemma NoChildren(k: nat, kind: Kind, ms: seq<Msg>)
    requires kind.KMessages? && ms == []
    ensures EncodeChildren(k, kind, ms) == []
  {
  }

  // ---- Sizes ----

  // A present number takes its tag and its varint.
  method SizeNumber(n: nat, v: uint64) returns (n': nat)
    ensures forall tag :: n' == n + |NumberBytes(tag, v)|
  {
    n' := n;
    if v != 0 {
      n' := n' + 1 + Varint.Sov(v);
    }
  }

  // A present string takes its tag, its length and its bytes.
  method SizeString(n: nat, s: bytes) returns (n': nat)
    ensures forall tag :: n' == n + |StringBytes(tag, s)|
  {
    n' := n;
    var l := |s|;
    if l > 0 {
      n' := n' + 1 + l + Varint.Sov(l);
    }
  }

  // ---- Writing ----

  // A number field, left out when it is zero.
  method PutNumber(dAtA: array<byte>, offset: nat, tag: byte, v: uint64, ghost written: multiset<nat>)
    returns (i: nat, ghost written': multiset<nat>)
    requires |NumberBytes(tag, v)| <= offset <= dAtA.Length && written == Offsets(offset, dAtA.Length)
    modifies dAtA
    ensures i == offset - |NumberBytes(tag, v)|
    ensures dAtA[i..] == NumberBytes(tag, v) + old(dAtA[offset..])
    ensures dAtA[..i] == old(dAtA[..i])
    ensures written' == Offsets(i, dAtA.Length)
  {
    i, written' := offset, written;
    if v != 0 {
      i, written' := PutVarint(dAtA, i, tag, v, written');
    }
  }

  // A bool field, left out when it is false.
  method PutBool(dAtA: array<byte>, offset: nat, tag: byte, b: bool, ghost written: multiset<nat>)
    returns (i: nat, ghost written': multiset<nat>)
    requires |BoolBytes(tag, b)| <= offset <= dAtA.Length && written == Offsets(offset, dAtA.Length)
    modifies dAtA
    ensures i == offset - |BoolBytes(tag, b)|
    ensures dAtA[i..] == BoolBytes(tag, b) + old(dAtA[offset..])
    ensures dAtA[..i] == old(dAtA[..i])
    ensures written' == Offsets(i, dAtA.Length)
  {
    i, written' := offset, written;
    if b {
      i, written' := PutByte(dAtA, i, if b then 1 else 0, written');
      i, written' := PutByte(dAtA, i, tag, written');
    }
  }

  // A string field, left out when it is empty.
  method PutString(dAtA: array<byte>, offset: nat, tag: byte, s: bytes, ghost written: multiset<nat>)
    returns (i: nat, ghost written': multiset<nat>)
    requires |StringBytes(tag, s)| <= offset <= dAtA.Length < TWO_63 && written == Offsets(offset, dAtA.Length)
    modifies dAtA
    ensures i == offset - |StringBytes(tag, s)|
    ensures dAtA[i..] == StringBytes(tag, s) + old(dAtA[offset..])
    ensures dAtA[..i] == old(dAtA[..i])
    ensures written' == Offsets(i, dAtA.Length)
  {
    i, written' := offset, written;
    if |s| > 0 {
      i, written' := PutDelimited(dAtA, i, tag, s, written');
    }
  }
}
