// Base 128 varints ("Base 128 Varints" in the Protocol Buffers encoding specification),
// as the generated code reads and writes them.
module Varint {
  import opened GoInts
  import opened Results

  // ---- The encoding, front to back ----

  function Encode(v: nat): (r: bytes)
    ensures |r| > 0
  {
    if v < 128 then [v] else [v % 128 + 128] + Encode(v / 128)
  }

  // runtime.Sov: the number of bytes a varint takes.
  function Sov(v: nat): (n: nat)
    ensures n == |Encode(v)|
  {
    if v < 128 then 1 else 1 + Sov(v / 128)
  }

  // One byte of the encoding loop.
  lemma EncodeTurn(v: nat)
    ensures v >= 128 ==> Encode(v) == [v % 128 + 128] + Encode(v / 128) && Sov(v) == 1 + Sov(v / 128)
    ensures v < 128 ==> Encode(v) == [v] && Sov(v) == 1
  {
  }

  // ---- The decoding ----

  // The number that the low seven bits of each byte spell, least significant group first.
  function Value(b: bytes): nat {
    if |b| == 0 then 0
    else Value(b[..|b| - 1]) + (b[|b| - 1] % 128) * Pow2(7 * (|b| - 1))
  }

  // Offset just past the first byte below 128, searching from k; ten bytes at most.
  function Terminator(b: bytes, k: nat): (r: Result<nat>)
    requires k <= 10
    ensures r.Ok? ==> k < r.value <= |b| && r.value <= 10
    decreases 10 - k
  {
    if k == 10 then Err(IntOverflow)
    else if k >= |b| then Err(UnexpectedEOF)
    else if b[k] < 128 then Ok(k + 1)
    else Terminator(b, k + 1)
  }

  // The value at the front of b and how many bytes it takes.
  function Read(b: bytes): (r: Result<(uint64, nat)>)
    ensures r.Ok? ==> 0 < r.value.1 <= |b| && r.value.1 <= 10
    ensures r.Err? ==> r.error in {IntOverflow, UnexpectedEOF}
  {
    match Terminator(b, 0)
    case Ok(n) => Ok((Value(b[..n]) % TWO_64, n))
    case Err(e) => TerminatorErrors(b, 0); Err(e)
  }

  lemma {:induction false} TerminatorErrors(b: bytes, k: nat)
    requires k <= 10
    ensures Terminator(b, k).Err? ==> Terminator(b, k).error in {IntOverflow, UnexpectedEOF}
    decreases 10 - k
  {
    if k < 10 && k < |b| && b[k] >= 128 {
      TerminatorErrors(b, k + 1);
    }
  }

  // Exactly which inputs are accepted, and with what: the first byte below 128 must be
  // among the first ten, and then the value is the sum of (b[k] mod 128) * 2^(7k) mod 2^64.
  lemma ReadCharacterised(b: bytes, n: nat)
    ensures (Read(b).Ok? && Read(b).value.1 == n) <==>
            (0 < n <= |b| && n <= 10 && b[n - 1] < 128 && forall k :: 0 <= k < n - 1 ==> b[k] >= 128)
    ensures Read(b).Ok? ==> Read(b).value.0 == Value(b[..Read(b).value.1]) % TWO_64
    ensures Read(b) == Err(UnexpectedEOF) <==> |b| < 10 && forall k :: 0 <= k < |b| ==> b[k] >= 128
    ensures Read(b) == Err(IntOverflow) <==> |b| >= 10 && forall k :: 0 <= k < 10 ==> b[k] >= 128
  {
    TerminatorCharacterised(b, 0);
  }

  lemma {:induction false} TerminatorCharacterised(b: bytes, k: nat)
    requires k <= 10
    requires forall j :: 0 <= j < k && j < |b| ==> b[j] >= 128
    requires k <= |b|
    ensures match Terminator(b, k)
            case Ok(n) => b[n - 1] < 128 && forall j :: 0 <= j < n - 1 ==> b[j] >= 128
            case Err(IntOverflow) => |b| >= 10 && forall j :: 0 <= j < 10 ==> b[j] >= 128
            case Err(UnexpectedEOF) => |b| < 10 && forall j :: 0 <= j < |b| ==> b[j] >= 128
            case Err(_) => false
    decreases 10 - k
  {
    if k < 10 && k < |b| && b[k] >= 128 {
      TerminatorCharacterised(b, k + 1);
    }
  }

  // Reading looks at nothing past the terminator.
  lemma ReadStable(b: bytes, c: bytes)
    requires Read(b).Ok?
    ensures Read(b + c) == Read(b)
  {
    var n := Read(b).value.1;
    ReadCharacterised(b, n);
    ReadCharacterised(b + c, n);
    assert (b + c)[..n] == b[..n];
  }

  // ---- Value, front to back ----

  lemma EmptyValue()
    ensures Value([]) == 0
  {
  }

  lemma {:induction false} ValueCons(x: byte, b: bytes)
    ensures Value([x] + b) == x % 128 + 128 * Value(b)
  {
    Pow2Constants();
    if |b| == 0 {
      assert [x] + b == [x] && [x][..0] == [];
    } else {
      var init, p := b[..|b| - 1], Pow2(7 * (|b| - 1));
      ValueCons(x, init);
      assert ([x] + b)[..|b|] == [x] + init;
      Pow2Sum(7, 7 * (|b| - 1));
      Regroup(b[|b| - 1] % 128, p);
    }
  }

  lemma Regroup(d: nat, p: nat)
    ensures d * (128 * p) == 128 * (d * p)
  {
  }

  lemma {:induction false} ValueBound(b: bytes)
    ensures Value(b) < Pow2(7 * |b|)
  {
    if |b| > 0 {
      var init, d := b[..|b| - 1], b[|b| - 1] % 128;
      ValueBound(init);
      var p := Pow2(7 * |init|);
      Pow2Sum(7, 7 * |init|);
      Pow2Constants();
      BelowProduct(Value(init), d, p, 128);
    }
  }

  // ---- The decoder inverts the encoder ----

  lemma {:induction false} EncodeShape(v: nat)
    ensures Value(Encode(v)) == v
    ensures Encode(v)[|Encode(v)| - 1] < 128
    ensures forall k :: 0 <= k < |Encode(v)| - 1 ==> Encode(v)[k] >= 128
  {
    hide Value;
    if v < 128 {
      ValueCons(v, []);
      EmptyValue();
      assert [v] + [] == [v];
    } else {
      EncodeShape(v / 128);
      ValueCons(v % 128 + 128, Encode(v / 128));
    }
  }

  lemma {:induction false} EncodeLength(v: nat, n: nat)
    requires n > 0 && v < Pow2(7 * n)
    ensures |Encode(v)| <= n
  {
    Pow2Constants();
    if v >= 128 {
      Pow2Sum(7, 7 * (n - 1));
      var p := Pow2(7 * (n - 1));
      assert v < 128 * p;
      assert v / 128 < p;
      EncodeLength(v / 128, n - 1);
    }
  }

  lemma TenBytes(v: uint64)
    ensures |Encode(v)| <= 10
  {
    Pow2Constants();
    Pow2Sum(64, 6);
    EncodeLength(v, 10);
  }

  lemma RoundTrip(v: uint64, rest: bytes)
    ensures Read(Encode(v) + rest) == Ok((v, |Encode(v)|))
  {
    hide Value, Terminator;
    var e := Encode(v);
    TenBytes(v);
    EncodeShape(v);
    var b := e + rest;
    assert b[..|e|] == e;
    assert forall k :: 0 <= k < |e| ==> b[k] == e[k];
    ReadCharacterised(b, |e|);
    ModSmall(v, TWO_64);
  }

  // ---- Narrowing of a decoded varint ----

  lemma {:induction false} Mod32Of64(x: nat)
    ensures (x % TWO_64) % TWO_32 == x % TWO_32
    ensures AsInt32(x % TWO_64) == AsInt32(x % TWO_32) == AsInt32(x)
  {
    var q := x / TWO_64;
    assert x == (q * TWO_32) * TWO_32 + x % TWO_64;
    ModAddMultiple(x % TWO_64, q * TWO_32, TWO_32);
  }

  // Every int32, negatives included, survives sign extension on the way out and
  // truncation on the way in.
  lemma EnumRoundTrip(x: int32, rest: bytes)
    ensures Read(Encode(SignExtend(x)) + rest) == Ok((SignExtend(x), |Encode(SignExtend(x))|))
    ensures AsInt32(SignExtend(x)) == x
  {
    RoundTrip(SignExtend(x), rest);
    if x < 0 {
      ModUnique(x + TWO_64, TWO_32 - 1, x + TWO_32, TWO_32);
    } else {
      ModSmall(x, TWO_32);
    }
  }
}
