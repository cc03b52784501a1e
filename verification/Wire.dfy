// Reading one record from the front of a buffer: tag, wire type, payload, and the skipping
// of unknown fields ("Message Structure" and "Length-Delimited Records" in the Protocol
// Buffers encoding specification). Everything here is independent of where the record sits
// in the whole buffer; see Settle for the one error that is not.
module Wire {
  import opened GoInts
  import opened Results
  import opened Varint

  // What the switch of a generated decoder knows about one field number.
  datatype Accepts = AcceptsVarint | AcceptsBlob | AcceptsPacked

  // One record as the decoder consumes it. `field` counts from 0.
  datatype Item =
    | Number(field: nat, v: uint64)
    | Blob(field: nat, payload: bytes)
    | Pack(field: nat, ids: seq<uint64>)
    | Raw(raw: bytes)

  // The Go error for a spec error raised in a record that starts at offset `base`:
  // iNdEx + len wraps negative exactly when it reaches 2^63.
  function Settle(base: nat, e: Error): Error {
    match e
    case Overrun(end) => if base + end >= TWO_63 then InvalidLength else UnexpectedEOF
    case _ => e
  }

  function Shift<T>(n: nat, r: Result<T>): Result<T> {
    match r
    case Err(Overrun(end)) => Err(Overrun(n + end))
    case _ => r
  }

  // The tag at the front of b: truncated field number, wire type, bytes taken.
  function ReadTag(b: bytes): (r: Result<(int32, nat, nat)>)
    ensures r.Ok? ==> 0 < r.value.2 <= |b| && r.value.1 < 8 && r.value.0 > 0
  {
    match Read(b)
    case Err(e) => Err(e)
    case Ok((wire, n)) =>
      var fieldNum, wireType := AsInt32(wire / 8), wire % 8;
      if wireType == 4 then Err(EndGroupForNonGroup)
      else if fieldNum <= 0 then Err(IllegalTag(fieldNum, wire))
      else Ok((fieldNum, wireType, n))
  }

  // A length prefix at offset n of b, and the bounds of the payload after it.
  function ReadLength(b: bytes, n: nat): (r: Result<(nat, nat)>)
    requires n <= |b|
    ensures r.Ok? ==> n < r.value.0 <= r.value.1 <= |b|
  {
    match Read(b[n..])
    case Err(e) => Err(e)
    case Ok((len, k)) =>
      if len >= TWO_63 then Err(InvalidLength)
      else if n + k + len > |b| then Err(Overrun(n + k + len))
      else Ok((n + k, n + k + len))
  }

  // The varints of a packed payload b[i..post]. Each read is bounded by the buffer and not
  // by post, so a payload whose last byte has the continuation bit runs past post.
  function ReadPacked(b: bytes, i: nat, post: nat): (r: Result<(seq<uint64>, nat)>)
    requires i <= |b| && post <= |b|
    ensures r.Ok? ==> i <= r.value.1 <= |b| && post <= r.value.1
    decreases |b| - i
  {
    if i >= post then Ok(([], i))
    else match Read(b[i..])
      case Err(e) => Err(e)
      case Ok((v, n)) =>
        match ReadPacked(b, i + n, post)
        case Err(e) => Err(e)
        case Ok((vs, j)) => Ok(([v] + vs, j))
  }

  // runtime.Skip from offset i at group depth `depth`: the offset just past the record.
  function Skip(b: bytes, i: nat, depth: nat): (r: Result<nat>)
    requires i <= |b|
    ensures r.Ok? ==> i < r.value <= |b|
    decreases |b| - i
  {
    if i == |b| then Err(UnexpectedEOF)
    else match SkipTurn(b, i, depth)
      case Err(e) => Err(e)
      case Ok((j, d)) =>
        if d == 0 then (if j > |b| then Err(Overrun(j)) else Ok(j))
        else if j >= TWO_63 then Err(InvalidLength)
        else if j > |b| then Err(UnexpectedEOF)
        else Skip(b, j, d)
  }

  // One turn of Skip's loop: where the record's payload ends and the group depth after it.
  function SkipTurn(b: bytes, i: nat, depth: nat): (r: Result<(nat, nat)>)
    requires i <= |b|
    ensures r.Ok? ==> i < r.value.0
  {
    match Read(b[i..])
    case Err(e) => Err(e)
    case Ok((wire, n)) =>
      match SkipPayload(b, i + n, wire % 8)
      case Err(e) => Err(e)
      case Ok(j) =>
        if wire % 8 == 3 then Ok((j, depth + 1))
        else if wire % 8 != 4 then Ok((j, depth))
        else if depth == 0 then Err(UnexpectedEndOfGroup)
        else Ok((j, depth - 1))
  }

  // Where the payload of one record ends, which may be past the end of b.
  function SkipPayload(b: bytes, i: nat, wireType: nat): (r: Result<nat>)
    requires i <= |b|
    ensures r.Ok? ==> i <= r.value
  {
    match wireType
    case 0 =>
      (match Read(b[i..])
       case Err(e) => Err(e)
       case Ok((_, n)) => Ok(i + n))
    case 1 => Ok(i + 8)
    case 2 =>
      (match Read(b[i..])
       case Err(e) => Err(e)
       case Ok((len, n)) => if len >= TWO_63 then Err(InvalidLength) else Ok(i + n + len))
    case 3 => Ok(i)
    case 4 => Ok(i)
    case 5 => Ok(i + 4)
    case _ => Err(IllegalWireType(wireType))
  }

  // One turn of a decoder's outer loop, up to the assignment: the record at the front of b
  // and its length, given what the switch accepts for each known field.
  function Step(fields: seq<Accepts>, b: bytes): (r: Result<(Item, nat)>)
    requires |b| > 0
    ensures r.Ok? ==> 0 < r.value.1 <= |b|
    ensures r.Ok? && !r.value.0.Raw? ==>
              r.value.0.field < |fields| &&
              (r.value.0.Number? ==> !fields[r.value.0.field].AcceptsBlob?) &&
              (r.value.0.Blob? ==> fields[r.value.0.field].AcceptsBlob?) &&
              (r.value.0.Pack? ==> fields[r.value.0.field].AcceptsPacked?)
    ensures r.Ok? && r.value.0.Raw? ==> r.value.0.raw == b[..r.value.1]
  {
    match ReadTag(b)
    case Err(e) => Err(e)
    case Ok((fieldNum, wireType, n)) =>
      if fieldNum <= |fields| then StepKnown(fields[fieldNum - 1], fieldNum - 1, wireType, b, n)
      else match Skip(b, 0, 0)
        case Err(e) => Err(e)
        case Ok(j) => Ok((Raw(b[..j]), j))
  }

  function StepKnown(accepts: Accepts, field: nat, wireType: nat, b: bytes, n: nat): (r: Result<(Item, nat)>)
    requires 0 < n <= |b|
    ensures r.Ok? ==> 0 < r.value.1 <= |b| && !r.value.0.Raw? && r.value.0.field == field
    ensures r.Ok? ==> (r.value.0.Number? ==> !accepts.AcceptsBlob?) &&
                      (r.value.0.Blob? ==> accepts.AcceptsBlob?) &&
                      (r.value.0.Pack? ==> accepts.AcceptsPacked?)
  {
    if wireType == 0 && !accepts.AcceptsBlob? then
      match Read(b[n..])
      case Err(e) => Err(e)
      case Ok((v, k)) => Ok((Number(field, v), n + k))
    else if wireType == 2 && !accepts.AcceptsVarint? then
      match ReadLength(b, n)
      case Err(e) => Err(e)
      case Ok((start, post)) =>
        if accepts.AcceptsBlob? then Ok((Blob(field, b[start..post]), post))
        else match ReadPacked(b, start, post)
          case Err(e) => Err(e)
          case Ok((ids, j)) => Ok((Pack(field, ids), j))
    else Err(WrongWireType(field + 1, wireType))
  }

  // ---- Locality: a record is read from its own bytes alone ----
  //
  // Each lemma says that two buffers which agree on the bytes consumed read the same thing,
  // whatever follows: so appending bytes and cutting the buffer after the record are harmless.

  lemma {:induction false} ReadLocal(b: bytes, c: bytes, i: nat)
    requires i <= |b| && Read(b[i..]).Ok?
    requires var j := i + Read(b[i..]).value.1; j <= |c| && b[..j] == c[..j]
    ensures Read(c[i..]) == Read(b[i..])
  {
    var n := Read(b[i..]).value.1;
    ReadCharacterised(b[i..], n);
    assert forall k :: 0 <= k < n ==> b[i..][k] == b[..i + n][i + k] == c[..i + n][i + k] == c[i..][k];
    ReadCharacterised(c[i..], n);
    assert b[i..][..n] == c[i..][..n];
  }

  lemma {:induction false} PrefixOfPrefix(b: bytes, c: bytes, i: nat, j: nat)
    requires i <= j <= |b| && j <= |c| && b[..j] == c[..j]
    ensures b[..i] == c[..i] && b[i..j] == c[i..j]
  {
    assert b[..j][..i] == b[..i] && c[..j][..i] == c[..i];
    assert b[..j][i..] == b[i..j] && c[..j][i..] == c[i..j];
  }

  lemma {:induction false} ReadPackedLocal(b: bytes, c: bytes, i: nat, post: nat)
    requires i <= |b| && post <= |b| && ReadPacked(b, i, post).Ok?
    requires var j := ReadPacked(b, i, post).value.1; j <= |c| && b[..j] == c[..j]
    ensures ReadPacked(c, i, post) == ReadPacked(b, i, post)
    decreases |b| - i
  {
    hide Read;
    if i < post {
      var n, j := Read(b[i..]).value.1, ReadPacked(b, i, post).value.1;
      PrefixOfPrefix(b, c, i + n, j);
      ReadLocal(b, c, i);
      ReadPackedLocal(b, c, i + n, post);
    }
  }

  lemma {:induction false} SkipPayloadLocal(b: bytes, c: bytes, i: nat, wireType: nat, end: nat)
    requires i <= |b| && SkipPayload(b, i, wireType).Ok?
    requires SkipPayload(b, i, wireType).value <= end <= |b| && end <= |c| && b[..end] == c[..end]
    ensures SkipPayload(c, i, wireType) == SkipPayload(b, i, wireType)
  {
    if wireType == 0 || wireType == 2 {
      PrefixOfPrefix(b, c, i + Read(b[i..]).value.1, end);
      ReadLocal(b, c, i);
    }
  }

  lemma {:induction false} SkipTurnLocal(b: bytes, c: bytes, i: nat, depth: nat, end: nat)
    requires i <= |b| && SkipTurn(b, i, depth).Ok?
    requires SkipTurn(b, i, depth).value.0 <= end <= |b| && end <= |c| && b[..end] == c[..end]
    ensures SkipTurn(c, i, depth) == SkipTurn(b, i, depth)
  {
    hide Read, SkipPayload;
    var (wire, n) := Read(b[i..]).value;
    PrefixOfPrefix(b, c, i + n, end);
    ReadLocal(b, c, i);
    SkipPayloadLocal(b, c, i + n, wire % 8, end);
  }

  lemma {:induction false} SkipLocal(b: bytes, c: bytes, i: nat, depth: nat)
    requires i <= |b| && Skip(b, i, depth).Ok?
    requires var j := Skip(b, i, depth).value; j <= |c| && b[..j] == c[..j]
    ensures Skip(c, i, depth) == Skip(b, i, depth)
    decreases |b| - i
  {
    var (j, d) := SkipTurn(b, i, depth).value;
    SkipTurnLocal(b, c, i, depth, Skip(b, i, depth).value);
    if d > 0 {
      SkipLocal(b, c, j, d);
    }
  }

  lemma {:induction false} ReadLengthLocal(b: bytes, c: bytes, n: nat)
    requires n <= |b| && ReadLength(b, n).Ok?
    requires var post := ReadLength(b, n).value.1; post <= |c| && b[..post] == c[..post]
    ensures ReadLength(c, n) == ReadLength(b, n)
    ensures var (start, post) := ReadLength(b, n).value; b[start..post] == c[start..post]
  {
    var (start, post) := ReadLength(b, n).value;
    PrefixOfPrefix(b, c, start, post);
    ReadLocal(b, c, n);
  }

  lemma {:induction false} StepKnownLocal(accepts: Accepts, field: nat, wireType: nat, b: bytes, c: bytes, n: nat)
    requires 0 < n <= |b| && StepKnown(accepts, field, wireType, b, n).Ok?
    requires var j := StepKnown(accepts, field, wireType, b, n).value.1; j <= |c| && b[..j] == c[..j]
    ensures n <= |c|
    ensures StepKnown(accepts, field, wireType, c, n) == StepKnown(accepts, field, wireType, b, n)
  {
    var j := StepKnown(accepts, field, wireType, b, n).value.1;
    if wireType == 0 {
      ReadLocal(b, c, n);
    } else {
      var (start, post) := ReadLength(b, n).value;
      PrefixOfPrefix(b, c, post, j);
      ReadLengthLocal(b, c, n);
      if accepts.AcceptsPacked? {
        ReadPackedLocal(b, c, start, post);
      }
    }
  }

  lemma {:induction false} StepLocal(fields: seq<Accepts>, b: bytes, c: bytes)
    requires |b| > 0 && Step(fields, b).Ok?
    requires var j := Step(fields, b).value.1; j <= |c| && b[..j] == c[..j]
    ensures Step(fields, c) == Step(fields, b)
  {
    var j := Step(fields, b).value.1;
    var (fieldNum, wireType, n) := ReadTag(b).value;
    assert b[0..] == b && c[0..] == c;
    if fieldNum <= |fields| {
      StepKnownBounds(fields[fieldNum - 1], fieldNum - 1, wireType, b, n);
      PrefixOfPrefix(b, c, n, j);
      ReadLocal(b, c, 0);
      StepKnownLocal(fields[fieldNum - 1], fieldNum - 1, wireType, b, c, n);
    } else {
      SkipBounds(b);
      PrefixOfPrefix(b, c, n, j);
      ReadLocal(b, c, 0);
      SkipLocal(b, c, 0, 0);
    }
  }

  lemma StepKnownBounds(accepts: Accepts, field: nat, wireType: nat, b: bytes, n: nat)
    requires 0 < n <= |b| && StepKnown(accepts, field, wireType, b, n).Ok?
    ensures n <= StepKnown(accepts, field, wireType, b, n).value.1
  {
  }

  lemma SkipBounds(b: bytes)
    requires |b| > 0 && Skip(b, 0, 0).Ok?
    ensures Read(b).Ok? && Read(b).value.1 <= Skip(b, 0, 0).value
  {
    assert b[0..] == b;
  }

  lemma StepStable(fields: seq<Accepts>, b: bytes, c: bytes)
    requires |b| > 0 && Step(fields, b).Ok?
    ensures Step(fields, b + c) == Step(fields, b)
  {
    var j := Step(fields, b).value.1;
    assert (b + c)[..j] == b[..j];
    StepLocal(fields, b, b + c);
  }

  // ---- How many ids a packed block yields ----

  // The generated decoder's estimate of the element count: payload bytes below 128.
  function CountTerminators(b: bytes): nat {
    if |b| == 0 then 0 else (if b[0] < 128 then 1 else 0) + CountTerminators(b[1..])
  }

  lemma {:induction false} CountSplit(b: bytes, n: nat)
    requires n <= |b|
    ensures CountTerminators(b) == CountTerminators(b[..n]) + CountTerminators(b[n..])
  {
    if n > 0 {
      CountSplit(b[1..], n - 1);
      assert b[..n][1..] == b[1..][..n - 1];
      assert b[1..][n - 1..] == b[n..];
    } else {
      assert b[n..] == b;
    }
  }

  lemma {:induction false} CountNone(b: bytes)
    requires forall k :: 0 <= k < |b| ==> b[k] >= 128
    ensures CountTerminators(b) == 0
  {
    if |b| > 0 {
      CountNone(b[1..]);
    }
  }

  // The estimate is the exact number of ids unless the payload is non-empty and its last
  // byte has the continuation bit; then one more id is appended, read past the payload.
  lemma {:induction false} PackedCount(b: bytes, i: nat, post: nat)
    requires i <= post <= |b| && ReadPacked(b, i, post).Ok?
    ensures |ReadPacked(b, i, post).value.0| ==
            CountTerminators(b[i..post]) + (if i < post && b[post - 1] >= 128 then 1 else 0)
    ensures ReadPacked(b, i, post).value.1 == post <==> i == post || b[post - 1] < 128
    decreases |b| - i
  {
    hide Read, CountTerminators;
    if i < post {
      var n := Read(b[i..]).value.1;
      VarintCount(b, i);
      if i + n <= post {
        CountSplit(b[i..post], n);
        assert b[i..post][n..] == b[i + n..post];
        assert b[i..post][..n] == b[i..i + n];
        PackedCount(b, i + n, post);
      } else {
        assert b[i..post] == b[i..i + n][..post - i];
        CountNone(b[i..post]);
      }
    } else {
      CountNone(b[i..post]);
    }
  }

  // One varint holds one byte below 128, its last.
  lemma {:induction false} VarintCount(b: bytes, i: nat)
    requires i <= |b| && Read(b[i..]).Ok?
    ensures var n := Read(b[i..]).value.1;
            CountTerminators(b[i..i + n]) == 1 && b[i + n - 1] < 128 &&
            forall k :: i <= k < i + n - 1 ==> b[k] >= 128
  {
    var n := Read(b[i..]).value.1;
    ReadCharacterised(b[i..], n);
    assert forall k :: i <= k < i + n ==> b[k] == b[i..][k - i];
    CountSplit(b[i..i + n], n - 1);
    CountNone(b[i..i + n][..n - 1]);
    assert b[i..i + n][n - 1..] == [b[i + n - 1]];
  }

  // A length of one and two bytes after it: the payload is one continuation byte, so the
  // estimate is no id at all, but the id 128 is read, and the cursor ends past the payload.
  lemma PackedOverrun()
    ensures var b: bytes := [0x01, 0x80, 0x01];
            && ReadLength(b, 0) == Ok((1, 2))
            && CountTerminators(b[1..2]) == 0
            && ReadPacked(b, 1, 2) == Ok(([128], 3))
  {
    hide Read, Value;
    var b: bytes := [0x01, 0x80, 0x01];
    RoundTrip(1, [0x80, 0x01]);
    assert Encode(1) == [0x01] && Encode(128) == [0x80, 0x01];
    assert b[0..] == Encode(1) + [0x80, 0x01];
    RoundTrip(128, []);
    assert b[1..] == Encode(128) + [];
    assert b[1..2] == [0x80];
    assert Read(b[1..]) == Ok((128, 2)) && ReadPacked(b, 3, 2) == Ok(([], 3));
    var ids: seq<uint64> := [128];
    assert ids + [] == ids;
  }
}
