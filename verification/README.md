# License module: wire codec and license store

A Dafny model of two parts of the repository, with proofs of what they promise.

**The wire codec of the license API** (`api/license/v1/*.pulsar.go`). Every generated message
has three closures. `size` adds up the bytes, `marshal` allocates exactly that many and fills
them from the end with a falling cursor, and `unmarshal` walks the input forwards as a state
machine over varint tags, with 64-bit wrap-around in its bounds checks.

**The license store** (`x/license`, `testutil/keeper/license.go`). The keeper holds one primary
map of licenses, two index sets, per-type counters and one id sequence. Issuing, revoking,
creating and updating types, seeding, and genesis import and export must keep them consistent;
queries read the indexes and must agree with a filter of the primary map.

`dafny verify dfyconfig.toml` checks the whole project.

## How it is built

| file | content |
|---|---|
| `GoInts.dfy` | bytes, `uint64`, `int32`, the 64-bit `int`; shifts, bitwise or, sign extension, wrap-around |
| `Results.dfy` | errors and results |
| `Varint.dfy` | base 128 varints |
| `Wire.dfy` | one record at the front of a buffer: tags, lengths, packed payloads, skipping |
| `Codec.dfy` | messages as the `.proto` files describe them; what encoding and decoding mean for any schema |
| `CodecLaws.dfy` | the laws of the codec, once for every schema |
| `CanonicalSize.dfy` | how long the canonical form of decoded bytes can be |
| `Records.dfy` | records as a writer lays them out, without reference to a decoder, and what the decoders make of them |
| `Buffer.dfy`, `Encoder.dfy`, `Decoder.dfy` | the statement patterns that the closures repeat, on arrays, proved against `Codec` |
| `LicenseMessage.dfy`, `LicenseTypeMessage.dfy`, `GenesisMessage.dfy`, `IssueMessage.dfy`, `IdsMessage.dfy` | the closures of each message as methods of a class |
| `MessageLaws.dfy` | the laws at the schemas of those messages, and where they stop |
| `Order.dfy`, `Dates.dfy` | key order of the store's iterators; `time.Parse("2006-01-02", …)` against the calendar |
| `LicenseStore.dfy` | the state, the invariant, what each operation does to the state |
| `StoreLaws.dfy` | what the operations keep, undo and leave alone |
| `Keeper.dfy` | the keeper and its handlers as methods that update fields in place |
| `Queries.dfy` | the querier |
| `Genesis.dfy` | validation, import, export |
| `Runs.dfy` | any sequence of transactions, and the method that delivers one |

`Records` is the independent side of the codec: a datatype of written records (varint, eight
bytes, delimited, four bytes, group of records) with their bytes and their meaning as plain
numbers. Skipping, decoding and encoding are proved against it.

Buffers are written through `Buffer.WriteByte` alone, which also counts in ghost state how
often each offset is written; `Marshal` ends with every offset written once.

The codec is proved in two layers. A schema-generic meaning (`EncodeMsg`, `Decode`) carries the
laws: concatenation, round trip, normalisation, discarding. Each message class then has `Size`,
`Marshal` and `Unmarshal` in the form of the generated code, and their contracts say that they
compute that meaning for all inputs, errors included; so every law holds of the closures.

`runtime.Sov`, `runtime.EncodeVarint` and `runtime.Skip` come from an imported package. They
are written from "Base 128 Varints", "Message Structure" and "Length-Delimited Records" of the
Protocol Buffers encoding specification; `EncodeVarint` writes the same bytes as the loop that
the repository inlines at `api/license/v1/tx.pulsar.go:2559-2567`. `Skip` raises an error
`Overrun(end)` relative to the start of a record, which `Settle` turns into the Go error.

The store is modelled on values (`State`) with one function per operation; the class `Keeper`
has the store's collections as fields, and its methods follow the handlers statement by
statement. What is accepted and what is stored is then stated on plain fields, apart from those
functions (`IssueAccepted`, `RevokeAccepted`, `BatchRecorded`, `SeedRecords`, `CreatedCapHolds`). `Env` stands for x/permission and for bech32 parsing.

## Where the code and its documentation part

* *Last One Wins, errors included.* If `a` decodes, decoding `a ++ b` is decoding `b` on top,
  except for one error code: a record of `b` that claims to end below offset 2^63 in `b` but not
  in `a ++ b` gives `UnexpectedEOF` in the first case and `InvalidLength` in the second. Where
  `b` claims to end, and whether a decoder gets there, follows from its bytes (`ClaimedEnd`,
  `OverrunExactly`). `ConcatenationGo` is the exact condition, `ConcatenationChangesTheError` an
  input of twenty bytes.
* *Round trip of unknown bytes.* A message with unknown bytes, at any depth, that are really
  known fields does not come back: `KnownBytesAsUnknownAreLost` is a license,
  `KnownBytesInAListAreLost` a genesis state that lists it. `RoundTripExactly` is the exact
  condition for every message. Decoding never produces such a message (`DecodeKeepsClean`), so
  normalisation holds of every input.
* *Packed lists.* The inner loop is bounded by the buffer and not by the payload, so a payload
  that ends in a continuation byte yields one id more than the preallocation counts and moves
  the cursor past the payload (`PackedCount`; `PackedOverrun` is three bytes of which one is
  payload).
* *Zero ids.* `x/license/types/keys.go:55-59` says that a zero id is always invalid, but genesis
  validation accepts a license under id 0 (`ZeroIdAccepted`, and `ImportPositive` for exactly
  when).
* *Supply caps.* The issue handler keeps every cap (`IssueAllKeepsCaps`), but genesis validation
  does not look at caps (`ExceededCapAccepted`, and `ImportCapped` for exactly when).
* *Id sequence.* The next id wraps at 2^64. Issuing and seeding keep the invariant if and only if
  the ids they need stay below 2^64 (`IssueAllExactly`, `SeedExactly`, `DeliveryExactly`), and a
  whole run does if and only if the ids it takes do (`RunExactly`). A valid genesis from which
  an accepted batch of one license breaks the invariant is in `LastIdBreaksTheInvariant`.

## Model

| member | source | states |
|---|---|---|
| Varint.ReadCharacterised | api/license/v1/license.pulsar.go:532-545 | exactly which inputs a varint loop accepts, how many bytes it takes and which error it gives otherwise; the value is the sum of (b[k] mod 128)·2^(7k) modulo 2^64 |
| Varint.ReadStable | api/license/v1/license.pulsar.go:532-545 | a varint that is read is read the same whatever bytes follow it |
| Varint.RoundTrip | api/license/v1/tx.pulsar.go:2559-2567 | reading inverts writing for every uint64 in front of any bytes |
| Varint.EncodeShape | api/license/v1/tx.pulsar.go:2559-2567 | the written bytes spell the value, all but the last with the continuation bit |
| Varint.TenBytes | api/license/v1/license.pulsar.go:532-545 | no uint64 takes more than the ten bytes that the decoder allows |
| Varint.EnumRoundTrip | api/license/v1/license.pulsar.go:468-472 | every int32 status, negatives included, survives sign extension and truncation |
| Varint.Mod32Of64 | api/license/v1/license.pulsar.go:706-720 | narrowing a decoded varint to int32 gives its value modulo 2^32 read as signed |
| GoInts.OrShiftStep | api/license/v1/license.pulsar.go:541-541 | or-ing the next seven bits, shifted in a w-bit register, adds them modulo 2^w, for every shift, also past the width |
| Buffer.ReadUint64 | api/license/v1/license.pulsar.go:559-573 | the loop over a uint64 accumulator reads the varint: same value, cursor and error |
| Buffer.ReadInt | api/license/v1/genesis.pulsar.go:578-592 | the loop over an int accumulator reads the same varint as a 64-bit two's complement |
| Buffer.ReadEnum | api/license/v1/license.pulsar.go:706-720 | the loop over an int32 accumulator gives the truncated value although shifts reach 63 |
| Buffer.WriteVarint | api/license/v1/tx.pulsar.go:2561-2567 | the inlined forward loop writes exactly the encoding and nothing else |
| Buffer.EncodeVarint | api/license/v1/license.pulsar.go:464-464 | the encoding ends just below the offset and nothing else changes |
| Buffer.CopyAt | api/license/v1/license.pulsar.go:458-459 | the copy fills its slot and nothing else changes |
| Buffer.PutDelimited | api/license/v1/genesis.pulsar.go:502-506 | tag, length and payload go just below the cursor; what is below and above stays |
| Buffer.PutElement | api/license/v1/genesis.pulsar.go:494-507 | the same for one turn of the reverse loops, with the elements after it above |
| Buffer.WriteByte | api/license/v1/tx.pulsar.go:2562-2566 | one byte changes, and its offset is counted as written once more |
| Buffer.OffsetsOnce | api/license/v1/genesis.pulsar.go:478-524 | what `Marshal` reports as written is every offset of the buffer exactly once and no other |
| Wire.ReadTag | api/license/v1/license.pulsar.go:546-553 | an accepted tag has a positive field number and lies within the buffer |
| Wire.Step | api/license/v1/license.pulsar.go:529-770 | an accepted record has positive length within the buffer, so the outer loop stays in bounds and ends; its kind is one the field accepts |
| Wire.Skip | api/license/v1/license.pulsar.go:754-768 | a skipped record has positive length within the buffer |
| Records.SkipWritten | api/license/v1/license.pulsar.go:754-768 | every written record, groups within groups included, is skipped to its last byte whatever follows |
| Records.SkipTruncated | api/license/v1/license.pulsar.go:754-768 | a written record that is cut short anywhere is refused |
| Records.SkipRefuses | api/license/v1/license.pulsar.go:754-768 | wire types 6 and 7 and an end tag without a group are refused, each with its error |
| Records.TagExactly | api/license/v1/license.pulsar.go:546-553 | what becomes of every uint64 in the place of a tag: end group, illegal tag, or field number and wire type |
| Wire.SkipLocal | api/license/v1/license.pulsar.go:754-768 | skipping looks at no byte past the record |
| Wire.StepLocal | api/license/v1/license.pulsar.go:529-770 | a record is read from its own bytes alone, whatever follows or is cut off |
| Wire.StepStable | api/license/v1/license.pulsar.go:529-770 | appending bytes does not change the record read |
| Wire.PackedCount | api/license/v1/tx.pulsar.go:2665-2693 | ids appended = payload bytes below 128, plus one exactly when the payload is non-empty and its last byte is 128 or more; exactly then the cursor passes the payload |
| Wire.PackedOverrun | api/license/v1/tx.pulsar.go:2665-2693 | a payload of one byte that yields an id although the estimate is zero, and moves the cursor past its end |
| Decoder.CheckBounds | api/license/v1/license.pulsar.go:740-750 | under wrapping addition the three checks give 0 <= iNdEx <= postIndex <= l or the right error |
| Decoder.RuntimeSkip | api/license/v1/license.pulsar.go:755-758 | a positive length; within the buffer exactly when the record is |
| Decoder.SkipUnknown | api/license/v1/license.pulsar.go:754-768 | the default branch accepts a record exactly when it lies in the buffer, with the right error otherwise |
| Decoder.ReadStringBounds | api/license/v1/license.pulsar.go:725-750 | the bounds of a string payload, or the error, as the format says |
| Decoder.ReadMessageBounds | api/license/v1/genesis.pulsar.go:578-601 | the same with an int length |
| Decoder.UnmarshalUint64 | api/license/v1/license.pulsar.go:555-573 | one record of a uint64 field keeps the loop invariant or is the whole decode's error |
| Decoder.UnmarshalEnum | api/license/v1/license.pulsar.go:702-720 | the same for the status |
| Decoder.UnmarshalBool | api/license/v1/license_type.pulsar.go:566-584 | the same for a bool: any non-zero varint is true |
| Decoder.UnmarshalString | api/license/v1/license.pulsar.go:721-752 | the same for a string |
| Decoder.MessageBounds | api/license/v1/genesis.pulsar.go:575-607 | the same for a list element, whose payload is decoded on its own into a new message |
| Decoder.UnmarshalUnknown | api/license/v1/license.pulsar.go:753-768 | the same for the default branch: the record is kept or dropped as a whole |
| Records.RecordDecodes | api/license/v1/license.pulsar.go:554-769 | one record means the number itself, its low 32 bits read as signed, whether it is non-zero, the bytes, one more id, or bytes to keep, for every value, canonical or not |
| Records.WrittenDecodes | api/license/v1/license.pulsar.go:529-770 | any sequence of records, in any order and with any repetitions, decodes to what they mean one after another |
| Records.WrongWire | api/license/v1/license.pulsar.go:556-558 | a known field in another wire type is refused with that field and wire type, whatever follows |
| Records.FieldWritten | api/license/v1/license.pulsar.go:461-505 | each field is written as one record, or left out at its default: a bool as 1, a negative status as 2^64 plus itself |
| Records.ListWritten | api/license/v1/genesis.pulsar.go:493-508 | a list of submessages is one delimited record per element, in order |
| Records.NegativeEnum | api/license/v1/license.pulsar.go:468-472 | a negative status takes ten bytes |
| CodecLaws.Concatenation | api/license/v1/tx.pulsar.go:2056-2184 | decoding a ++ b is decoding b from decode(a): same message, same error, for every schema and start message |
| CodecLaws.AcceptedExactly | api/license/v1/genesis.pulsar.go:535-684 | decoding succeeds, from any message and under either flag, exactly when every record of the bytes can be read and every submessage is accepted in turn |
| CodecLaws.OverrunExactly | api/license/v1/license.pulsar.go:740-764 | which record runs past the end of the bytes, and where it claims to end, follows from the bytes alone |
| CodecLaws.ConcatenationGo | api/license/v1/tx.pulsar.go:2114-2124 | the law on Go errors holds if and only if b's claimed end, if it has one, does not cross 2^63 by being moved |
| MessageLaws.ConcatenationChangesTheError | api/license/v1/license.pulsar.go:740-750 | an input where the error code changes |
| CodecLaws.MarshalledMerges | api/license/v1/genesis.pulsar.go:535-684 | decoding encoded bytes on top of any message merges the two: absent scalars stay, present ones replace, lists and unknown bytes are appended |
| CodecLaws.RoundTrip | api/license/v1/genesis.pulsar.go:468-684 | decode(encode(m)) = m for every schema, nested lists in order, unknown records included |
| CodecLaws.RoundTripExactly | api/license/v1/license.pulsar.go:457-460 | the round trip holds if and only if the unknown bytes are unknown records, at every depth |
| MessageLaws.KnownBytesAsUnknownAreLost | api/license/v1/license.pulsar.go:457-460 | a license for which it does not |
| MessageLaws.KnownBytesInAListAreLost | api/license/v1/genesis.pulsar.go:493-508 | a genesis state, itself without unknown bytes, for which it does not because of a license it lists |
| MessageLaws.PlainRoundTrip | api/license/v1/license.pulsar.go:441-776 | without unknown bytes the round trip holds, whether unknown bytes are discarded or not |
| MessageLaws.GenesisRoundTrip | api/license/v1/genesis.pulsar.go:468-684 | for every genesis state, equal lists in the original order and the same next id |
| MessageLaws.IdsRoundTrip | api/license/v1/tx.pulsar.go:2553-2571 | for every list of ids, the packed bytes decode to the same list |
| CodecLaws.DecodeKeepsClean | api/license/v1/license.pulsar.go:753-768 | whatever is decoded, the unknown bytes collected are unknown records, at every depth |
| CodecLaws.Normalisation | api/license/v1/license.pulsar.go:441-776 | decode(encode(decode(b))) = decode(b) for every accepted b |
| CanonicalSize.Grows | api/license/v1/license.pulsar.go:441-776 | encoding what was decoded takes at most two bytes for each byte decoded, for every schema |
| CanonicalSize.InputNormalisation | api/license/v1/license.pulsar.go:441-776 | normalisation of every accepted input of less than 2^62 bytes, with no condition on the output |
| MessageLaws.LicenseNormalisation | api/license/v1/license.pulsar.go:441-776 | the same for License |
| CodecLaws.DecodeUnknown | api/license/v1/license.pulsar.go:765-767 | decoding unknown records appends exactly those bytes, and nothing else appends as many |
| CodecLaws.Discarding | api/license/v1/genesis.pulsar.go:661-677 | discarding unknown fields accepts the same inputs with the same errors and erases the unknown bytes at every depth |
| CodecLaws.ChunksDecode | api/license/v1/tx.pulsar.go:2621-2693 | any mix of packed blocks and single fields decodes to the same ids in order |
| CodecLaws.StepPack | api/license/v1/tx.pulsar.go:2639-2693 | a packed block of any ids is read back as those ids |
| Encoder.FieldBytes | api/license/v1/license.pulsar.go:461-505 | the one-byte tags written are the tags of the schema |
| LicenseMessage.License.Size | api/license/v1/license.pulsar.go:393-439 | the size is the length of the encoding |
| LicenseMessage.License.Layout | api/license/v1/license.pulsar.go:457-505 | the encoding is the forward concatenation of the present fields, unknown bytes last |
| LicenseMessage.License.Marshal | api/license/v1/license.pulsar.go:441-515 | filling backwards gives exactly the forward encoding; every byte of the buffer is written exactly once |
| LicenseMessage.License.Unmarshal | api/license/v1/license.pulsar.go:516-776 | the decode loop computes the decoding: same fields, same unknown bytes, same error, on every input |
| LicenseTypeMessage.LicenseType.Size | api/license/v1/license_type.pulsar.go:374-418 | the size is the length of the encoding |
| LicenseTypeMessage.LicenseType.Marshal | api/license/v1/license_type.pulsar.go:419-493 | as for License |
| LicenseTypeMessage.LicenseType.Unmarshal | api/license/v1/license_type.pulsar.go:494-736 | as for License |
| GenesisMessage.GenesisState.Size | api/license/v1/genesis.pulsar.go:431-466 | the size is the length of the encoding, nested lists included |
| GenesisMessage.GenesisState.PutLicenses | api/license/v1/genesis.pulsar.go:493-508 | elements written last to first stand in the original order; nothing below or above is touched |
| GenesisMessage.GenesisState.PutLicenseTypes | api/license/v1/genesis.pulsar.go:509-524 | the same for the license types |
| GenesisMessage.GenesisState.Marshal | api/license/v1/genesis.pulsar.go:468-534 | filling backwards gives exactly the forward encoding; every byte of the buffer is written exactly once |
| GenesisMessage.GenesisState.Unmarshal | api/license/v1/genesis.pulsar.go:535-684 | the decode loop computes the decoding, nested messages included, on every input |
| IssueMessage.MsgIssueLicenses.Size | api/license/v1/tx.pulsar.go:1971-2001 | the size is the length of the encoding, entries included |
| IssueMessage.IssueLicenseEntry.Marshal | api/license/v1/tx.pulsar.go:1354-1416 | as for License |
| IssueMessage.IssueLicenseEntry.Unmarshal | api/license/v1/tx.pulsar.go:1417-1626 | as for License |
| IssueMessage.MsgIssueLicenses.Marshal | api/license/v1/tx.pulsar.go:2003-2055 | as for GenesisState |
| IssueMessage.MsgIssueLicenses.Unmarshal | api/license/v1/tx.pulsar.go:2056-2184 | as for GenesisState |
| IdsMessage.MsgIssueLicensesResponse.Size | api/license/v1/tx.pulsar.go:2503-2530 | the size is the length of the encoding |
| IdsMessage.MsgIssueLicensesResponse.PutIds | api/license/v1/tx.pulsar.go:2553-2568 | the forward writes from j1 fill exactly the pksize2 bytes set aside, in order |
| IdsMessage.MsgIssueLicensesResponse.Marshal | api/license/v1/tx.pulsar.go:2532-2581 | the two-pass packed writer gives exactly the forward encoding; every byte of the buffer is written exactly once |
| IdsMessage.ReadIds | api/license/v1/tx.pulsar.go:2665-2693 | the packed loop appends the payload's ids in order; their number is the estimate, or one more exactly when the payload's last byte has the continuation bit |
| IdsMessage.MsgIssueLicensesResponse.Unmarshal | api/license/v1/tx.pulsar.go:2582-2720 | the decode loop computes the decoding on every input, packed and unpacked |
| Keeper.Keeper.AllocateID | x/license/keeper/keeper.go:274-291 | the next id is handed out and the sequence moves by one, wrapping at 2^64 |
| Keeper.Keeper.IssueLicense | x/license/keeper/msg_server.go:193-219 | one license and its two index entries, counters left behind |
| Keeper.Keeper.CheckSupply | x/license/keeper/msg_server.go:155-172 | the totals kept per type are what the entries so far request; the first entry over its cap is reported |
| Keeper.IssueAccepted | x/license/keeper/msg_server.go:119-172 | a batch is accepted exactly when it has 1 to 100 valid entries that the issuer holds the grant for and no type's whole request exceeds what its cap leaves; an empty and an oversized batch have errors of their own |
| Keeper.InvalidEntryReported | x/license/keeper/msg_server.go:126-144 | a rejected batch is answered for its first invalid entry and the first of that entry's faults |
| Keeper.OverCapReported | x/license/keeper/msg_server.go:155-172 | a batch of valid entries is answered for the first that names an unknown type or passes the cap |
| StoreLaws.RunningTotalsSuffice | x/license/keeper/msg_server.go:146-172 | checking running totals is checking each type's whole request |
| Keeper.Keeper.IssueLicenses | x/license/keeper/msg_server.go:116-237 | all or nothing; the ids are consecutive from the next id in entry order; the license at each returned id carries the type, holder and dates of its own entry, active, with no revoked date |
| StoreLaws.IssuedRecords | x/license/keeper/msg_server.go:198-205 | over a whole batch, the record stored for each license of each entry, field by field |
| Keeper.BatchRecorded | x/license/keeper/msg_server.go:174-236 | the same at the ids returned |
| StoreLaws.IssueManyKeeps | x/license/keeper/msg_server.go:192-226 | after the loop, with counters stored, the invariant holds, although inside the loop counters lag |
| StoreLaws.IssueManyAdds | x/license/keeper/msg_server.go:192-220 | the loop adds licenses under fresh consecutive ids and their index entries, nothing else |
| StoreLaws.IssueEntryFrame | x/license/keeper/msg_server.go:175-226 | new ids are fresh; stored licenses, other types' counters and other holders' index entries are unchanged |
| StoreLaws.IssueAllExactly | x/license/keeper/msg_server.go:174-234 | a batch keeps the invariant if and only if the ids it needs stay below 2^64 |
| StoreLaws.IssueAllCounts | x/license/keeper/msg_server.go:222-226 | each type's counters move by exactly what was requested of it |
| StoreLaws.IssueAllKeepsCaps | x/license/keeper/msg_server.go:146-172 | an accepted batch leaves every type within its cap that was within it |
| Keeper.RevokeAccepted | x/license/keeper/msg_server.go:242-273 | in a state that satisfies the invariant a revocation is accepted exactly with the grant for the type and a count from 1 to the holder's active licenses of it; each error says which of these is missing |
| Keeper.NewestCharacterised | x/license/keeper/msg_server.go:255-266 | the ids revoked are distinct, active, in descending order, and newer than every one left |
| Keeper.Keeper.WalkNewest | x/license/keeper/msg_server.go:259-266 | the reversed walk stops with the newest count ids, or has all of them |
| Keeper.Keeper.RevokeLicenses | x/license/keeper/msg_server.go:239-319 | from any state: the newest count active licenses are revoked, or a rejected message changes nothing, or a lookup fails and exactly the licenses before it are revoked |
| Keeper.RevokeFindsAll | x/license/keeper/msg_server.go:278-303 | in a state that satisfies the invariant no lookup fails |
| StoreLaws.RevokeKeeps | x/license/keeper/msg_server.go:278-309 | revoking listed licenses keeps the invariant |
| StoreLaws.RevokeFrame | x/license/keeper/msg_server.go:284-295 | a revoked license keeps id, type, holder and dates and stays listed by type; everything else is unchanged |
| Keeper.RevokeUndoesIssue | x/license/keeper/msg_server.go:149-154 | revoking as many as were just issued takes exactly those, and gives back the holder's list and the supply |
| Keeper.Keeper.CreateLicenseType | x/license/keeper/msg_server.go:30-78 | the stored record has the message's cap and flag and zero counters, and no other type changes; a rejected message changes nothing |
| Keeper.Keeper.UpdateLicenseType | x/license/keeper/msg_server.go:80-109 | the stored flag is the message's, and nothing else changes; a rejected message changes nothing |
| Keeper.CreateAccepted | x/license/keeper/msg_server.go:35-54 | a creation is accepted exactly with the module-wide grant, a new non-empty id and a non-negative cap; each error says which is missing |
| Keeper.UpdateAccepted | x/license/keeper/msg_server.go:83-94 | an update is accepted exactly from the namespace owner and for a stored type |
| StoreLaws.CreateTypeKeeps | x/license/keeper/msg_server.go:51-70 | creating an absent type keeps the invariant |
| StoreLaws.UpdateTypeKeeps | x/license/keeper/msg_server.go:91-101 | updating a type keeps the invariant |
| Keeper.Keeper.SeedActiveLicenses | testutil/keeper/license.go:133-170 | counters moved in a local copy and stored once give the same state as issuing the entry |
| StoreLaws.SeedHeld | testutil/keeper/license.go:165-165 | the new licenses are listed under that holder and type, and no other listing changes |
| StoreLaws.SeedRecords | testutil/keeper/license.go:148-164 | new licenses of that holder and type from the next id on, active, started on 2025-01-01; stored licenses are unchanged |
| StoreLaws.SeedTypes | testutil/keeper/license.go:138-147 | the type's counters move by the count, an absent type is created uncapped, other types are unchanged |
| StoreLaws.SeedExactly | testutil/keeper/license.go:133-170 | seeding keeps the invariant if and only if the ids stay below 2^64 |
| StoreLaws.SeedAdditive | testutil/keeper/license.go:148-169 | seeding m and then n is seeding m + n |
| Keeper.Keeper.CountActiveLicenses | x/license/keeper/keeper.go:257-272 | the number of active licenses held over the given types, cut off at a non-zero stopAt |
| Keeper.TotalHeldCounts | x/license/keeper/keeper.go:247-272 | over distinct types the total is the number of the holder's active licenses of those types |
| Queries.ByTypeIsFilter | x/license/keeper/query_server.go:83-96 | a full scan by type never fails and is the filter of all licenses, all statuses, in id order |
| Queries.ByHolderAndTypeIsFilter | x/license/keeper/query_server.go:113-127 | the same by holder and type, active only |
| Queries.ByHolderIsPartition | x/license/keeper/query_server.go:98-111 | a full scan by holder is the per-type results of every type, one after another |
| Queries.ByHolderSelects | x/license/keeper/query_server.go:98-111 | it returns exactly the holder's active licenses, once each |
| Queries.ActivePartOfType | x/license/keeper/query_server.go:113-127 | a holder-and-type result is the active, same-holder part of the by-type result |
| Queries.PerTypeDisjoint | x/license/keeper/query_server.go:113-127 | the results of one holder for two types share no license |
| Dates.ValidExactly | x/license/types/msgs.go:12-34 | a date in YYYY-MM-DD form is accepted exactly when the Gregorian calendar has it |
| Dates.OnlyWrittenDates | x/license/types/msgs.go:19-26 | no text in another form is accepted |
| Dates.ValidPair | x/license/types/msgs.go:15-33 | a pair is accepted exactly when both dates are on the calendar and the end, if given, is not before the start |
| Genesis.Validate | x/license/types/genesis_helpers.go:20-123 | the four passes accept exactly the valid genesis states |
| Genesis.LicenseAccepted | x/license/types/genesis_helpers.go:59-93 | a license is accepted exactly when its type is listed, it is active without a revoked date or revoked with one on the calendar, its holder is an address and its dates are in order |
| Genesis.ValidateLicenses | x/license/types/genesis_helpers.go:54-93 | the pass accepts exactly well-formed licenses, and its tallies and highest id are right |
| Keeper.Keeper.InitGenesis | x/license/keeper/keeper.go:164-198 | an invalid genesis changes nothing, a valid one is loaded record by record |
| Keeper.Keeper.ExportGenesis | x/license/keeper/keeper.go:201-233 | the walks list types and licenses in key order, with the next id |
| Genesis.ImportEstablishes | x/license/keeper/keeper.go:160-198 | importing a valid genesis into an empty store establishes the invariant, indexes and counters included |
| Genesis.ImportPositive | x/license/types/genesis_helpers.go:112-120 | no license is stored under id 0 if and only if the genesis has none |
| Genesis.ZeroIdAccepted | x/license/types/keys.go:55-59 | a valid genesis that stores a license under id 0 |
| Genesis.ImportCapped | x/license/types/genesis_helpers.go:28-30 | caps hold after import if and only if the genesis lists no type over its cap |
| Genesis.ExceededCapAccepted | x/license/types/genesis_helpers.go:28-30 | a valid genesis with two active licenses of a type capped at one |
| Genesis.ExportOrdered | x/license/keeper/keeper.go:201-218 | licenses stand in ascending id order, license types in the order of their ids as strings |
| Order.StringLessExactly | x/license/keeper/keeper.go:203-206 | that order: the first character that differs decides, and a proper prefix comes first |
| Genesis.ExportIsValid | x/license/keeper/keeper.go:201-233 | what is exported passes validation |
| Genesis.ExportImport | x/license/keeper/keeper.go:164-233 | exporting and importing gives the same state, indexes included |
| Genesis.ImportExport | x/license/keeper/keeper.go:164-233 | importing and exporting gives the same records |
| Runs.Deliver | x/license/keeper/msg_server.go:30-319 | a message through its handler, rolled back on an error, does to the store what the runs below assume, from any state |
| Runs.DeliverAll | x/license/keeper/msg_server.go:30-319 | so does any sequence of messages |
| Runs.CreateOutcome | x/license/keeper/msg_server.go:30-78 | exactly when a creation takes effect, and the record it stores |
| Runs.UpdateOutcome | x/license/keeper/msg_server.go:80-109 | exactly when an update takes effect, and what it changes |
| Runs.IssueOutcome | x/license/keeper/msg_server.go:116-237 | exactly when a batch takes effect, on the grants of its moment |
| Runs.RevokeOutcome | x/license/keeper/msg_server.go:239-319 | exactly when a revocation takes effect, and that it takes the newest licenses |
| Runs.DeliveryAuthorised | x/license/keeper/msg_server.go:30-319 | no message changes the store without the grants it needs at that moment, or the ownership of the namespace |
| Runs.DeliveryExactly | x/license/keeper/msg_server.go:30-319 | a message keeps the invariant if and only if the ids it takes stay below 2^64 |
| Runs.LastIdBreaksTheInvariant | x/license/keeper/keeper.go:287-290 | a valid genesis and an accepted batch of one license that break the invariant |
| Runs.RunKeeps | x/license/keeper/msg_server.go:30-319 | for any messages in any order under any changing grants, every state reached satisfies the invariant and the caps, and the next id has moved by exactly the ids taken |
| Runs.CreatedCapHolds | x/license/keeper/msg_server.go:146-172 | a type keeps the cap it was created with, and no later run leaves it with more active licenses than that |
| Runs.GoodRecords | x/license/keeper/msg_server.go:198-205 | in every state such a run reaches, a license has a revoked date exactly when it is revoked, an address for a holder and dates on the calendar |
| Runs.RunExactly | x/license/keeper/msg_server.go:30-319 | the invariant holds all along a run if and only if the run does not use up the ids |
| Runs.RunHistory | x/license/keeper/msg_server.go:284-295 | an id is never taken back or reused, a license keeps its type, holder and dates, revocation is final, max_supply is fixed |
| Runs.RunExportsAndReimports | x/license/keeper/keeper.go:160-233 | from any valid genesis, any such run can be exported, passes validation and comes back unchanged |

## Left out

- Other messages of `tx.pulsar.go` (creating and updating types, revoking, the empty responses): the same closure template over field kinds that are modelled; `MsgRevokeLicensesResponse` differs from `MsgIssueLicensesResponse` in its name only.
- Each loop that the generator inlines is one method here, called once per field with that field's constants; the Go repeats its text.
- Nil messages, and appending to a buffer passed to `marshal`: one branch each.
- LicenseMessage.License.Unmarshal: does not say which fields are already set when it returns an error; the encoding specification promises nothing of such a message.
- LicenseTypeMessage.LicenseType.Unmarshal: does not say which fields are already set when it returns an error; the encoding specification promises nothing of such a message.
- GenesisMessage.GenesisState.Unmarshal: does not say which fields are already set when it returns an error; the encoding specification promises nothing of such a message.
- IssueMessage.IssueLicenseEntry.Unmarshal: does not say which fields are already set when it returns an error; the encoding specification promises nothing of such a message.
- IssueMessage.MsgIssueLicenses.Unmarshal: does not say which fields are already set when it returns an error; the encoding specification promises nothing of such a message.
- IdsMessage.MsgIssueLicensesResponse.Unmarshal: does not say which fields are already set when it returns an error; the encoding specification promises nothing of such a message.
- Slice capacity: the preallocation of ids is modelled by its estimate, not by memory.
- Buffers of 2^63 bytes or more, which Go cannot hold; UTF-8 validity of strings, which are bytes in the codec.
- Reflection adapters (`Has`, `Clear`, `Get`, `Set`, `Range`, list views), descriptors, and `query.pulsar.go`: one branch or one assignment each, or codecs of another module.
- Decoder.RuntimeSkip: `runtime.Skip` is written from the encoding specification; its package is not part of this model.
- Wraps of `math.Int` at 256 bits and nil `math.Int` counters; counters and supplies are integers, and a max supply may be absent when a type is created.
- Store and I/O failures, gas, events, error texts, creation of holder accounts, `ValidateBasic`, transaction signing.
- x/permission, x/network, bech32 parsing and the app wiring: `Env` carries what the handlers ask of them.
- Runs.RunKeeps: takes the block date of a revocation to be a date in YYYY-MM-DD form, which holds for block times up to the year 9999.
- Genesis.Validate: says whether a genesis is accepted, not which error comes first; the errors are unstructured texts.
- Page limits and cursors of paginated queries, and the byte encoding of keys: a query is one full scan of its prefix in key order.
