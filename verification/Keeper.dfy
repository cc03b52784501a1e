// The license keeper and its message handlers, which update the store in place.
module Keeper {
  import opened GoInts
  import opened Results
  import opened Dates
  import opened Order
  import opened LicenseStore
  import opened StoreLaws
  import Genesis

  const MAX_ISSUE_BATCH_SIZE: nat := 100
  const PERMISSION_ISSUE := "issue"
  const PERMISSION_REVOKE := "revoke"
  const PERMISSION_CREATE_TYPE := "type.create"

  // `entry` is the position of the offending entry in the batch.
  datatype MsgError =
    | EmptyBatchEntries
    | BatchTooLarge
    | InvalidHolder(entry: nat)
    | InvalidDates(entry: nat)
    | InvalidCount
    | InvalidEntryCount(entry: nat)
    | Unauthorized
    | LicenseTypeNotFound
    | EntryTypeNotFound(entry: nat)
    | MaxSupplyReached(entry: nat)
    | LicenseTypeExists
    | InvalidMaxSupply
    | LicenseNotFound
    | StoreNotFound

  // ---- What the handlers reject ----

  predicate HasPermission(env: Env, address: string, permission: string, scope: string) {
    (address, permission, scope) in env.grants
  }

  function EntryError(env: Env, issuer: string, e: Entry, i: nat): Option<MsgError> {
    if !env.validAddress(e.holder) then Some(InvalidHolder(i))
    else if !ValidDates(e.startDate, e.endDate) then Some(InvalidDates(i))
    else if e.count == 0 then Some(InvalidEntryCount(i))
    else if !HasPermission(env, issuer, PERMISSION_ISSUE, e.typ) then Some(Unauthorized)
    else None
  }

  // The first entry error from i on.
  function EntriesError(env: Env, issuer: string, es: seq<Entry>, i: nat): Option<MsgError>
    requires i <= |es|
    decreases |es| - i
  {
    if i == |es| then None
    else if EntryError(env, issuer, es[i], i).Some? then EntryError(env, issuer, es[i], i)
    else EntriesError(env, issuer, es, i + 1)
  }

  // The first supply error from i on, each running total against the cap.
  function SupplyError(s: State, es: seq<Entry>, i: nat): Option<MsgError>
    requires i <= |es|
    decreases |es| - i
  {
    if i == |es| then None
    else if es[i].typ !in s.types then Some(EntryTypeNotFound(i))
    else
      var lt := s.types[es[i].typ];
      if lt.maxSupply != 0 && lt.activeCount + Requested(es[..i + 1], es[i].typ) > lt.maxSupply
      then Some(MaxSupplyReached(i))
      else SupplyError(s, es, i + 1)
  }

  function IssueError(s: State, env: Env, issuer: string, es: seq<Entry>): Option<MsgError> {
    if |es| == 0 then Some(EmptyBatchEntries)
    else if |es| > MAX_ISSUE_BATCH_SIZE then Some(BatchTooLarge)
    else if EntriesError(env, issuer, es, 0).Some? then EntriesError(env, issuer, es, 0)
    else SupplyError(s, es, 0)
  }

  // The ids are looked up one by one; one that the index lists but the map lacks ends the loop.
  function RevokeError(s: State, env: Env, revoker: string, t: string, h: string, count: uint64): Option<MsgError> {
    if !HasPermission(env, revoker, PERMISSION_REVOKE, t) then Some(Unauthorized)
    else if count == 0 then Some(InvalidCount)
    else if |Held(s, h, t)| < count then Some(LicenseNotFound)
    else if StoredPrefix(s, Newest(s, h, t, count)) != Newest(s, h, t, count) || t !in s.types then Some(StoreNotFound)
    else None
  }

  // The ids up to the first that is not stored.
  function StoredPrefix(s: State, ids: seq<uint64>): seq<uint64> {
    if |ids| == 0 || ids[0] !in s.licenses then [] else [ids[0]] + StoredPrefix(s, ids[1..])
  }

  function CreateError(s: State, env: Env, creator: string, id: string, maxSupply: Option<int>): Option<MsgError> {
    if !HasPermission(env, creator, PERMISSION_CREATE_TYPE, "") then Some(Unauthorized)
    else if id == "" then Some(LicenseTypeNotFound)
    else if maxSupply.None? || maxSupply.value < 0 then Some(InvalidMaxSupply)
    else if id in s.types then Some(LicenseTypeExists)
    else None
  }

  function UpdateError(s: State, env: Env, sender: string, id: string): Option<MsgError> {
    if sender != env.owner then Some(Unauthorized)
    else if id !in s.types then Some(LicenseTypeNotFound)
    else None
  }

  ghost predicate EntryOk(env: Env, issuer: string, e: Entry) {
    && env.validAddress(e.holder) && ValidDates(e.startDate, e.endDate) && e.count > 0
    && (issuer, "issue", e.typ) in env.grants
  }

  // A batch is accepted exactly when it is neither empty nor too large, every entry is
  // valid and permitted, and no type's whole request exceeds what its cap leaves.
  lemma IssueAccepted(s: State, env: Env, issuer: string, es: seq<Entry>)
    ensures IssueError(s, env, issuer, es) == None <==>
            && 1 <= |es| <= 100
            && (forall i :: 0 <= i < |es| ==> EntryOk(env, issuer, es[i]))
            && (forall i :: 0 <= i < |es| ==>
                  && es[i].typ in s.types
                  && (s.types[es[i].typ].maxSupply == 0 ||
                      s.types[es[i].typ].activeCount + Requested(es, es[i].typ) <= s.types[es[i].typ].maxSupply))
    ensures IssueError(s, env, issuer, es) == Some(EmptyBatchEntries) <==> |es| == 0
    ensures IssueError(s, env, issuer, es) == Some(BatchTooLarge) <==> |es| > 100
  {
    EntriesAccepted(env, issuer, es, 0);
    SupplyAccepted(s, es, 0);
    RunningTotalsSuffice(s, es);
    ErrorsNameEntries(s, env, issuer, es, 0);
    assert SupplyOk(s, es) <==> forall i :: 0 <= i < |es| ==> EntrySupplyOk(s, es, es[i].typ);
  }

  lemma {:induction false} ErrorsNameEntries(s: State, env: Env, issuer: string, es: seq<Entry>, i: nat)
    requires i <= |es|
    ensures EntriesError(env, issuer, es, i) !in {Some(EmptyBatchEntries), Some(BatchTooLarge)}
    ensures SupplyError(s, es, i) !in {Some(EmptyBatchEntries), Some(BatchTooLarge)}
    decreases |es| - i
  {
    if i < |es| {
      ErrorsNameEntries(s, env, issuer, es, i + 1);
    }
  }

  // A rejected batch is answered for its first invalid entry, and for the first of that
  // entry's faults.
  lemma InvalidEntryReported(s: State, env: Env, issuer: string, es: seq<Entry>, i: nat)
    requires i < |es| <= 100 && !EntryOk(env, issuer, es[i])
    requires forall j :: 0 <= j < i ==> EntryOk(env, issuer, es[j])
    ensures var err := IssueError(s, env, issuer, es);
            && (err == Some(InvalidHolder(i)) <==> !env.validAddress(es[i].holder))
            && (err == Some(InvalidDates(i)) <==>
                  env.validAddress(es[i].holder) && !ValidDates(es[i].startDate, es[i].endDate))
            && (err == Some(InvalidEntryCount(i)) <==>
                  env.validAddress(es[i].holder) && ValidDates(es[i].startDate, es[i].endDate) && es[i].count == 0)
            && (err == Some(Unauthorized) <==>
                  env.validAddress(es[i].holder) && ValidDates(es[i].startDate, es[i].endDate) && es[i].count > 0)
  {
    EntriesUpTo(env, issuer, es, 0, i);
  }

  lemma {:induction false} EntriesUpTo(env: Env, issuer: string, es: seq<Entry>, k: nat, i: nat)
    requires k <= i < |es| && forall j :: k <= j < i ==> EntryOk(env, issuer, es[j])
    ensures EntriesError(env, issuer, es, k) == EntriesError(env, issuer, es, i)
    decreases i - k
  {
    if k < i {
      EntriesUpTo(env, issuer, es, k + 1, i);
    }
  }

  // A batch of valid entries is answered for the first one that names an unknown type or whose
  // running total passes the cap.
  lemma OverCapReported(s: State, env: Env, issuer: string, es: seq<Entry>, i: nat)
    requires i < |es| <= 100 && forall j :: 0 <= j < |es| ==> EntryOk(env, issuer, es[j])
    requires !EntrySupplyOk(s, es[..i + 1], es[i].typ)
    requires forall j :: 0 <= j < i ==> EntrySupplyOk(s, es[..j + 1], es[j].typ)
    ensures IssueError(s, env, issuer, es)
            == Some(if es[i].typ !in s.types then EntryTypeNotFound(i) else MaxSupplyReached(i))
  {
    EntriesAccepted(env, issuer, es, 0);
    SupplyUpTo(s, es, 0, i);
  }

  lemma {:induction false} SupplyUpTo(s: State, es: seq<Entry>, k: nat, i: nat)
    requires k <= i < |es| && forall j :: k <= j < i ==> EntrySupplyOk(s, es[..j + 1], es[j].typ)
    ensures SupplyError(s, es, k) == SupplyError(s, es, i)
    decreases i - k
  {
    if k < i {
      SupplyUpTo(s, es, k + 1, i);
    }
  }

  // A revocation is accepted exactly when the signer holds the grant for the type and the
  // holder has that many active licenses of it; otherwise the error says which is missing.
  lemma RevokeAccepted(s: State, env: Env, revoker: string, t: string, h: string, count: uint64)
    requires Inv(s)
    ensures var err, granted := RevokeError(s, env, revoker, t, h, count), (revoker, "revoke", t) in env.grants;
            && (err == None <==> granted && 1 <= count <= |ActiveLicenses(s, h, t)|)
            && (err == Some(Unauthorized) <==> !granted)
            && (err == Some(InvalidCount) <==> granted && count == 0)
            && (err == Some(LicenseNotFound) <==> granted && count > |ActiveLicenses(s, h, t)|)
  {
    hide Inv, Held, ActiveLicenses, Newest, StoredPrefix;
    RevokeFindsAll(s, env, revoker, t, h, count);
    HeldIsActive(s, h, t);
  }

  // The active licenses of a holder and type, found without the index.
  function ActiveLicenses(s: State, h: string, t: string): set<uint64> {
    set id | id in s.licenses && s.licenses[id].status == 1 && s.licenses[id].holder == h && s.licenses[id].typ == t
  }

  lemma HeldIsActive(s: State, h: string, t: string)
    requires Inv(s)
    ensures Held(s, h, t) == ActiveLicenses(s, h, t)
  {
    hide Held, CountersOk, LicensesOk;
    HeldMembers(s, h, t);
    forall id
      ensures id in Held(s, h, t) <==> id in ActiveLicenses(s, h, t)
    {
      assert id in Held(s, h, t) <==> (h, t, id) in s.byHolder;
    }
  }

  // A creation is accepted exactly with the module-wide grant, a new non-empty id and a
  // non-negative cap; otherwise the error says what is missing.
  lemma CreateAccepted(s: State, env: Env, creator: string, id: string, maxSupply: Option<int>)
    ensures var err, granted := CreateError(s, env, creator, id, maxSupply), (creator, "type.create", "") in env.grants;
            var capped := maxSupply.Some? && maxSupply.value >= 0;
            && (err == None <==> granted && id != "" && capped && id !in s.types)
            && (err == Some(Unauthorized) <==> !granted)
            && (err == Some(LicenseTypeNotFound) <==> granted && id == "")
            && (err == Some(InvalidMaxSupply) <==> granted && id != "" && !capped)
            && (err == Some(LicenseTypeExists) <==> granted && id != "" && capped && id in s.types)
  {
  }

  // An update is accepted exactly from the namespace owner and for a stored type.
  lemma UpdateAccepted(s: State, env: Env, sender: string, id: string)
    ensures UpdateError(s, env, sender, id) == None <==> sender == env.owner && id in s.types
    ensures UpdateError(s, env, sender, id) == Some(Unauthorized) <==> sender != env.owner
    ensures UpdateError(s, env, sender, id) == Some(LicenseTypeNotFound) <==> sender == env.owner && id !in s.types
  {
  }

  lemma {:induction false} EntriesAccepted(env: Env, issuer: string, es: seq<Entry>, i: nat)
    requires i <= |es|
    ensures EntriesError(env, issuer, es, i) == None <==> forall j :: i <= j < |es| ==> EntryOk(env, issuer, es[j])
    decreases |es| - i
  {
    if i < |es| {
      EntriesAccepted(env, issuer, es, i + 1);
    }
  }

  lemma {:induction false} SupplyAccepted(s: State, es: seq<Entry>, i: nat)
    requires i <= |es|
    ensures SupplyError(s, es, i) == None <==>
            forall j :: i <= j < |es| ==> EntrySupplyOk(s, es[..j + 1], es[j].typ)
    decreases |es| - i
  {
    if i < |es| {
      SupplyAccepted(s, es, i + 1);
    }
  }

  // ---- Ids ----

  lemma {:induction false} NextIdWraps(s: State, e: Entry, n: nat)
    ensures NextId(IssueMany(s, e, n)) == (NextId(s) + n) % TWO_64
  {
    if n > 0 {
      NextIdWraps(s, e, n - 1);
      var x := NextId(s) + n - 1;
      ModAddMultiple((x % TWO_64) + 1, x / TWO_64, TWO_64);
      assert x == x % TWO_64 + (x / TWO_64) * TWO_64;
    }
  }

  lemma {:induction false} NextIdWrapsAll(s: State, es: seq<Entry>)
    requires TypesKnown(s, es)
    ensures NextId(IssueAll(s, es)) == (NextId(s) + Total(es)) % TWO_64
  {
    hide IssueMany;
    if |es| > 0 {
      var init, e := es[..|es| - 1], es[|es| - 1];
      NextIdWrapsAll(s, init);
      NextIdWraps(IssueAll(s, init), e, e.count);
      ModSum(NextId(s) + Total(init), e.count);
    }
  }

  lemma ModSum(x: nat, y: nat)
    ensures (x % TWO_64 + y) % TWO_64 == (x + y) % TWO_64
    ensures Wrap64(Wrap64(x) + y) == Wrap64(x + y)
  {
    ModAddMultiple(x % TWO_64 + y, x / TWO_64, TWO_64);
  }

  ghost predicate Consecutive(ids: seq<uint64>, first: uint64) {
    forall j :: 0 <= j < |ids| ==> ids[j] == (first + j) % TWO_64
  }

  // The returned ids, in entry order, name active licenses with everything their own entry
  // asks for.
  ghost predicate BatchRecords(s: State, es: seq<Entry>, ids: seq<uint64>) {
    forall i, j :: 0 <= i < |es| && 0 <= j < es[i].count ==>
      Place(es, i, j) < |ids| && RecordOf(s, ids[Place(es, i, j)], es[i])
  }

  lemma BatchRecorded(s: State, es: seq<Entry>, ids: seq<uint64>)
    requires TypesKnown(s, es) && NextId(s) + Total(es) <= TWO_64
    requires |ids| == Total(es) && Consecutive(ids, NextId(s))
    ensures BatchRecords(IssueAll(s, es), es, ids)
  {
    hide RecordOf, IssueAll, Place;
    IssuedRecords(s, es);
    forall i, j | 0 <= i < |es| && 0 <= j < es[i].count
      ensures Place(es, i, j) < |ids| && RecordOf(IssueAll(s, es), ids[Place(es, i, j)], es[i])
    {
      ModSmall(NextId(s) + Place(es, i, j), TWO_64);
    }
  }

  lemma NoneConsecutive(first: uint64)
    ensures Consecutive([], first)
  {
  }

  lemma AcceptedTypesKnown(s: State, es: seq<Entry>)
    requires SupplyError(s, es, 0) == None
    ensures TypesKnown(s, es)
  {
    SupplyAccepted(s, es, 0);
    assert forall i :: 0 <= i < |es| ==> EntrySupplyOk(s, es[..i + 1], es[i].typ);
  }

  // ---- Revocation order ----

  // The ids a revocation takes: the walk is in descending id order and stops after count.
  function Newest(s: State, h: string, t: string, count: nat): (r: seq<uint64>)
    requires count <= |Held(s, h, t)|
    ensures |r| == count
  {
    Descending(Held(s, h, t))[..count]
  }

  function SetOf(ids: seq<uint64>): set<uint64> {
    set id | id in ids
  }

  // They are distinct, active, in descending order, and newer than every one left.
  lemma NewestCharacterised(s: State, h: string, t: string, count: nat)
    requires count <= |Held(s, h, t)|
    ensures var r := Newest(s, h, t, count);
            && SetOf(r) <= Held(s, h, t) && |SetOf(r)| == count
            && (forall i, j :: 0 <= i < j < |r| ==> r[i] > r[j])
            && (forall kept, id :: kept in Held(s, h, t) - SetOf(r) && id in r ==> kept < id)
  {
    var all, r := Descending(Held(s, h, t)), Newest(s, h, t, count);
    assert forall i, j :: 0 <= i < j < |r| ==> IdMore(all[i], all[j]);
    DistinctCount(r);
    forall kept, id | kept in Held(s, h, t) - SetOf(r) && id in r
      ensures kept < id
    {
      assert kept in all;
      var k :| 0 <= k < |all| && all[k] == kept;
      var i :| 0 <= i < |r| && r[i] == id;
      assert forall j :: 0 <= j < count ==> all[j] in r;
      assert IdMore(all[i], all[k]);
    }
  }

  lemma {:induction false} DistinctCount(ids: seq<uint64>)
    requires forall i, j :: 0 <= i < j < |ids| ==> ids[i] > ids[j]
    ensures |SetOf(ids)| == |ids|
  {
    if |ids| > 0 {
      var init, last := ids[..|ids| - 1], ids[|ids| - 1];
      DistinctCount(init);
      assert SetOf(ids) == SetOf(init) + {last};
      assert last !in SetOf(init);
    }
  }

  // ---- Counting ----

  lemma Wrap64Small()
    ensures forall x: uint64 :: Wrap64(x) == x
  {
  }

  function TotalHeld(s: State, h: string, types: seq<string>): nat {
    if |types| == 0 then 0 else TotalHeld(s, h, types[..|types| - 1]) + |Held(s, h, types[|types| - 1])|
  }

  function Min(a: nat, b: nat): nat {
    if a <= b then a else b
  }

  lemma NoneHeld(s: State, h: string, types: seq<string>)
    requires types == []
    ensures TotalHeld(s, h, types) == 0
  {
  }

  lemma {:induction false} TotalHeldGrows(s: State, h: string, types: seq<string>, i: nat)
    requires i < |types|
    ensures TotalHeld(s, h, types[..i + 1]) == TotalHeld(s, h, types[..i]) + |Held(s, h, types[i])|
    ensures TotalHeld(s, h, types[..i + 1]) <= TotalHeld(s, h, types)
    decreases |types| - i
  {
    assert types[..i + 1][..i] == types[..i];
    if i + 1 == |types| {
      assert types[..i + 1] == types;
    } else {
      TotalHeldGrows(s, h, types, i + 1);
      assert types[..i + 2][..i + 1] == types[..i + 1];
    }
  }

  // Over distinct types the total is the number of the holder's active licenses of those
  // types; a type that is listed twice counts twice.
  lemma {:induction false} TotalHeldCounts(s: State, h: string, types: seq<string>)
    requires Inv(s) && forall i, j :: 0 <= i < j < |types| ==> types[i] != types[j]
    ensures TotalHeld(s, h, types) == |ActiveAmong(s, h, types)|
  {
    hide Inv, Held, ActiveAmong, ActiveLicenses;
    if |types| == 0 {
      NoneAmong(s, h, types);
    } else {
      var init, t := types[..|types| - 1], types[|types| - 1];
      TotalHeldCounts(s, h, init);
      HeldIsActive(s, h, t);
      AmongSplit(s, h, types);
    }
  }

  function ActiveAmong(s: State, h: string, types: seq<string>): set<uint64> {
    set id | id in s.licenses && s.licenses[id].status == 1 && s.licenses[id].holder == h && s.licenses[id].typ in types
  }

  lemma NoneAmong(s: State, h: string, types: seq<string>)
    requires types == []
    ensures ActiveAmong(s, h, types) == {}
  {
  }

  lemma AmongSplit(s: State, h: string, types: seq<string>)
    requires |types| > 0 && forall i, j :: 0 <= i < j < |types| ==> types[i] != types[j]
    ensures var init, t := types[..|types| - 1], types[|types| - 1];
            |ActiveAmong(s, h, types)| == |ActiveAmong(s, h, init)| + |ActiveLicenses(s, h, t)|
  {
    var init, t := types[..|types| - 1], types[|types| - 1];
    assert types == init + [t];
    assert ActiveAmong(s, h, types) == ActiveAmong(s, h, init) + ActiveLicenses(s, h, t);
    assert ActiveAmong(s, h, init) !! ActiveLicenses(s, h, t);
  }

  // ---- The keeper ----

  class Keeper {
    var licenseTypes: map<string, TypeRecord>
    var licenses: map<uint64, LicenseRecord>
    var nextLicenseID: Option<uint64>
    var licensesByType: set<(string, uint64)>
    var activeLicensesByHolder: set<(string, string, uint64)>

    constructor ()
      ensures S() == EMPTY
    {
      licenseTypes, licenses, nextLicenseID := map[], map[], None;
      licensesByType, activeLicensesByHolder := {}, {};
    }

    function S(): State
      reads this
    {
      State(licenseTypes, licenses, nextLicenseID, licensesByType, activeLicensesByHolder)
    }

    // What the runtime does when a message fails: the store is as it was.
    method Restore(s: State)
      modifies this
      ensures S() == s
    {
      licenseTypes, licenses, nextLicenseID := s.types, s.licenses, s.nextId;
      licensesByType, activeLicensesByHolder := s.byType, s.byHolder;
    }

    // The id for the next license; an unset sequence starts at FIRST_LICENSE_ID, and id + 1
    // wraps like any uint64.
    method AllocateID() returns (id: uint64)
      modifies this
      ensures id == NextId(old(S()))
      ensures S() == old(S()).(nextId := Some((id + 1) % TWO_64))
    {
      id := if nextLicenseID.Some? then nextLicenseID.value else FIRST_LICENSE_ID;
      nextLicenseID := Some((id + 1) % TWO_64);
    }

    // The body of the issuing loops: one license, its two index entries, no counters.
    method IssueLicense(e: Entry) returns (id: uint64)
      modifies this
      ensures id == NextId(old(S())) && S() == IssueOne(old(S()), e)
    {
      id := AllocateID();
      licenses := licenses[id := LicenseRecord(id, e.typ, e.holder, e.startDate, e.endDate, ACTIVE, "")];
      licensesByType := licensesByType + {(e.typ, id)};
      activeLicensesByHolder := activeLicensesByHolder + {(e.holder, e.typ, id)};
    }

    method CreateLicenseType(env: Env, creator: string, id: string, transferrable: bool, maxSupply: Option<int>)
      returns (err: Option<MsgError>)
      modifies this
      ensures err == CreateError(old(S()), env, creator, id, maxSupply)
      ensures S() == if err.Some? then old(S()) else CreateType(old(S()), id, transferrable, maxSupply.value)
      ensures err.None? ==>
                licenseTypes == old(licenseTypes)[id := TypeRecord(id, transferrable, maxSupply.value, 0, 0, 0)]
    {
      if !HasPermission(env, creator, PERMISSION_CREATE_TYPE, "") {
        return Some(Unauthorized);
      }
      if id == "" {
        return Some(LicenseTypeNotFound);
      }
      if maxSupply.None? || maxSupply.value < 0 {
        return Some(InvalidMaxSupply);
      }
      if id in licenseTypes {
        return Some(LicenseTypeExists);
      }
      licenseTypes := licenseTypes[id := TypeRecord(id, transferrable, maxSupply.value, 0, 0, 0)];
      return None;
    }

    method UpdateLicenseType(env: Env, sender: string, id: string, transferrable: bool) returns (err: Option<MsgError>)
      modifies this
      ensures err == UpdateError(old(S()), env, sender, id)
      ensures S() == if err.Some? then old(S()) else UpdateType(old(S()), id, transferrable)
      ensures err.None? ==>
                && id in old(licenseTypes) && licenseTypes.Keys == old(licenseTypes).Keys
                && licenseTypes[id].transferrable == transferrable
                && licenseTypes[id] == old(licenseTypes)[id].(transferrable := transferrable)
                && forall t :: t in licenseTypes && t != id ==> licenseTypes[t] == old(licenseTypes)[t]
    {
      if sender != env.owner {
        return Some(Unauthorized);
      }
      if id !in licenseTypes {
        return Some(LicenseTypeNotFound);
      }
      var lt := licenseTypes[id];
      lt := lt.(transferrable := transferrable);
      licenseTypes := licenseTypes[id := lt];
      return None;
    }

    // The first pass over a batch: each entry on its own.
    method CheckEntries(env: Env, issuer: string, entries: seq<Entry>) returns (err: Option<MsgError>)
      ensures err == EntriesError(env, issuer, entries, 0)
    {
      for i := 0 to |entries|
        invariant EntriesError(env, issuer, entries, 0) == EntriesError(env, issuer, entries, i)
      {
        var entry := entries[i];
        if !env.validAddress(entry.holder) {
          return Some(InvalidHolder(i));
        }
        if !ValidDates(entry.startDate, entry.endDate) {
          return Some(InvalidDates(i));
        }
        if entry.count == 0 {
          return Some(InvalidEntryCount(i));
        }
        if !HasPermission(env, issuer, PERMISSION_ISSUE, entry.typ) {
          return Some(Unauthorized);
        }
      }
      return None;
    }

    // The second pass: requested counts aggregated per type, against the caps.
    method CheckSupply(entries: seq<Entry>) returns (err: Option<MsgError>)
      ensures err == SupplyError(S(), entries, 0)
    {
      var totals: map<string, int> := map[];
      for i := 0 to |entries|
        invariant SupplyError(S(), entries, 0) == SupplyError(S(), entries, i)
        invariant forall t :: Requested(entries[..i], t) == if t in totals then totals[t] else 0
      {
        var entry := entries[i];
        if entry.typ !in licenseTypes {
          return Some(EntryTypeNotFound(i));
        }
        var lt := licenseTypes[entry.typ];
        var total := (if entry.typ in totals then totals[entry.typ] else 0) + entry.count;
        totals := totals[entry.typ := total];
        assert entries[..i + 1][..i] == entries[..i];
        if lt.maxSupply != 0 && lt.activeCount + total > lt.maxSupply {
          return Some(MaxSupplyReached(i));
        }
      }
      return None;
    }

    // All or nothing: a batch that is rejected changes nothing; one that is accepted issues
    // every entry in order, under consecutive ids.
    method IssueLicenses(env: Env, issuer: string, entries: seq<Entry>)
      returns (err: Option<MsgError>, ids: seq<uint64>)
      modifies this
      ensures err == IssueError(old(S()), env, issuer, entries)
      ensures err.Some? ==> S() == old(S())
      ensures err.None? ==> TypesKnown(old(S()), entries) && S() == IssueAll(old(S()), entries)
      ensures err.None? ==> |ids| == Total(entries) && Consecutive(ids, NextId(old(S())))
      ensures err.None? && NextId(old(S())) + Total(entries) <= TWO_64 ==> BatchRecords(S(), entries, ids)
    {
      ghost var s0 := S();
      ids := [];
      if |entries| == 0 {
        return Some(EmptyBatchEntries), ids;
      }
      if |entries| > MAX_ISSUE_BATCH_SIZE {
        return Some(BatchTooLarge), ids;
      }
      err := CheckEntries(env, issuer, entries);
      if err.Some? {
        return err, ids;
      }
      err := CheckSupply(entries);
      if err.Some? {
        return err, ids;
      }
      AcceptedTypesKnown(S(), entries);
      err, ids := IssueEntries(entries);
      if NextId(s0) + Total(entries) <= TWO_64 {
        BatchRecorded(s0, entries, ids);
      }
    }

    // The third pass: every entry is issued, re-reading its license type each time.
    method IssueEntries(entries: seq<Entry>) returns (err: Option<MsgError>, ids: seq<uint64>)
      requires TypesKnown(S(), entries)
      modifies this
      ensures err == None && S() == IssueAll(old(S()), entries)
      ensures |ids| == Total(entries) && Consecutive(ids, NextId(old(S())))
    {
      hide IssueMany, Consecutive;
      ghost var s0 := S();
      ids := [];
      NoneConsecutive(NextId(s0));
      for i := 0 to |entries|
        invariant S() == IssueAll(s0, entries[..i])
        invariant |ids| == Total(entries[..i]) && Consecutive(ids, NextId(s0))
      {
        var entry := entries[i];
        assert entries[..i + 1][..i] == entries[..i];
        if entry.typ !in licenseTypes {
          assert false;
          return Some(StoreNotFound), ids;
        }
        var lt := licenseTypes[entry.typ];
        ids := IssueEntryLicenses(entry, ids, s0, entries[..i]);
        lt := lt.(issuedCount := lt.issuedCount + entry.count, activeCount := lt.activeCount + entry.count);
        licenseTypes := licenseTypes[entry.typ := lt];
        assert S() == IssueEntry(IssueAll(s0, entries[..i]), entry);
      }
      assert entries[..|entries|] == entries;
      err := None;
    }

    // The inner loop of one entry: one license after another, ids appended in order.
    method IssueEntryLicenses(entry: Entry, ids0: seq<uint64>, ghost s0: State, ghost done: seq<Entry>)
      returns (ids: seq<uint64>)
      requires TypesKnown(s0, done) && S() == IssueAll(s0, done)
      requires |ids0| == Total(done) && Consecutive(ids0, NextId(s0))
      modifies this
      ensures S() == IssueMany(old(S()), entry, entry.count)
      ensures |ids| == |ids0| + entry.count && Consecutive(ids, NextId(s0))
    {
      hide IssueAll, IssueOne;
      ghost var s1 := S();
      ids := ids0;
      for j := 0 to entry.count
        invariant S() == IssueMany(s1, entry, j)
        invariant |ids| == |ids0| + j && Consecutive(ids, NextId(s0))
      {
        NextIdWrapsAll(s0, done);
        NextIdWraps(s1, entry, j);
        ModSum(NextId(s0) + Total(done), j);
        var id := IssueLicense(entry);
        ids := ids + [id];
      }
    }

    // Validation up front, so a rejected genesis changes nothing; then the records in order,
    // the holder index for active licenses only.
    method InitGenesis(env: Env, data: Genesis.GenesisRecords) returns (ok: bool)
      modifies this
      ensures ok <==> Genesis.ValidGenesis(env, data)
      ensures S() == if ok then Genesis.Load(old(S()), data) else old(S())
    {
      ok := Genesis.Validate(env, data);
      if !ok {
        return;
      }
      LoadTypes(data.licenseTypes);
      nextLicenseID := Some(data.nextLicenseId);
      LoadLicenses(data.licenses);
    }

    method LoadTypes(lts: seq<TypeRecord>)
      modifies this
      ensures S() == Genesis.LoadTypes(old(S()), lts)
    {
      ghost var s0 := S();
      for i := 0 to |lts|
        invariant S() == Genesis.LoadTypes(s0, lts[..i])
      {
        assert lts[..i + 1][..i] == lts[..i];
        licenseTypes := licenseTypes[lts[i].id := lts[i]];
      }
      assert lts[..|lts|] == lts;
    }

    method LoadLicenses(ls: seq<LicenseRecord>)
      modifies this
      ensures S() == Genesis.LoadLicenses(old(S()), ls)
    {
      ghost var s0 := S();
      for i := 0 to |ls|
        invariant S() == Genesis.LoadLicenses(s0, ls[..i])
      {
        assert ls[..i + 1][..i] == ls[..i];
        var license := ls[i];
        licenses := licenses[license.id := license];
        // A revoked license is listed by type as well, but not under its holder.
        licensesByType := licensesByType + {(license.typ, license.id)};
        if license.status == ACTIVE {
          activeLicensesByHolder := activeLicensesByHolder + {(license.holder, license.typ, license.id)};
        }
      }
      assert ls[..|ls|] == ls;
    }

    // Two walks in key order and the next id.
    method ExportGenesis() returns (data: Genesis.GenesisRecords)
      ensures data == Genesis.Export(S())
    {
      var lts := WalkTypes();
      var ls := WalkLicenses();
      var nextID := if nextLicenseID.Some? then nextLicenseID.value else FIRST_LICENSE_ID;
      data := Genesis.GenesisRecords(lts, ls, nextID);
    }

    method WalkTypes() returns (lts: seq<TypeRecord>)
      ensures lts == Genesis.Export(S()).licenseTypes
    {
      StringOrders();
      var keys := Sort(StringLess, licenseTypes.Keys);
      hide Sorted, StrictTotal, StringLess;
      lts := [];
      for i := 0 to |keys|
        invariant |lts| == i && forall j :: 0 <= j < i ==> keys[j] in licenseTypes && lts[j] == licenseTypes[keys[j]]
      {
        assert keys[i] in keys;
        lts := lts + [licenseTypes[keys[i]]];
      }
    }

    method WalkLicenses() returns (ls: seq<LicenseRecord>)
      ensures ls == Genesis.Export(S()).licenses
    {
      var keys := Ascending(licenses.Keys);
      hide Sorted, Ascending;
      ls := [];
      for i := 0 to |keys|
        invariant |ls| == i && forall j :: 0 <= j < i ==> keys[j] in licenses && ls[j] == licenses[keys[j]]
      {
        assert keys[i] in keys;
        ls := ls + [licenses[keys[i]]];
      }
    }

    // testutil: the type is created on first use; its counters move in a local copy that is
    // stored when the loop is done.
    method SeedActiveLicenses(holder: string, t: string, count: uint64)
      modifies this
      ensures S() == Seed(old(S()), holder, t, count)
    {
      hide IssueOne;
      ghost var s0 := S();
      var lt := if t in licenseTypes then licenseTypes[t] else TypeRecord(t, false, 0, 0, 0, 0);
      ghost var lt0 := lt;
      var e := SeedEntry(holder, t, count);
      for i := 0 to count
        invariant S() == IssueMany(s0, e, i) && lt == Count(lt0, i)
      {
        var _ := IssueLicense(e);
        lt := lt.(issuedCount := lt.issuedCount + 1, activeCount := lt.activeCount + 1);
      }
      licenseTypes := licenseTypes[t := lt];
      LoopIgnores(s0, CreateType(s0, t, false, 0).types, e, count, count);
      assert s0.types[t := lt0][t := lt] == s0.types[t := lt];
    }

    // How many active licenses holder has across the given types; a non-zero stopAt ends
    // the walk as soon as the count reaches it.
    method CountActiveLicenses(holder: string, types: seq<string>, stopAt: uint64) returns (count: uint64)
      ensures stopAt == 0 ==> count == Wrap64(TotalHeld(S(), holder, types))
      ensures stopAt != 0 ==> count == Min(stopAt, TotalHeld(S(), holder, types))
    {
      hide Held, TotalHeld, Wrap64;
      Wrap64Small();
      NoneHeld(S(), holder, types[..0]);
      count := 0;
      for i := 0 to |types|
        invariant stopAt == 0 ==> count == Wrap64(TotalHeld(S(), holder, types[..i]))
        invariant stopAt != 0 ==> count == TotalHeld(S(), holder, types[..i]) < stopAt
      {
        TotalHeldGrows(S(), holder, types, i);
        ModSum(TotalHeld(S(), holder, types[..i]), |Held(S(), holder, types[i])|);
        count := CountHeld(holder, types[i], stopAt, count);
        if stopAt != 0 && count >= stopAt {
          return;
        }
      }
      assert types[..|types|] == types;
    }

    // The walk over one (holder, type) prefix.
    method CountHeld(h: string, t: string, stopAt: uint64, count0: uint64) returns (count: uint64)
      requires stopAt != 0 ==> count0 < stopAt
      ensures stopAt == 0 ==> count == Wrap64(count0 + |Held(S(), h, t)|)
      ensures stopAt != 0 ==> count == Min(stopAt, count0 + |Held(S(), h, t)|)
    {
      hide Held, Wrap64, Ascending, Sorted;
      Wrap64Small();
      var keys := Ascending(Held(S(), h, t));
      count := count0;
      for j := 0 to |keys|
        invariant stopAt == 0 ==> count == Wrap64(count0 + j)
        invariant stopAt != 0 ==> count == count0 + j < stopAt
      {
        ModSum(count0 + j, 1);
        count := Wrap64(count + 1);
        if stopAt != 0 && count >= stopAt {
          return;
        }
      }
    }

    // Revokes the newest count licenses of type t that h holds. A rejected message changes
    // nothing; a lookup that fails leaves the licenses before it revoked, for the runtime to
    // roll back.
    method RevokeLicenses(env: Env, revoker: string, t: string, h: string, count: uint64, revokedDate: string)
      returns (err: Option<MsgError>, ids: seq<uint64>)
      modifies this
      ensures err == RevokeError(old(S()), env, revoker, t, h, count)
      ensures err.Some? && err != Some(StoreNotFound) ==> S() == old(S())
      ensures err == Some(StoreNotFound) ==>
                && count <= |Held(old(S()), h, t)|
                && var revoked := StoredPrefix(old(S()), Newest(old(S()), h, t, count));
                   S() == Revoking(old(S()), h, t, SetOf(revoked), revokedDate)
      ensures err.None? ==>
                && t in old(S()).types
                && ids == Newest(old(S()), h, t, count)
                && S() == RevokeIds(old(S()), h, t, SetOf(ids), revokedDate)
    {
      hide Held, Newest, SetOf, Revoking, HasPermission, StoredPrefix;
      ids := [];
      ghost var s0 := S();
      if !HasPermission(env, revoker, PERMISSION_REVOKE, t) {
        return Some(Unauthorized), ids;
      }
      if count == 0 {
        return Some(InvalidCount), ids;
      }
      var activeIDs := WalkNewest(h, t, count);
      if |activeIDs| < count {
        return Some(LicenseNotFound), ids;
      }
      NewestCharacterised(S(), h, t, count);
      err, ids := RevokeActive(t, h, activeIDs, revokedDate);
      if err.Some? {
        return err, ids;
      }
      RevokingKeys(s0, h, t, SetOf(ids), revokedDate);
      if t !in licenseTypes {
        return Some(StoreNotFound), ids;
      }
      var lt := licenseTypes[t];
      lt := lt.(activeCount := lt.activeCount - count, revokedCount := lt.revokedCount + count);
      licenseTypes := licenseTypes[t := lt];
      return None, ids;
    }

    // The loop over the ids to revoke: each license flips its status, takes the date and
    // leaves the holder index, until one is missing.
    method RevokeActive(t: string, h: string, activeIDs: seq<uint64>, revokedDate: string)
      returns (err: Option<MsgError>, ids: seq<uint64>)
      requires forall i, j :: 0 <= i < j < |activeIDs| ==> activeIDs[i] > activeIDs[j]
      modifies this
      ensures ids == StoredPrefix(old(S()), activeIDs)
      ensures err == if ids == activeIDs then None else Some(StoreNotFound)
      ensures S() == Revoking(old(S()), h, t, SetOf(ids), revokedDate)
    {
      hide SetOf, Revoking, StoredPrefix;
      ghost var s0 := S();
      RevokedNothing(s0, h, t, revokedDate);
      ids := [];
      for i := 0 to |activeIDs|
        invariant ids == activeIDs[..i] && forall j :: 0 <= j < i ==> activeIDs[j] in s0.licenses
        invariant S() == Revoking(s0, h, t, SetOf(ids), revokedDate)
      {
        var id := activeIDs[i];
        RevokingKeys(s0, h, t, SetOf(ids), revokedDate);
        if id !in licenses {
          PrefixEnds(s0, activeIDs, i);
          return Some(StoreNotFound), ids;
        }
        RevokedOneMore(s0, h, t, ids, id, revokedDate);
        var license := licenses[id];
        license := license.(status := REVOKED, revokedDate := revokedDate);
        licenses := licenses[id := license];
        activeLicensesByHolder := activeLicensesByHolder - {(h, t, id)};
        ids := ids + [id];
      }
      PrefixEnds(s0, activeIDs, |activeIDs|);
      err := None;
    }

    // The reversed walk over the holder index, stopped as soon as there are count ids.
    method WalkNewest(h: string, t: string, count: uint64) returns (activeIDs: seq<uint64>)
      requires count > 0
      ensures |Held(S(), h, t)| < count ==> |activeIDs| == |Held(S(), h, t)|
      ensures count <= |Held(S(), h, t)| ==> activeIDs == Newest(S(), h, t, count)
    {
      var keys := Descending(Held(S(), h, t));
      activeIDs := [];
      for i := 0 to |keys|
        invariant activeIDs == keys[..i] && i < count
      {
        activeIDs := activeIDs + [keys[i]];
        if |activeIDs| >= count {
          return;
        }
      }
    }
  }

  // ---- Revoking undoes issuing ----

  // Revoking as many as were just issued takes exactly the licenses just issued, and gives
  // back the holder's active licenses and the type's supply.
  lemma RevokeUndoesIssue(s: State, e: Entry, date: string)
    requires Inv(s) && e.typ in s.types && NextId(s) + e.count < TWO_64
    ensures var s1 := IssueEntry(s, e);
            && e.count <= |Held(s1, e.holder, e.typ)|
            && var ids := SetOf(Newest(s1, e.holder, e.typ, e.count));
               var s2 := RevokeIds(s1, e.holder, e.typ, ids, date);
               && ids == FreshIds(NextId(s), e.count)
               && (forall h, t :: Held(s2, h, t) == Held(s, h, t))
               && (forall t :: t in s.types ==> s2.types[t].activeCount == s.types[t].activeCount)
  {
    hide Inv, Held, Newest, SetOf, IssueEntry, RevokeIds, FreshIds;
    var s1 := IssueEntry(s, e);
    var fresh_, old_ := FreshIds(NextId(s), e.count), Held(s, e.holder, e.typ);
    IssueEntryFrame(s, e);
    HeldBelowNext(s, e.holder, e.typ);
    assert |old_ + fresh_| == |old_| + |fresh_|;
    NewestCharacterised(s1, e.holder, e.typ, e.count);
    var ids := SetOf(Newest(s1, e.holder, e.typ, e.count));
    NewestInSet(s1, e.holder, e.typ, e.count);
    TopOfUnion(old_, fresh_, ids);
    SettledKeeps(s, e);
    RevokeFrame(s1, e.holder, e.typ, ids, date);
    assert old_ + fresh_ - fresh_ == old_;
    RevokeRestoresCount(s, e, ids, date);
  }

  lemma NewestInSet(s: State, h: string, t: string, count: nat)
    requires count <= |Held(s, h, t)|
    ensures forall id :: id in Newest(s, h, t, count) <==> id in SetOf(Newest(s, h, t, count))
  {
  }

  lemma SettledKeeps(s: State, e: Entry)
    requires Inv(s) && e.typ in s.types && NextId(s) + e.count < TWO_64
    ensures Inv(IssueEntry(s, e)) && e.typ in IssueEntry(s, e).types
  {
    hide Inv;
    IssueManyKeeps(s, e, e.count);
    assert IssueEntry(s, e) == Settled(s, e, e.count);
  }

  lemma RevokeRestoresCount(s: State, e: Entry, ids: set<uint64>, date: string)
    requires e.typ in s.types && |ids| == e.count
    ensures var s2 := RevokeIds(IssueEntry(s, e), e.holder, e.typ, ids, date);
            forall t :: t in s.types ==> t in s2.types && s2.types[t].activeCount == s.types[t].activeCount
  {
  }

  lemma TopOfUnion(old_: set<uint64>, fresh_: set<uint64>, top: set<uint64>)
    requires top <= old_ + fresh_ && |top| == |fresh_|
    requires forall x, y :: x in old_ && y in fresh_ ==> x < y
    requires forall kept, id :: kept in old_ + fresh_ - top && id in top ==> kept < id
    ensures top == fresh_
  {
    if x :| x in fresh_ && x !in top {
      forall y | y in top
        ensures y in fresh_ - {x}
      {
        assert x in old_ + fresh_ - top;
        assert x < y;
      }
      SubsetSize(top, fresh_ - {x});
    }
    SubsetSize(fresh_, top);
  }

  lemma HeldBelowNext(s: State, h: string, t: string)
    requires Inv(s)
    ensures forall id :: id in Held(s, h, t) ==> id < NextId(s)
  {
    HeldAreActive(s, h, t, Held(s, h, t));
  }

  lemma {:induction false} SubsetSize(a: set<uint64>, b: set<uint64>)
    requires a <= b
    ensures |a| <= |b| && (|a| == |b| ==> a == b)
  {
    if a != {} {
      var x :| x in a;
      SubsetSize(a - {x}, b - {x});
    }
  }

  lemma {:induction false} PrefixEnds(s: State, ids: seq<uint64>, i: nat)
    requires i <= |ids| && (forall j :: 0 <= j < i ==> ids[j] in s.licenses) && (i < |ids| ==> ids[i] !in s.licenses)
    ensures StoredPrefix(s, ids) == ids[..i]
  {
    if i > 0 {
      PrefixEnds(s, ids[1..], i - 1);
      assert ids[..i] == [ids[0]] + ids[1..][..i - 1];
    }
  }

  // In a state that satisfies the invariant no lookup fails.
  lemma RevokeFindsAll(s: State, env: Env, revoker: string, t: string, h: string, count: uint64)
    requires Inv(s)
    ensures RevokeError(s, env, revoker, t, h, count) != Some(StoreNotFound)
  {
    hide Held, Newest, CountersOk;
    if 0 < count <= |Held(s, h, t)| {
      var ids := Newest(s, h, t, count);
      NewestCharacterised(s, h, t, count);
      HeldAreActive(s, h, t, SetOf(ids));
      assert forall i :: 0 <= i < |ids| ==> ids[i] in SetOf(ids);
      PrefixEnds(s, ids, |ids|);
      assert ids[0] in s.licenses;
    }
  }

  lemma RevokingKeys(s: State, h: string, t: string, ids: set<uint64>, date: string)
    ensures Revoking(s, h, t, ids, date).licenses.Keys == s.licenses.Keys
    ensures Revoking(s, h, t, ids, date).types == s.types
  {
  }

  lemma RevokedNothing(s: State, h: string, t: string, date: string)
    ensures Revoking(s, h, t, SetOf([]), date) == s
  {
    assert SetOf([]) == {};
    assert Revoking(s, h, t, {}, date).licenses == s.licenses;
  }

  lemma RevokedOneMore(s: State, h: string, t: string, ids: seq<uint64>, id: uint64, date: string)
    requires id in s.licenses && id !in ids
    ensures id in Revoking(s, h, t, SetOf(ids), date).licenses
    ensures var s1 := Revoking(s, h, t, SetOf(ids), date);
            Revoking(s, h, t, SetOf(ids + [id]), date)
            == s1.(licenses := s1.licenses[id := s1.licenses[id].(status := REVOKED, revokedDate := date)],
                   byHolder := s1.byHolder - {(h, t, id)})
  {
    var s1, s2 := Revoking(s, h, t, SetOf(ids), date), Revoking(s, h, t, SetOf(ids + [id]), date);
    assert SetOf(ids + [id]) == SetOf(ids) + {id};
    assert s2.licenses == s1.licenses[id := s1.licenses[id].(status := REVOKED, revokedDate := date)];
    assert s2.byHolder == s1.byHolder - {(h, t, id)};
  }
}
