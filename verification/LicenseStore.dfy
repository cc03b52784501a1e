// The state of x/license: the primary map, two index sets, per-type counters and the id
// sequence, with what each operation does to it.
module LicenseStore {
  import opened GoInts
  import opened Results
  import opened Dates

  const ACTIVE: int32 := 1
  const REVOKED: int32 := 2
  const FIRST_LICENSE_ID: uint64 := 1

  datatype LicenseRecord = LicenseRecord(
    id: uint64, typ: string, holder: string, startDate: string, endDate: string,
    status: int32, revokedDate: string)

  datatype TypeRecord = TypeRecord(
    id: string, transferrable: bool, maxSupply: int,
    issuedCount: int, activeCount: int, revokedCount: int)

  datatype State = State(
    types: map<string, TypeRecord>,
    licenses: map<uint64, LicenseRecord>,
    nextId: Option<uint64>,
    byType: set<(string, uint64)>,
    byHolder: set<(string, string, uint64)>)

  const EMPTY := State(map[], map[], None, {}, {})

  // What one issuance asks for.
  datatype Entry = Entry(typ: string, holder: string, startDate: string, endDate: string, count: uint64)

  // The view of x/permission and of bech32 that the handlers consult.
  datatype Env = Env(
    validAddress: string -> bool,
    grants: set<(string, string, string)>,  // (grantee, permission, scope)
    owner: string)

  // ---- Reading the state ----

  function NextId(s: State): uint64 {
    match s.nextId
    case Some(id) => id
    case None => FIRST_LICENSE_ID
  }

  // The ids of the licenses of type t in a given status.
  function WithStatus(s: State, t: string, status: int32): set<uint64> {
    set id | id in s.licenses && s.licenses[id].typ == t && s.licenses[id].status == status
  }

  // The ids that the holder index lists for (h, t).
  function Held(s: State, h: string, t: string): set<uint64> {
    set k | k in s.byHolder && k.0 == h && k.1 == t :: k.2
  }

  // ---- The invariant ----

  ghost predicate LicensesOk(s: State) {
    forall id :: id in s.licenses ==>
      var l := s.licenses[id];
      l.id == id && id < NextId(s) && l.typ in s.types && (l.status == ACTIVE || l.status == REVOKED)
  }

  ghost predicate IndexesOk(s: State) {
    && (forall t, id :: (t, id) in s.byType <==> id in s.licenses && s.licenses[id].typ == t)
    && (forall h, t, id :: (h, t, id) in s.byHolder <==>
          id in s.licenses && s.licenses[id].status == ACTIVE &&
          s.licenses[id].holder == h && s.licenses[id].typ == t)
  }

  ghost predicate CountersOk(s: State) {
    forall t :: t in s.types ==> CounterOk(s, t)
  }

  ghost predicate CounterOk(s: State, t: string)
    requires t in s.types
  {
    var lt := s.types[t];
    && lt.id == t
    && lt.activeCount == |WithStatus(s, t, ACTIVE)|
    && lt.revokedCount == |WithStatus(s, t, REVOKED)|
    && lt.issuedCount == lt.activeCount + lt.revokedCount
  }

  // The indexes list exactly the licenses they should, the counters count them, and the
  // next id is at least 1 and above every stored id.
  ghost predicate Inv(s: State) {
    NextId(s) >= 1 && LicensesOk(s) && IndexesOk(s) && CountersOk(s)
  }

  // No license is stored under id 0, which is documented as never valid.
  ghost predicate PositiveIds(s: State) {
    0 !in s.licenses
  }

  // What genesis validation asks of each record on top of the invariant.
  ghost predicate Formatted(env: Env, s: State) {
    && (forall t :: t in s.types ==> s.types[t].maxSupply >= 0)
    && (forall id :: id in s.licenses ==> FormattedLicense(env, s.licenses[id]))
  }

  ghost predicate FormattedLicense(env: Env, l: LicenseRecord) {
    && env.validAddress(l.holder)
    && ValidDates(l.startDate, l.endDate)
    && (l.status == ACTIVE ==> l.revokedDate == "")
    && (l.status == REVOKED ==> ValidDate(l.revokedDate))
  }

  // A cap of zero is none; otherwise a type has no more active licenses than its cap.
  ghost predicate CapHolds(s: State, t: string) {
    t in s.types && (s.types[t].maxSupply == 0 || s.types[t].activeCount <= s.types[t].maxSupply)
  }

  ghost predicate Capped(s: State) {
    forall t :: t in s.types ==> CapHolds(s, t)
  }

  // ---- Issuing ----

  function NewLicense(e: Entry, id: uint64): LicenseRecord {
    LicenseRecord(id, e.typ, e.holder, e.startDate, e.endDate, ACTIVE, "")
  }

  // One turn of an issuing loop. The counters are not touched here; the id wraps at 2^64.
  function IssueOne(s: State, e: Entry): State {
    var id := NextId(s);
    s.(nextId := Some((id + 1) % TWO_64),
       licenses := s.licenses[id := NewLicense(e, id)],
       byType := s.byType + {(e.typ, id)},
       byHolder := s.byHolder + {(e.holder, e.typ, id)})
  }

  function IssueMany(s: State, e: Entry, n: nat): (r: State)
    ensures r.types == s.types
  {
    if n == 0 then s else IssueOne(IssueMany(s, e, n - 1), e)
  }

  // The counters brought up to date after n issuances.
  function Count(lt: TypeRecord, n: int): TypeRecord {
    lt.(issuedCount := lt.issuedCount + n, activeCount := lt.activeCount + n)
  }

  function IssueEntry(s: State, e: Entry): State
    requires e.typ in s.types
  {
    IssueMany(s, e, e.count).(types := s.types[e.typ := Count(s.types[e.typ], e.count)])
  }

  ghost predicate TypesKnown(s: State, es: seq<Entry>) {
    forall i :: 0 <= i < |es| ==> es[i].typ in s.types
  }

  function IssueAll(s: State, es: seq<Entry>): (r: State)
    requires TypesKnown(s, es)
    ensures r.types.Keys == s.types.Keys
  {
    if |es| == 0 then s
    else IssueEntry(IssueAll(s, es[..|es| - 1]), es[|es| - 1])
  }

  // How many licenses of type t the entries ask for, and how many in all.
  function Requested(es: seq<Entry>, t: string): nat {
    if |es| == 0 then 0
    else Requested(es[..|es| - 1], t) + (if es[|es| - 1].typ == t then es[|es| - 1].count else 0)
  }

  function Total(es: seq<Entry>): nat {
    if |es| == 0 then 0 else Total(es[..|es| - 1]) + es[|es| - 1].count
  }

  // ---- Revoking ----

  function RevokeLicense(l: LicenseRecord, date: string): LicenseRecord {
    l.(status := REVOKED, revokedDate := date)
  }

  // The given licenses revoked and off the holder index; the counters are stored last.
  function Revoking(s: State, h: string, t: string, ids: set<uint64>, date: string): State {
    s.(licenses := (map id | id in s.licenses ::
         if id in ids then RevokeLicense(s.licenses[id], date) else s.licenses[id]),
       byHolder := (set k | k in s.byHolder && !(k.0 == h && k.1 == t && k.2 in ids)))
  }

  function RevokeIds(s: State, h: string, t: string, ids: set<uint64>, date: string): State
    requires t in s.types
  {
    var n := |ids|;
    var lt := s.types[t];
    Revoking(s, h, t, ids, date).(
      types := s.types[t := lt.(activeCount := lt.activeCount - n, revokedCount := lt.revokedCount + n)])
  }

  // ---- License types ----

  function NewType(id: string, transferrable: bool, maxSupply: int): TypeRecord {
    TypeRecord(id, transferrable, maxSupply, 0, 0, 0)
  }

  function CreateType(s: State, id: string, transferrable: bool, maxSupply: int): State {
    s.(types := s.types[id := NewType(id, transferrable, maxSupply)])
  }

  function UpdateType(s: State, id: string, transferrable: bool): State
    requires id in s.types
  {
    s.(types := s.types[id := s.types[id].(transferrable := transferrable)])
  }

  // SeedActiveLicenses: create the type on first use, then issue.
  function SeedEntry(holder: string, t: string, count: uint64): Entry {
    Entry(t, holder, "2025-01-01", "", count)
  }

  function Seed(s: State, holder: string, t: string, count: uint64): State {
    var s0 := if t in s.types then s else CreateType(s, t, false, 0);
    IssueEntry(s0, SeedEntry(holder, t, count))
  }
}
