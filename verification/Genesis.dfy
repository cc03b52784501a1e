// Genesis of x/license: validation, import and export.
module Genesis {
  import opened GoInts
  import opened Results
  import opened Dates
  import opened Order
  import opened LicenseStore
  import opened StoreLaws
  import opened Queries

  datatype GenesisRecords = GenesisRecords(
    licenseTypes: seq<TypeRecord>, licenses: seq<LicenseRecord>, nextLicenseId: uint64)

  // ---- What a valid genesis is ----

  function Tally(ls: seq<LicenseRecord>, t: string, status: int32): nat {
    if |ls| == 0 then 0
    else Tally(ls[..|ls| - 1], t, status) +
         (if ls[|ls| - 1].typ == t && ls[|ls| - 1].status == status then 1 else 0)
  }

  ghost predicate DistinctTypes(lts: seq<TypeRecord>) {
    forall i, j :: 0 <= i < j < |lts| ==> lts[i].id != lts[j].id
  }

  ghost predicate DistinctLicenses(ls: seq<LicenseRecord>) {
    forall i, j :: 0 <= i < j < |ls| ==> ls[i].id != ls[j].id
  }

  ghost predicate ValidLicense(env: Env, lts: seq<TypeRecord>, l: LicenseRecord) {
    && (exists j :: 0 <= j < |lts| && lts[j].id == l.typ)
    && (l.status == ACTIVE || l.status == REVOKED)
    && FormattedLicense(env, l)
  }

  ghost predicate ValidType(ls: seq<LicenseRecord>, lt: TypeRecord) {
    && lt.maxSupply >= 0
    && lt.activeCount == Tally(ls, lt.id, ACTIVE)
    && lt.revokedCount == Tally(ls, lt.id, REVOKED)
    && lt.issuedCount == lt.activeCount + lt.revokedCount
  }

  ghost predicate ValidGenesis(env: Env, g: GenesisRecords) {
    && DistinctTypes(g.licenseTypes)
    && DistinctLicenses(g.licenses)
    && (forall i :: 0 <= i < |g.licenses| ==> ValidLicense(env, g.licenseTypes, g.licenses[i]))
    && (forall i :: 0 <= i < |g.licenseTypes| ==> ValidType(g.licenses, g.licenseTypes[i]))
    && g.nextLicenseId >= FIRST_LICENSE_ID
    && (forall i :: 0 <= i < |g.licenses| ==> g.licenses[i].id < g.nextLicenseId)
  }

  // A license is accepted exactly when its type is listed, it is active without a revoked date
  // or revoked with one on the calendar, its holder is an address, and its dates are in order.
  lemma LicenseAccepted(env: Env, lts: seq<TypeRecord>, l: LicenseRecord)
    ensures ValidLicense(env, lts, l) <==>
            && (exists j :: 0 <= j < |lts| && lts[j].id == l.typ)
            && ((l.status == 1 && l.revokedDate == "") || (l.status == 2 && CalendarDate(l.revokedDate)))
            && env.validAddress(l.holder)
            && CalendarDate(l.startDate)
            && (l.endDate == "" || (CalendarDate(l.endDate) && ValidDates(l.startDate, l.endDate)))
  {
    hide ValidDate, CalendarDate;
    CalendarExactly(l.startDate);
    CalendarExactly(l.endDate);
    CalendarExactly(l.revokedDate);
  }

  // ---- Import ----

  function LoadType(s: State, lt: TypeRecord): State {
    s.(types := s.types[lt.id := lt])
  }

  function LoadLicense(s: State, l: LicenseRecord): State {
    s.(licenses := s.licenses[l.id := l],
       byType := s.byType + {(l.typ, l.id)},
       byHolder := if l.status == ACTIVE then s.byHolder + {(l.holder, l.typ, l.id)} else s.byHolder)
  }

  function LoadTypes(s: State, lts: seq<TypeRecord>): (r: State)
    ensures r == s.(types := r.types)
  {
    if |lts| == 0 then s else LoadType(LoadTypes(s, lts[..|lts| - 1]), lts[|lts| - 1])
  }

  function LoadLicenses(s: State, ls: seq<LicenseRecord>): (r: State)
    ensures r.types == s.types && r.nextId == s.nextId
  {
    if |ls| == 0 then s else LoadLicense(LoadLicenses(s, ls[..|ls| - 1]), ls[|ls| - 1])
  }

  function Load(s: State, g: GenesisRecords): State {
    LoadLicenses(LoadTypes(s, g.licenseTypes).(nextId := Some(g.nextLicenseId)), g.licenses)
  }

  // ---- Export: license types in id order, licenses in ascending id order ----

  function TypesInOrder(s: State, ids: seq<string>): (r: seq<TypeRecord>)
    requires forall t :: t in ids ==> t in s.types
    ensures |r| == |ids| && forall j :: 0 <= j < |r| ==> r[j] == s.types[ids[j]]
  {
    seq(|ids|, j requires 0 <= j < |ids| => s.types[ids[j]])
  }

  function Export(s: State): GenesisRecords {
    StringOrders();
    GenesisRecords(TypesInOrder(s, Sort(StringLess, s.types.Keys)), Licenses(s), NextId(s))
  }

  // ---- Validation, pass by pass ----

  method ValidateTypes(lts: seq<TypeRecord>) returns (ok: bool, typeIDs: set<string>)
    ensures ok ==> DistinctTypes(lts) && forall i :: 0 <= i < |lts| ==> lts[i].maxSupply >= 0
    ensures ok ==> forall t :: t in typeIDs <==> exists j :: 0 <= j < |lts| && lts[j].id == t
    ensures !ok ==> !DistinctTypes(lts) || exists i :: 0 <= i < |lts| && Negative(lts[i])
  {
    typeIDs := {};
    for i := 0 to |lts|
      invariant DistinctTypes(lts[..i]) && forall j :: 0 <= j < i ==> lts[j].maxSupply >= 0
      invariant forall t :: t in typeIDs <==> exists j :: 0 <= j < i && lts[j].id == t
    {
      var lt := lts[i];
      if lt.id in typeIDs {
        return false, typeIDs;
      }
      typeIDs := typeIDs + {lt.id};
      if lt.maxSupply < 0 || lt.issuedCount < 0 || lt.activeCount < 0 || lt.revokedCount < 0 {
        assert Negative(lts[i]);
        return false, typeIDs;
      }
    }
    assert lts[..|lts|] == lts;
    ok := true;
  }

  ghost predicate Negative(lt: TypeRecord) {
    lt.maxSupply < 0 || lt.issuedCount < 0 || lt.activeCount < 0 || lt.revokedCount < 0
  }

  // Pass 1: ids are unique across all types.
  method ValidateIds(ls: seq<LicenseRecord>) returns (ok: bool)
    ensures ok <==> DistinctLicenses(ls)
  {
    var licenseIDs: set<uint64> := {};
    for i := 0 to |ls|
      invariant DistinctLicenses(ls[..i])
      invariant forall id :: id in licenseIDs <==> exists j :: 0 <= j < i && ls[j].id == id
    {
      if ls[i].id in licenseIDs {
        return false;
      }
      licenseIDs := licenseIDs + {ls[i].id};
    }
    assert ls[..|ls|] == ls;
    ok := true;
  }

  function Lookup(m: map<string, nat>, t: string): nat {
    if t in m then m[t] else 0
  }

  // Pass 2: each license on its own, the per-type tallies and the highest id.
  method ValidateLicenses(env: Env, ls: seq<LicenseRecord>, typeIDs: set<string>)
    returns (ok: bool, activeByType: map<string, nat>, revokedByType: map<string, nat>, maxID: uint64)
    ensures ok <==> forall i :: 0 <= i < |ls| ==> LicenseOk(env, typeIDs, ls[i])
    ensures ok ==> forall t :: Lookup(activeByType, t) == Tally(ls, t, ACTIVE)
    ensures ok ==> forall t :: Lookup(revokedByType, t) == Tally(ls, t, REVOKED)
    ensures ok ==> forall i :: 0 <= i < |ls| ==> ls[i].id <= maxID
    ensures ok && maxID > 0 ==> exists i :: 0 <= i < |ls| && ls[i].id == maxID
  {
    hide ValidDate, ValidDates;
    EmptyTally(ls);
    activeByType, revokedByType, maxID := map[], map[], 0;
    for i := 0 to |ls|
      invariant forall j :: 0 <= j < i ==> LicenseOk(env, typeIDs, ls[j])
      invariant forall t :: Lookup(activeByType, t) == Tally(ls[..i], t, ACTIVE)
      invariant forall t :: Lookup(revokedByType, t) == Tally(ls[..i], t, REVOKED)
      invariant forall j :: 0 <= j < i ==> ls[j].id <= maxID
      invariant maxID > 0 ==> exists j :: 0 <= j < i && ls[j].id == maxID
    {
      var l := ls[i];
      assert ls[..i + 1][..i] == ls[..i];
      if l.typ !in typeIDs {
        return false, activeByType, revokedByType, maxID;
      }
      if l.status == ACTIVE {
        activeByType := activeByType[l.typ := Lookup(activeByType, l.typ) + 1];
        if l.revokedDate != "" {
          return false, activeByType, revokedByType, maxID;
        }
      } else if l.status == REVOKED {
        revokedByType := revokedByType[l.typ := Lookup(revokedByType, l.typ) + 1];
        if l.revokedDate == "" {
          return false, activeByType, revokedByType, maxID;
        }
        if !ValidDate(l.revokedDate) {
          return false, activeByType, revokedByType, maxID;
        }
      } else {
        return false, activeByType, revokedByType, maxID;
      }
      if l.id > maxID {
        maxID := l.id;
      }
      if !env.validAddress(l.holder) {
        return false, activeByType, revokedByType, maxID;
      }
      if !ValidDates(l.startDate, l.endDate) {
        return false, activeByType, revokedByType, maxID;
      }
    }
    assert ls[..|ls|] == ls;
    ok := true;
  }

  lemma EmptyTally(ls: seq<LicenseRecord>)
    ensures forall t, status :: Tally(ls[..0], t, status) == 0
    ensures !ValidDate("")
  {
  }

  ghost predicate LicenseOk(env: Env, typeIDs: set<string>, l: LicenseRecord) {
    l.typ in typeIDs && (l.status == ACTIVE || l.status == REVOKED) && FormattedLicense(env, l)
  }

  // Pass 3: the counters of each type against the tallies.
  method ValidateCounters(lts: seq<TypeRecord>, active: map<string, nat>, revoked: map<string, nat>) returns (ok: bool)
    ensures ok <==> forall i :: 0 <= i < |lts| ==>
              && lts[i].activeCount == Lookup(active, lts[i].id)
              && lts[i].revokedCount == Lookup(revoked, lts[i].id)
              && lts[i].issuedCount == Lookup(active, lts[i].id) + Lookup(revoked, lts[i].id)
  {
    for i := 0 to |lts|
      invariant forall j :: 0 <= j < i ==>
                  && lts[j].activeCount == Lookup(active, lts[j].id)
                  && lts[j].revokedCount == Lookup(revoked, lts[j].id)
                  && lts[j].issuedCount == Lookup(active, lts[j].id) + Lookup(revoked, lts[j].id)
    {
      var lt := lts[i];
      var wantActive, wantRevoked := Lookup(active, lt.id), Lookup(revoked, lt.id);
      var wantIssued := wantActive + wantRevoked;
      if lt.activeCount != wantActive {
        return false;
      }
      if lt.revokedCount != wantRevoked {
        return false;
      }
      if lt.issuedCount != wantIssued {
        return false;
      }
    }
    ok := true;
  }

  // GenesisState.Validate accepts exactly the valid genesis states.
  method Validate(env: Env, g: GenesisRecords) returns (ok: bool)
    ensures ok <==> ValidGenesis(env, g)
  {
    hide FormattedLicense, Tally, DistinctTypes, DistinctLicenses;
    var typeIDs, active, revoked, maxID;
    ok, typeIDs := ValidateTypes(g.licenseTypes);
    if !ok {
      return;
    }
    ok := ValidateIds(g.licenses);
    if !ok {
      return;
    }
    ok, active, revoked, maxID := ValidateLicenses(env, g.licenses, typeIDs);
    assert forall i :: 0 <= i < |g.licenses| ==>
        (LicenseOk(env, typeIDs, g.licenses[i]) <==> ValidLicense(env, g.licenseTypes, g.licenses[i]));
    if !ok {
      return;
    }
    ok := ValidateCounters(g.licenseTypes, active, revoked);
    if !ok {
      return;
    }
    assert forall i :: 0 <= i < |g.licenseTypes| ==> ValidType(g.licenses, g.licenseTypes[i]);
    ok := g.nextLicenseId >= FIRST_LICENSE_ID && g.nextLicenseId > maxID;
  }

  // ---- Import establishes the invariant ----

  function LicenseIds(ls: seq<LicenseRecord>): set<uint64> {
    if |ls| == 0 then {} else LicenseIds(ls[..|ls| - 1]) + {ls[|ls| - 1].id}
  }

  lemma {:induction false} LicenseIdsMembers(ls: seq<LicenseRecord>)
    ensures forall id :: id in LicenseIds(ls) <==> exists i :: 0 <= i < |ls| && ls[i].id == id
  {
    if |ls| > 0 {
      LicenseIdsMembers(ls[..|ls| - 1]);
      assert forall i :: 0 <= i < |ls| - 1 ==> ls[..|ls| - 1][i] == ls[i];
    }
  }

  lemma {:induction false} LoadedLicenses(s: State, ls: seq<LicenseRecord>)
    requires DistinctLicenses(ls)
    ensures LoadLicenses(s, ls).licenses.Keys == s.licenses.Keys + LicenseIds(ls)
    ensures forall i :: 0 <= i < |ls| ==>
              ls[i].id in LicenseIds(ls) && LoadLicenses(s, ls).licenses[ls[i].id] == ls[i]
  {
    if |ls| > 0 {
      var init := ls[..|ls| - 1];
      LoadedLicenses(s, init);
      forall i | 0 <= i < |ls|
        ensures ls[i].id in LicenseIds(ls) && LoadLicenses(s, ls).licenses[ls[i].id] == ls[i]
      {
        if i < |init| {
          assert init[i] == ls[i];
        }
      }
    }
  }

  lemma LoadIndexes(s: State, l: LicenseRecord)
    requires IndexesOk(s) && l.id !in s.licenses
    ensures IndexesOk(LoadLicense(s, l))
  {
    var s' := LoadLicense(s, l);
    forall t, i
      ensures (t, i) in s'.byType <==> i in s'.licenses && s'.licenses[i].typ == t
    {
      assert i != l.id ==> ((t, i) in s'.byType <==> (t, i) in s.byType);
      assert (t, l.id) !in s.byType;
    }
    forall h, t, i
      ensures (h, t, i) in s'.byHolder <==>
              i in s'.licenses && s'.licenses[i].status == ACTIVE && s'.licenses[i].holder == h && s'.licenses[i].typ == t
    {
      assert i != l.id ==> ((h, t, i) in s'.byHolder <==> (h, t, i) in s.byHolder);
      assert (h, t, l.id) !in s.byHolder;
    }
  }

  lemma LoadStatuses(s: State, l: LicenseRecord, t: string, status: int32)
    requires l.id !in s.licenses
    ensures WithStatus(LoadLicense(s, l), t, status)
            == WithStatus(s, t, status) + (if l.typ == t && l.status == status then {l.id} else {})
    ensures l.id !in WithStatus(s, t, status)
  {
  }

  lemma {:induction false} LoadedIndexesAndCounts(s: State, ls: seq<LicenseRecord>)
    requires s.licenses == map[] && IndexesOk(s) && DistinctLicenses(ls)
    ensures IndexesOk(LoadLicenses(s, ls))
    ensures forall t, status :: |WithStatus(LoadLicenses(s, ls), t, status)| == Tally(ls, t, status)
  {
    hide IndexesOk;
    if |ls| > 0 {
      var init, l := ls[..|ls| - 1], ls[|ls| - 1];
      LoadedIndexesAndCounts(s, init);
      LoadedLicenses(s, init);
      var s1 := LoadLicenses(s, init);
      LicenseIdsMembers(init);
      assert forall i :: 0 <= i < |init| ==> init[i] == ls[i];
      assert l.id !in s1.licenses;
      LoadIndexes(s1, l);
      forall t, status
        ensures |WithStatus(LoadLicenses(s, ls), t, status)| == Tally(ls, t, status)
      {
        LoadStatuses(s1, l, t, status);
      }
    }
  }

  function TypeIdsOf(lts: seq<TypeRecord>): set<string> {
    if |lts| == 0 then {} else TypeIdsOf(lts[..|lts| - 1]) + {lts[|lts| - 1].id}
  }

  lemma {:induction false} TypeIdsMembers(lts: seq<TypeRecord>)
    ensures forall t :: t in TypeIdsOf(lts) <==> exists i :: 0 <= i < |lts| && lts[i].id == t
  {
    if |lts| > 0 {
      TypeIdsMembers(lts[..|lts| - 1]);
      assert forall i :: 0 <= i < |lts| - 1 ==> lts[..|lts| - 1][i] == lts[i];
    }
  }

  lemma {:induction false} LoadedTypes(s: State, lts: seq<TypeRecord>)
    requires DistinctTypes(lts)
    ensures LoadTypes(s, lts).types.Keys == s.types.Keys + TypeIdsOf(lts)
    ensures forall i :: 0 <= i < |lts| ==>
              lts[i].id in TypeIdsOf(lts) && LoadTypes(s, lts).types[lts[i].id] == lts[i]
  {
    if |lts| > 0 {
      var init := lts[..|lts| - 1];
      LoadedTypes(s, init);
      forall i | 0 <= i < |lts|
        ensures lts[i].id in TypeIdsOf(lts) && LoadTypes(s, lts).types[lts[i].id] == lts[i]
      {
        if i < |init| {
          assert init[i] == lts[i];
        }
      }
    }
  }

  // Importing a valid genesis into an empty store establishes the invariant.
  lemma ImportEstablishes(env: Env, g: GenesisRecords)
    requires ValidGenesis(env, g)
    ensures Inv(Load(EMPTY, g)) && Formatted(env, Load(EMPTY, g))
  {
    hide FormattedLicense, ValidLicense, ValidType, LoadTypes, LoadLicenses, IndexesOk;
    var s := Load(EMPTY, g);
    ImportedShape(env, g);
    assert forall id :: id in s.licenses ==> ImportedLicense(env, g, id);
    assert forall t :: t in s.types ==> ImportedType(env, g, t);
  }

  ghost predicate ImportedLicense(env: Env, g: GenesisRecords, id: uint64) {
    var s := Load(EMPTY, g);
    id in s.licenses &&
    var l := s.licenses[id];
    l.id == id && id < g.nextLicenseId && l.typ in s.types && (l.status == ACTIVE || l.status == REVOKED) &&
    FormattedLicense(env, l)
  }

  ghost predicate ImportedType(env: Env, g: GenesisRecords, t: string) {
    var s := Load(EMPTY, g);
    t in s.types && CounterOk(s, t) && s.types[t].maxSupply >= 0
  }

  lemma ImportedLicenses(env: Env, g: GenesisRecords)
    requires ValidGenesis(env, g)
    requires Load(EMPTY, g).licenses.Keys == LicenseIds(g.licenses)
    requires Load(EMPTY, g).types.Keys == TypeIdsOf(g.licenseTypes)
    requires forall i :: 0 <= i < |g.licenses| ==>
               g.licenses[i].id in LicenseIds(g.licenses) && Load(EMPTY, g).licenses[g.licenses[i].id] == g.licenses[i]
    ensures forall id :: id in Load(EMPTY, g).licenses ==> ImportedLicense(env, g, id)
  {
    hide FormattedLicense, Load, DistinctTypes, DistinctLicenses, ValidType;
    LicenseIdsMembers(g.licenses);
    TypeIdsMembers(g.licenseTypes);
    forall id | id in Load(EMPTY, g).licenses
      ensures ImportedLicense(env, g, id)
    {
      var i :| 0 <= i < |g.licenses| && g.licenses[i].id == id;
      assert ValidLicense(env, g.licenseTypes, g.licenses[i]);
    }
  }

  lemma ImportedTypes(env: Env, g: GenesisRecords)
    requires ValidGenesis(env, g)
    requires Load(EMPTY, g).types.Keys == TypeIdsOf(g.licenseTypes)
    requires forall i :: 0 <= i < |g.licenseTypes| ==>
               && g.licenseTypes[i].id in TypeIdsOf(g.licenseTypes)
               && Load(EMPTY, g).types[g.licenseTypes[i].id] == g.licenseTypes[i]
    requires forall t, status :: |WithStatus(Load(EMPTY, g), t, status)| == Tally(g.licenses, t, status)
    ensures forall t :: t in Load(EMPTY, g).types ==> ImportedType(env, g, t)
  {
    hide Tally, WithStatus, Load, DistinctTypes, DistinctLicenses, ValidLicense;
    TypeIdsMembers(g.licenseTypes);
    forall t | t in Load(EMPTY, g).types
      ensures ImportedType(env, g, t)
    {
      var i :| 0 <= i < |g.licenseTypes| && g.licenseTypes[i].id == t;
      assert ValidType(g.licenses, g.licenseTypes[i]);
    }
  }

  lemma ImportedShape(env: Env, g: GenesisRecords)
    requires ValidGenesis(env, g)
    ensures var s := Load(EMPTY, g);
            && s.nextId == Some(g.nextLicenseId) && IndexesOk(s)
            && s.licenses.Keys == LicenseIds(g.licenses) && s.types.Keys == TypeIdsOf(g.licenseTypes)
            && (forall id :: id in s.licenses ==> ImportedLicense(env, g, id))
            && (forall t :: t in s.types ==> ImportedType(env, g, t))
  {
    hide Tally, WithStatus, LoadTypes, LoadLicenses, IndexesOk, DistinctTypes, DistinctLicenses;
    hide ValidLicense, ValidType, ImportedLicense, ImportedType;
    var s0 := LoadTypes(EMPTY, g.licenseTypes).(nextId := Some(g.nextLicenseId));
    LoadedTypes(EMPTY, g.licenseTypes);
    LoadedLicenses(s0, g.licenses);
    EmptyIndexes(s0);
    LoadedIndexesAndCounts(s0, g.licenses);
    ImportedLicenses(env, g);
    ImportedTypes(env, g);
  }

  lemma EmptyIndexes(s: State)
    requires s.licenses == map[] && s.byType == {} && s.byHolder == {}
    ensures IndexesOk(s)
  {
  }

  // Validation does not look for id 0, and does not look at the caps.
  lemma ImportPositive(env: Env, g: GenesisRecords)
    requires ValidGenesis(env, g)
    ensures PositiveIds(Load(EMPTY, g)) <==> forall i :: 0 <= i < |g.licenses| ==> g.licenses[i].id != 0
  {
    ImportedShape(env, g);
    LicenseIdsMembers(g.licenses);
  }

  lemma ImportCapped(env: Env, g: GenesisRecords)
    requires ValidGenesis(env, g)
    ensures Capped(Load(EMPTY, g)) <==>
            forall i :: 0 <= i < |g.licenseTypes| ==>
              g.licenseTypes[i].maxSupply == 0 || g.licenseTypes[i].activeCount <= g.licenseTypes[i].maxSupply
  {
    LoadedTypes(EMPTY, g.licenseTypes);
    TypeIdsMembers(g.licenseTypes);
    var s := Load(EMPTY, g);
    forall i | 0 <= i < |g.licenseTypes|
      ensures g.licenseTypes[i].id in s.types && s.types[g.licenseTypes[i].id] == g.licenseTypes[i]
    {
    }
  }

  // A genesis with a license under id 0 passes validation, although 0 is documented as never
  // a valid license id.
  lemma ZeroIdAccepted(env: Env, holder: string)
    requires env.validAddress(holder)
    ensures var l := LicenseRecord(0, "t", holder, "2026-01-01", "", ACTIVE, "");
            var g := GenesisRecords([TypeRecord("t", false, 0, 1, 1, 0)], [l], 1);
            ValidGenesis(env, g) && !PositiveIds(Load(EMPTY, g))
  {
    var l := LicenseRecord(0, "t", holder, "2026-01-01", "", ACTIVE, "");
    var g := GenesisRecords([TypeRecord("t", false, 0, 1, 1, 0)], [l], 1);
    SampleDate();
    OneTally(l);
    assert g.licenseTypes[0].id == l.typ;
    ImportPositive(env, g);
    assert g.licenses[0].id == 0;
  }

  // A genesis with two active licenses of a type capped at one passes validation.
  lemma ExceededCapAccepted(env: Env, holder: string)
    requires env.validAddress(holder)
    ensures var l1 := LicenseRecord(1, "t", holder, "2026-01-01", "", ACTIVE, "");
            var g := GenesisRecords([TypeRecord("t", false, 1, 2, 2, 0)], [l1, l1.(id := 2)], 3);
            ValidGenesis(env, g) && !Capped(Load(EMPTY, g))
  {
    var l1 := LicenseRecord(1, "t", holder, "2026-01-01", "", ACTIVE, "");
    var g := GenesisRecords([TypeRecord("t", false, 1, 2, 2, 0)], [l1, l1.(id := 2)], 3);
    SampleDate();
    OneTally(l1);
    assert g.licenses[..1] == [l1];
    assert Tally(g.licenses, "t", ACTIVE) == Tally([l1], "t", ACTIVE) + 1;
    assert Tally(g.licenses, "t", REVOKED) == Tally([l1], "t", REVOKED);
    assert g.licenseTypes[0].id == "t" && g.licenseTypes[0].maxSupply == 1 && g.licenseTypes[0].activeCount == 2;
    ImportCapped(env, g);
  }

  lemma OneTally(l: LicenseRecord)
    ensures forall t, status :: Tally([l], t, status) == if l.typ == t && l.status == status then 1 else 0
  {
    assert [l][..0] == [];
  }

  lemma OneIsOne()
    ensures Digits("01") && Number("01") == 1
  {
    var s: string := "01";
    assert s[..1] == ['0'] && ['0'][..0] == [];
    assert Number(['0']) == 0;
  }

  lemma SampleDate()
    ensures ValidDates("2026-01-01", "")
  {
    var s := "2026-01-01";
    assert s[..4] == "2026" && s[5..7] == "01" && s[8..] == "01";
    OneIsOne();
  }

  // ---- Export and import are inverse ----

  function Matching(s: State, ids: seq<uint64>, t: string, status: int32): set<uint64>
    requires forall id :: id in ids ==> id in s.licenses
  {
    set id | id in ids && s.licenses[id].typ == t && s.licenses[id].status == status
  }

  lemma MatchingStep(s: State, ids: seq<uint64>, t: string, status: int32)
    requires |ids| > 0 && forall id :: id in ids ==> id in s.licenses
    requires forall i, j :: 0 <= i < j < |ids| ==> ids[i] != ids[j]
    ensures var init, last := ids[..|ids| - 1], ids[|ids| - 1];
            && last !in Matching(s, init, t, status)
            && Matching(s, ids, t, status) == Matching(s, init, t, status) +
                 (if s.licenses[last].typ == t && s.licenses[last].status == status then {last} else {})
  {
    assert ids == ids[..|ids| - 1] + [ids[|ids| - 1]];
  }

  lemma {:induction false} TallyOfIds(s: State, ids: seq<uint64>, t: string, status: int32)
    requires forall id :: id in ids ==> id in s.licenses
    requires forall i, j :: 0 <= i < j < |ids| ==> ids[i] != ids[j]
    ensures Tally(GetAllStored(s, ids), t, status) == |Matching(s, ids, t, status)|
  {
    hide Matching;
    if |ids| > 0 {
      TallyOfIds(s, ids[..|ids| - 1], t, status);
      MatchingStep(s, ids, t, status);
      assert GetAllStored(s, ids)[..|ids| - 1] == GetAllStored(s, ids[..|ids| - 1]);
    } else {
      NoMatch(s, ids, t, status);
    }
  }

  lemma NoMatch(s: State, ids: seq<uint64>, t: string, status: int32)
    requires ids == []
    ensures Matching(s, ids, t, status) == {}
  {
  }

  lemma ExportTallies(s: State, t: string, status: int32)
    ensures Tally(Licenses(s), t, status) == |WithStatus(s, t, status)|
  {
    var ids := Ascending(s.licenses.Keys);
    forall i, j | 0 <= i < j < |ids|
      ensures ids[i] != ids[j]
    {
      assert IdLess(ids[i], ids[j]);
    }
    TallyOfIds(s, ids, t, status);
    assert Matching(s, ids, t, status) == WithStatus(s, t, status);
  }

  // The exported lists hold every record once, under its own key.
  ghost predicate ListsLicenses(s: State, ls: seq<LicenseRecord>) {
    && DistinctLicenses(ls)
    && (forall i :: 0 <= i < |ls| ==> ls[i].id in s.licenses && s.licenses[ls[i].id] == ls[i])
    && (forall id :: id in s.licenses ==> exists i :: 0 <= i < |ls| && ls[i].id == id)
  }

  ghost predicate ListsTypes(s: State, lts: seq<TypeRecord>) {
    && DistinctTypes(lts)
    && (forall i :: 0 <= i < |lts| ==> lts[i].id in s.types && s.types[lts[i].id] == lts[i])
    && (forall t :: t in s.types ==> exists i :: 0 <= i < |lts| && lts[i].id == t)
  }

  lemma StoredLicensesListed(s: State, ids: seq<uint64>)
    requires LicensesOk(s) && Sorted(IdLess, ids) && forall id :: id in ids <==> id in s.licenses.Keys
    ensures ListsLicenses(s, GetAllStored(s, ids))
  {
    var ls := GetAllStored(s, ids);
    forall i, j | 0 <= i < j < |ids|
      ensures ls[i].id != ls[j].id
    {
      assert IdLess(ids[i], ids[j]);
    }
    forall id | id in s.licenses
      ensures exists i :: 0 <= i < |ls| && ls[i].id == id
    {
      var i :| 0 <= i < |ids| && ids[i] == id;
      assert ls[i].id == id;
    }
  }

  lemma ExportListsLicenses(s: State)
    requires LicensesOk(s)
    ensures ListsLicenses(s, Export(s).licenses)
  {
    hide ListsLicenses, LicensesOk;
    StoredLicensesListed(s, Ascending(s.licenses.Keys));
  }

  lemma TypesListed(s: State, ts: seq<string>)
    requires CountersOk(s) && StrictTotal(StringLess)
    requires Sorted(StringLess, ts) && forall t :: t in ts <==> t in s.types.Keys
    ensures ListsTypes(s, TypesInOrder(s, ts))
  {
    hide WithStatus;
    var lts := TypesInOrder(s, ts);
    forall i | 0 <= i < |ts|
      ensures lts[i].id == ts[i] && lts[i] == s.types[ts[i]]
    {
      assert ts[i] in ts && CounterOk(s, ts[i]);
    }
    forall i, j | 0 <= i < j < |ts|
      ensures lts[i].id != lts[j].id
    {
      assert StringLess(ts[i], ts[j]);
    }
    forall t | t in s.types
      ensures exists i :: 0 <= i < |lts| && lts[i].id == t
    {
      assert t in ts;
      var i :| 0 <= i < |ts| && ts[i] == t;
      assert lts[i].id == t;
    }
  }

  lemma ExportListsTypes(s: State)
    requires CountersOk(s)
    ensures ListsTypes(s, Export(s).licenseTypes)
  {
    hide ListsTypes, CountersOk;
    StringOrders();
    TypesListed(s, Sort(StringLess, s.types.Keys));
  }

  lemma LicensesOrdered(s: State, ids: seq<uint64>)
    requires LicensesOk(s) && Sorted(IdLess, ids) && forall id :: id in ids ==> id in s.licenses
    ensures var ls := GetAllStored(s, ids); forall i, j :: 0 <= i < j < |ls| ==> ls[i].id < ls[j].id
  {
    forall i, j | 0 <= i < j < |ids|
      ensures s.licenses[ids[i]].id < s.licenses[ids[j]].id
    {
      assert IdLess(ids[i], ids[j]);
    }
  }

  ghost predicate Precedes(a: string, b: string) {
    exists k: nat :: DiffersAt(a, b, k)
  }

  lemma TypesOrdered(s: State, ts: seq<string>)
    requires CountersOk(s) && Sorted(StringLess, ts) && forall t :: t in ts ==> t in s.types
    ensures var lts := TypesInOrder(s, ts); forall i, j :: 0 <= i < j < |lts| ==> Precedes(lts[i].id, lts[j].id)
  {
    hide WithStatus, DiffersAt;
    forall i, j | 0 <= i < j < |ts|
      ensures Precedes(s.types[ts[i]].id, s.types[ts[j]].id)
    {
      assert StringLess(ts[i], ts[j]) && CounterOk(s, ts[i]) && CounterOk(s, ts[j]);
      StringLessExactly(ts[i], ts[j]);
    }
  }

  // Exported records stand in key order.
  lemma ExportOrdered(s: State)
    requires Inv(s)
    ensures var g := Export(s);
            && (forall i, j :: 0 <= i < j < |g.licenses| ==> g.licenses[i].id < g.licenses[j].id)
            && (forall i, j :: 0 <= i < j < |g.licenseTypes| ==>
                  Precedes(g.licenseTypes[i].id, g.licenseTypes[j].id))
  {
    hide IndexesOk, LicensesOk, CountersOk, Precedes, Sorted;
    StringOrders();
    LicensesOrdered(s, Ascending(s.licenses.Keys));
    TypesOrdered(s, Sort(StringLess, s.types.Keys));
  }

  lemma ListedLicensesValid(env: Env, s: State, ls: seq<LicenseRecord>, lts: seq<TypeRecord>)
    requires LicensesOk(s) && Formatted(env, s) && ListsLicenses(s, ls) && ListsTypes(s, lts)
    ensures forall i :: 0 <= i < |ls| ==> ValidLicense(env, lts, ls[i]) && ls[i].id < NextId(s)
  {
    hide FormattedLicense, DistinctLicenses, DistinctTypes;
    forall i | 0 <= i < |ls|
      ensures ValidLicense(env, lts, ls[i]) && ls[i].id < NextId(s)
    {
      assert ls[i].typ in s.types;
    }
  }

  lemma ListedTypesValid(env: Env, s: State, lts: seq<TypeRecord>)
    requires CountersOk(s) && Formatted(env, s) && ListsTypes(s, lts)
    ensures forall i :: 0 <= i < |lts| ==> ValidType(Licenses(s), lts[i])
  {
    hide FormattedLicense, Tally, WithStatus, Licenses, DistinctTypes;
    forall i | 0 <= i < |lts|
      ensures ValidType(Licenses(s), lts[i])
    {
      assert CounterOk(s, lts[i].id);
      ExportTallies(s, lts[i].id, ACTIVE);
      ExportTallies(s, lts[i].id, REVOKED);
    }
  }

  // What is exported from a state that satisfies the invariant passes validation.
  lemma ExportIsValid(env: Env, s: State)
    requires Inv(s) && Formatted(env, s)
    ensures ValidGenesis(env, Export(s))
  {
    hide Formatted, LicensesOk, CountersOk, IndexesOk, ValidLicense, ValidType, Export;
    ExportListsLicenses(s);
    ExportListsTypes(s);
    ExportHead(s);
    ListedLicensesValid(env, s, Export(s).licenses, Export(s).licenseTypes);
    ListedTypesValid(env, s, Export(s).licenseTypes);
  }

  lemma ExportHead(s: State)
    ensures Export(s).nextLicenseId == NextId(s) && Export(s).licenses == Licenses(s)
  {
  }

  // The index sets follow from the licenses.
  lemma IndexesDetermined(s: State, s': State)
    requires IndexesOk(s) && IndexesOk(s') && s.licenses == s'.licenses
    ensures s.byType == s'.byType && s.byHolder == s'.byHolder
  {
    forall k
      ensures k in s.byType <==> k in s'.byType
    {
      assert k == (k.0, k.1);
      assert (k.0, k.1) in s.byType <==> (k.0, k.1) in s'.byType;
    }
    forall k
      ensures k in s.byHolder <==> k in s'.byHolder
    {
      assert k == (k.0, k.1, k.2);
      assert (k.0, k.1, k.2) in s.byHolder <==> (k.0, k.1, k.2) in s'.byHolder;
    }
  }

  // Loading lists that hold every record of s once gives the records of s.
  lemma LoadedLicensesListed(s0: State, s: State, ls: seq<LicenseRecord>)
    requires s0.licenses == map[] && ListsLicenses(s, ls)
    ensures LoadLicenses(s0, ls).licenses == s.licenses
  {
    hide LoadLicenses, DistinctLicenses;
    var loaded := LoadLicenses(s0, ls).licenses;
    LoadedLicenses(s0, ls);
    LicenseIdsMembers(ls);
    assert loaded.Keys == s.licenses.Keys;
    forall id | id in s.licenses
      ensures loaded[id] == s.licenses[id]
    {
      var i :| 0 <= i < |ls| && ls[i].id == id;
    }
  }

  lemma LoadedTypesListed(s: State, lts: seq<TypeRecord>)
    requires ListsTypes(s, lts)
    ensures LoadTypes(EMPTY, lts).types == s.types && LoadTypes(EMPTY, lts).licenses == map[]
  {
    hide LoadTypes, DistinctTypes;
    var loaded := LoadTypes(EMPTY, lts).types;
    LoadedTypes(EMPTY, lts);
    TypeIdsMembers(lts);
    assert loaded.Keys == s.types.Keys;
    forall t | t in s.types
      ensures loaded[t] == s.types[t]
    {
      var i :| 0 <= i < |lts| && lts[i].id == t;
    }
  }

  lemma LoadedLists(s: State, g: GenesisRecords)
    requires ListsLicenses(s, g.licenses) && ListsTypes(s, g.licenseTypes)
    ensures Load(EMPTY, g).licenses == s.licenses && Load(EMPTY, g).types == s.types
  {
    hide ListsLicenses, ListsTypes, LoadLicenses, LoadTypes;
    var s0 := LoadTypes(EMPTY, g.licenseTypes).(nextId := Some(g.nextLicenseId));
    LoadedTypesListed(s, g.licenseTypes);
    LoadedLicensesListed(s0, s, g.licenses);
  }

  // Exporting and importing into an empty store gives the same state back, indexes and
  // counters included; an unset id sequence comes back as its first id.
  lemma ExportImport(env: Env, s: State)
    requires Inv(s) && Formatted(env, s)
    ensures ValidGenesis(env, Export(s)) && Load(EMPTY, Export(s)) == s.(nextId := Some(NextId(s)))
  {
    hide Formatted, ValidGenesis, Load, LicensesOk, CountersOk, IndexesOk, Export;
    var g := Export(s);
    ExportIsValid(env, s);
    ExportListsLicenses(s);
    ExportListsTypes(s);
    ExportHead(s);
    LoadedLists(s, g);
    ImportedShape(env, g);
    IndexesDetermined(s, Load(EMPTY, g));
  }

  // Importing a valid genesis and exporting it gives the same records back, in key order.
  lemma ImportExport(env: Env, g: GenesisRecords)
    requires ValidGenesis(env, g)
    ensures var g' := Export(Load(EMPTY, g));
            && g'.nextLicenseId == g.nextLicenseId
            && |g'.licenses| == |g.licenses| && |g'.licenseTypes| == |g.licenseTypes|
            && (forall l :: l in g'.licenses <==> l in g.licenses)
            && (forall lt :: lt in g'.licenseTypes <==> lt in g.licenseTypes)
  {
    hide LoadLicenses, LoadTypes, ValidLicense, ValidType, IndexesOk, FormattedLicense, WithStatus, Load, Export;
    var s := Load(EMPTY, g);
    var g' := Export(s);
    ImportEstablishes(env, g);
    ImportedShape(env, g);
    ExportHead(s);
    ExportListsLicenses(s);
    ExportListsTypes(s);
    ImportListsRecords(env, g);
    SameLicenses(s, g.licenses, g'.licenses);
    SameTypes(s, g.licenseTypes, g'.licenseTypes);
  }

  lemma ImportListsRecords(env: Env, g: GenesisRecords)
    requires ValidGenesis(env, g)
    ensures ListsLicenses(Load(EMPTY, g), g.licenses) && ListsTypes(Load(EMPTY, g), g.licenseTypes)
  {
    hide LoadLicenses, LoadTypes, ValidLicense, ValidType;
    LoadedTypes(EMPTY, g.licenseTypes);
    LoadedLicenses(LoadTypes(EMPTY, g.licenseTypes).(nextId := Some(g.nextLicenseId)), g.licenses);
    LicenseIdsMembers(g.licenses);
    TypeIdsMembers(g.licenseTypes);
  }

  // Two listings of the same records have the same members and the same length.
  lemma SameLicenses(s: State, a: seq<LicenseRecord>, b: seq<LicenseRecord>)
    requires ListsLicenses(s, a) && ListsLicenses(s, b)
    ensures |a| == |b| && forall l :: l in a <==> l in b
  {
    ListedOnce(s, a);
    ListedOnce(s, b);
    forall l
      ensures l in a <==> l in b
    {
      ListedIff(s, a, l);
      ListedIff(s, b, l);
    }
  }

  lemma ListedIff(s: State, a: seq<LicenseRecord>, l: LicenseRecord)
    requires ListsLicenses(s, a)
    ensures l in a <==> l.id in s.licenses && s.licenses[l.id] == l
  {
    if l.id in s.licenses && s.licenses[l.id] == l {
      var i :| 0 <= i < |a| && a[i].id == l.id;
      assert a[i] == l;
    }
  }

  lemma {:induction false} DistinctSize(a: seq<LicenseRecord>)
    requires DistinctLicenses(a)
    ensures |LicenseIds(a)| == |a|
  {
    if |a| > 0 {
      DistinctSize(a[..|a| - 1]);
      LicenseIdsMembers(a[..|a| - 1]);
    }
  }

  lemma ListedOnce(s: State, a: seq<LicenseRecord>)
    requires ListsLicenses(s, a)
    ensures |a| == |s.licenses|
  {
    DistinctSize(a);
    LicenseIdsMembers(a);
    assert LicenseIds(a) == s.licenses.Keys;
  }

  lemma SameTypes(s: State, a: seq<TypeRecord>, b: seq<TypeRecord>)
    requires ListsTypes(s, a) && ListsTypes(s, b)
    ensures |a| == |b| && forall lt :: lt in a <==> lt in b
  {
    TypesListedOnce(s, a);
    TypesListedOnce(s, b);
    forall lt
      ensures lt in a <==> lt in b
    {
      TypesListedIff(s, a, lt);
      TypesListedIff(s, b, lt);
    }
  }

  lemma TypesListedIff(s: State, a: seq<TypeRecord>, lt: TypeRecord)
    requires ListsTypes(s, a)
    ensures lt in a <==> lt.id in s.types && s.types[lt.id] == lt
  {
    if lt.id in s.types && s.types[lt.id] == lt {
      var i :| 0 <= i < |a| && a[i].id == lt.id;
      assert a[i] == lt;
    }
  }

  lemma {:induction false} DistinctTypesSize(a: seq<TypeRecord>)
    requires DistinctTypes(a)
    ensures |TypeIdsOf(a)| == |a|
  {
    if |a| > 0 {
      DistinctTypesSize(a[..|a| - 1]);
      TypeIdsMembers(a[..|a| - 1]);
    }
  }

  lemma TypesListedOnce(s: State, a: seq<TypeRecord>)
    requires ListsTypes(s, a)
    ensures |a| == |s.types|
  {
    DistinctTypesSize(a);
    TypeIdsMembers(a);
    assert TypeIdsOf(a) == s.types.Keys;
  }
}
