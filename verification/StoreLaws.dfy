// What every operation on the license state keeps, undoes or leaves alone.
module StoreLaws {
  import opened GoInts
  import opened Results
  import opened LicenseStore

  // ---- Issuing keeps the invariant, as long as the id sequence does not run out ----

  lemma IssueOneCounts(s: State, e: Entry, t: string, status: int32)
    requires NextId(s) !in s.licenses
    ensures WithStatus(IssueOne(s, e), t, status) ==
            WithStatus(s, t, status) + (if t == e.typ && status == ACTIVE then {NextId(s)} else {})
  {
  }

  // One issuance with the counters stored at once.
  function SettledOne(s: State, e: Entry): State
    requires e.typ in s.types
  {
    IssueOne(s, e).(types := s.types[e.typ := Count(s.types[e.typ], 1)])
  }

  lemma IssueOneLicenses(s: State, e: Entry)
    requires LicensesOk(s) && e.typ in s.types && NextId(s) + 1 < TWO_64
    ensures LicensesOk(SettledOne(s, e)) && NextId(s) !in s.licenses
  {
  }

  lemma IssueOneIndexes(s: State, e: Entry)
    requires IndexesOk(s) && e.typ in s.types && NextId(s) !in s.licenses
    ensures IndexesOk(SettledOne(s, e))
  {
    var s', id := SettledOne(s, e), NextId(s);
    forall t, i
      ensures (t, i) in s'.byType <==> i in s'.licenses && s'.licenses[i].typ == t
    {
      assert i != id ==> ((t, i) in s'.byType <==> (t, i) in s.byType);
    }
    forall h, t, i
      ensures (h, t, i) in s'.byHolder <==>
              i in s'.licenses && s'.licenses[i].status == ACTIVE && s'.licenses[i].holder == h && s'.licenses[i].typ == t
    {
      assert i != id ==> ((h, t, i) in s'.byHolder <==> (h, t, i) in s.byHolder);
    }
  }

  lemma IssueOneCounters(s: State, e: Entry)
    requires CountersOk(s) && e.typ in s.types && NextId(s) !in s.licenses
    ensures CountersOk(SettledOne(s, e))
  {
    var s' := SettledOne(s, e);
    forall t | t in s'.types
      ensures CounterOk(s', t)
    {
      assert CounterOk(s, t);
      IssueOneCounts(s, e, t, ACTIVE);
      IssueOneCounts(s, e, t, REVOKED);
      assert WithStatus(s', t, ACTIVE) == WithStatus(IssueOne(s, e), t, ACTIVE);
      assert WithStatus(s', t, REVOKED) == WithStatus(IssueOne(s, e), t, REVOKED);
      assert NextId(s) !in WithStatus(s, t, ACTIVE);
    }
  }

  lemma IssueOneKeeps(s: State, e: Entry)
    requires Inv(s) && e.typ in s.types && NextId(s) + 1 < TWO_64
    ensures Inv(SettledOne(s, e)) && NextId(SettledOne(s, e)) == NextId(s) + 1
  {
    hide LicensesOk, IndexesOk, CountersOk;
    IssueOneLicenses(s, e);
    IssueOneIndexes(s, e);
    IssueOneCounters(s, e);
  }

  // The state a loop of n turns would leave if the counters were stored after each turn.
  function Settled(s: State, e: Entry, n: nat): State
    requires e.typ in s.types
  {
    IssueMany(s, e, n).(types := s.types[e.typ := Count(s.types[e.typ], n)])
  }

  lemma SettledStep(s: State, e: Entry, n: nat)
    requires e.typ in s.types
    ensures Settled(s, e, 0) == s
    ensures n > 0 ==> SettledOne(Settled(s, e, n - 1), e) == Settled(s, e, n)
  {
    assert s.types[e.typ := Count(s.types[e.typ], 0)] == s.types;
    if n > 0 {
      var s1 := Settled(s, e, n - 1);
      assert s1.types[e.typ := Count(s1.types[e.typ], 1)] == s.types[e.typ := Count(s.types[e.typ], n)];
    }
  }

  lemma {:induction false} IssueManyKeeps(s: State, e: Entry, n: nat)
    requires Inv(s) && e.typ in s.types && NextId(s) + n < TWO_64
    ensures Inv(Settled(s, e, n)) && NextId(Settled(s, e, n)) == NextId(s) + n
  {
    hide Inv, Settled, SettledOne;
    SettledStep(s, e, n);
    if n > 0 {
      SettledTypes(s, e, n - 1);
      IssueManyKeeps(s, e, n - 1);
      IssueOneKeeps(Settled(s, e, n - 1), e);
    }
  }

  lemma SettledTypes(s: State, e: Entry, n: nat)
    requires e.typ in s.types
    ensures Settled(s, e, n).types.Keys == s.types.Keys
  {
  }

  // ---- What issuing changes, and what it does not ----

  // n consecutive ids from first on.
  function FreshIds(first: nat, n: nat): (r: set<uint64>)
    requires first + n <= TWO_64
    ensures forall id :: id in r <==> first <= id < first + n
    ensures |r| == n
  {
    if n == 0 then {} else FreshIds(first, n - 1) + {first + n - 1}
  }

  // s with a license of entry e under each of the given ids, listed once in both indexes.
  function AddAll(s: State, e: Entry, ids: set<uint64>, next: Option<uint64>): State {
    s.(nextId := next,
       licenses := s.licenses + LicensesFor(e, ids),
       byType := s.byType + NewTypeKeys(e, ids),
       byHolder := s.byHolder + NewHolderKeys(e, ids))
  }

  function LicensesFor(e: Entry, ids: set<uint64>): map<uint64, LicenseRecord> {
    map id | id in ids :: NewLicense(e, id)
  }

  function NewTypeKeys(e: Entry, ids: set<uint64>): set<(string, uint64)> {
    set id | id in ids :: (e.typ, id)
  }

  function NewHolderKeys(e: Entry, ids: set<uint64>): set<(string, string, uint64)> {
    set id | id in ids :: (e.holder, e.typ, id)
  }

  function NextAfter(s: State, n: nat): Option<uint64> {
    if n == 0 then s.nextId else Some((NextId(s) + n) % TWO_64)
  }

  // n turns of an issuing loop add n licenses with fresh consecutive ids and do nothing else.
  lemma {:induction false} IssueManyAdds(s: State, e: Entry, n: nat)
    requires NextId(s) + n <= TWO_64
    ensures IssueMany(s, e, n) == AddAll(s, e, FreshIds(NextId(s), n), NextAfter(s, n))
  {
    hide AddAll, IssueOne, NextId;
    if n == 0 {
      AddNone(s, e);
    } else {
      hide FreshIds, NextAfter;
      IssueManyAdds(s, e, n - 1);
      AddNext(s, e, n);
    }
  }

  lemma AddNext(s: State, e: Entry, n: nat)
    requires 0 < n && NextId(s) + n <= TWO_64
    ensures IssueOne(AddAll(s, e, FreshIds(NextId(s), n - 1), NextAfter(s, n - 1)), e)
            == AddAll(s, e, FreshIds(NextId(s), n), NextAfter(s, n))
  {
    hide *;
    IdsStep(NextId(s), n);
    NextAfterStep(s, n);
    AddOne(s, e, FreshIds(NextId(s), n - 1), NextAfter(s, n - 1), NextId(s) + n - 1);
  }

  lemma IdsStep(first: nat, n: nat)
    requires 0 < n && first + n <= TWO_64
    ensures FreshIds(first, n) == FreshIds(first, n - 1) + {first + n - 1} && first + n - 1 !in FreshIds(first, n - 1)
  {
  }

  lemma NextAfterStep(s: State, n: nat)
    requires 0 < n && NextId(s) + n <= TWO_64
    ensures NextId(s.(nextId := NextAfter(s, n - 1))) == NextId(s) + n - 1
    ensures NextAfter(s, n) == Some((NextId(s) + n) % TWO_64)
  {
    if n > 1 {
      ModSmall(NextId(s) + n - 1, TWO_64);
    }
  }

  lemma AddNone(s: State, e: Entry)
    ensures AddAll(s, e, {}, s.nextId) == s
  {
    assert s.licenses + LicensesFor(e, {}) == s.licenses;
    assert s.byType + NewTypeKeys(e, {}) == s.byType;
    assert s.byHolder + NewHolderKeys(e, {}) == s.byHolder;
  }

  lemma AddOne(s: State, e: Entry, ids: set<uint64>, next: Option<uint64>, id: uint64)
    requires id !in ids && id == NextId(s.(nextId := next))
    ensures IssueOne(AddAll(s, e, ids, next), e) == AddAll(s, e, ids + {id}, Some((id + 1) % TWO_64))
  {
    OneMoreLicense(s.licenses, e, ids, id);
    OneMoreTypeKey(s.byType, e, ids, id);
    OneMoreHolderKey(s.byHolder, e, ids, id);
    hide LicensesFor, NewTypeKeys, NewHolderKeys, NewLicense;
    assert NextId(AddAll(s, e, ids, next)) == id;
  }

  lemma OneMoreLicense(m: map<uint64, LicenseRecord>, e: Entry, ids: set<uint64>, id: uint64)
    ensures (m + LicensesFor(e, ids))[id := NewLicense(e, id)] == m + LicensesFor(e, ids + {id})
  {
  }

  lemma OneMoreTypeKey(m: set<(string, uint64)>, e: Entry, ids: set<uint64>, id: uint64)
    ensures m + NewTypeKeys(e, ids) + {(e.typ, id)} == m + NewTypeKeys(e, ids + {id})
  {
  }

  lemma OneMoreHolderKey(m: set<(string, string, uint64)>, e: Entry, ids: set<uint64>, id: uint64)
    ensures m + NewHolderKeys(e, ids) + {(e.holder, e.typ, id)} == m + NewHolderKeys(e, ids + {id})
  {
  }

  lemma AddedHeld(s: State, e: Entry, ids: set<uint64>, next: Option<uint64>, h: string, t: string)
    ensures Held(AddAll(s, e, ids, next), h, t)
            == Held(s, h, t) + (if h == e.holder && t == e.typ then ids else {})
  {
    var s' := AddAll(s, e, ids, next);
    HeldMembers(s, h, t);
    HeldMembers(s', h, t);
    assert forall id :: (h, t, id) in s'.byHolder <==>
        (h, t, id) in s.byHolder || (h == e.holder && t == e.typ && id in ids);
  }

  // Stored licenses, the counters of other types and the index entries of other holders or
  // types are what they were; the new ids are fresh.
  lemma IssueEntryFrame(s: State, e: Entry)
    requires Inv(s) && e.typ in s.types && NextId(s) + e.count <= TWO_64
    ensures FreshIds(NextId(s), e.count) !! s.licenses.Keys
    ensures forall id :: id in s.licenses ==>
              id in IssueEntry(s, e).licenses && IssueEntry(s, e).licenses[id] == s.licenses[id]
    ensures forall t :: t in s.types && t != e.typ ==> IssueEntry(s, e).types[t] == s.types[t]
    ensures forall h, t :: Held(IssueEntry(s, e), h, t)
                           == Held(s, h, t) + (if h == e.holder && t == e.typ then FreshIds(NextId(s), e.count) else {})
  {
    IssueManyAdds(s, e, e.count);
    var ids, next := FreshIds(NextId(s), e.count), NextAfter(s, e.count);
    forall h, t
      ensures Held(IssueEntry(s, e), h, t) == Held(s, h, t) + (if h == e.holder && t == e.typ then ids else {})
    {
      AddedHeld(s, e, ids, next, h, t);
      assert Held(IssueEntry(s, e), h, t) == Held(AddAll(s, e, ids, next), h, t);
    }
    hide Held;
    assert IssueEntry(s, e).licenses == AddAll(s, e, ids, next).licenses;
  }

  lemma HeldMembers(s: State, h: string, t: string)
    ensures forall id :: id in Held(s, h, t) <==> (h, t, id) in s.byHolder
  {
    forall id
      ensures id in Held(s, h, t) <==> (h, t, id) in s.byHolder
    {
      if (h, t, id) in s.byHolder {
        var k := (h, t, id);
        assert k in s.byHolder && k.0 == h && k.1 == t;
      }
    }
  }

  // Issuing m and then n is issuing m + n.
  lemma {:induction false} IssueManyAdditive(s: State, e: Entry, m: nat, n: nat)
    ensures IssueMany(IssueMany(s, e, m), e, n) == IssueMany(s, e, m + n)
  {
    if n > 0 {
      IssueManyAdditive(s, e, m, n - 1);
    }
  }

  lemma OneIgnores(s: State, types: map<string, TypeRecord>, e: Entry, count: uint64)
    ensures IssueOne(s.(types := types), e.(count := count)) == IssueOne(s, e).(types := types)
  {
  }

  // The loop reads neither the counters nor the count of the entry.
  lemma {:induction false} LoopIgnores(s: State, types: map<string, TypeRecord>, e: Entry, count: uint64, n: nat)
    ensures IssueMany(s.(types := types), e.(count := count), n) == IssueMany(s, e, n).(types := types)
  {
    hide IssueOne;
    if n > 0 {
      LoopIgnores(s, types, e, count, n - 1);
      OneIgnores(IssueMany(s, e, n - 1), types, e, count);
    }
  }

  // Two seedings in a row are one.
  lemma SeedAdditive(s: State, holder: string, t: string, m: uint64, n: uint64)
    requires m + n < TWO_64
    ensures Seed(Seed(s, holder, t, m), holder, t, n) == Seed(s, holder, t, m + n)
  {
    hide IssueMany;
    var s0 := if t in s.types then s else CreateType(s, t, false, 0);
    var e, s1 := SeedEntry(holder, t, m), Seed(s, holder, t, m);
    var mid, end := IssueMany(s0, e, m), IssueMany(s0, e, m + n);
    assert s1 == mid.(types := s1.types) && t in s1.types;
    LoopIgnores(mid, s1.types, e, n, n);
    assert IssueMany(s1, SeedEntry(holder, t, n), n) == IssueMany(mid, e, n).(types := s1.types);
    LoopIgnores(s0, s0.types, e, m + n, m + n);
    assert IssueMany(s0, SeedEntry(holder, t, m + n), m + n) == end.(types := s0.types);
    IssueManyAdditive(s0, e, m, n);
    assert s1.types[t := Count(s1.types[t], n)] == s0.types[t := Count(s0.types[t], m + n)];
  }

  // ---- What is stored ----

  // An active license under id with everything that the entry asks for.
  ghost predicate RecordOf(s: State, id: nat, e: Entry) {
    id < TWO_64 && id in s.licenses &&
    s.licenses[id] == LicenseRecord(id, e.typ, e.holder, e.startDate, e.endDate, 1, "")
  }

  // The place of an entry's j-th license in the batch.
  function Place(es: seq<Entry>, i: nat, j: nat): nat
    requires i <= |es|
  {
    Total(es[..i]) + j
  }

  lemma EntryRecords(s: State, e: Entry)
    requires e.typ in s.types && NextId(s) + e.count <= TWO_64
    ensures forall id :: NextId(s) <= id < NextId(s) + e.count ==> RecordOf(IssueEntry(s, e), id, e)
    ensures forall id :: id in s.licenses && id < NextId(s) ==>
              id in IssueEntry(s, e).licenses && IssueEntry(s, e).licenses[id] == s.licenses[id]
  {
    IssueManyAdds(s, e, e.count);
    var ids := FreshIds(NextId(s), e.count);
    hide IssueMany, FreshIds, NextAfter;
    assert IssueEntry(s, e).licenses == s.licenses + LicensesFor(e, ids);
    assert forall id :: NextId(s) <= id < NextId(s) + e.count ==> id in ids;
  }

  // Every license of a batch carries the type, holder and dates of its own entry, in entry
  // order from the next id on.
  lemma {:induction false} IssuedRecords(s: State, es: seq<Entry>)
    requires TypesKnown(s, es) && NextId(s) + Total(es) <= TWO_64
    ensures forall i, j :: 0 <= i < |es| && 0 <= j < es[i].count ==>
              Place(es, i, j) < Total(es) && RecordOf(IssueAll(s, es), NextId(s) + Place(es, i, j), es[i])
  {
    hide IssueEntry, NextId, RecordOf;
    if |es| > 0 {
      var init, e := es[..|es| - 1], es[|es| - 1];
      var s1 := IssueAll(s, init);
      IssuedRecords(s, init);
      if e.count == 0 {
        NoneIssued(s1, e);
      } else {
        NextIdAfter(s, init);
        EntryRecords(s1, e);
      }
      forall i, j | 0 <= i < |es| && 0 <= j < es[i].count
        ensures Place(es, i, j) < Total(es) && RecordOf(IssueAll(s, es), NextId(s) + Place(es, i, j), es[i])
      {
        if i < |init| {
          assert es[..i] == init[..i] && es[i] == init[i];
          assert Place(init, i, j) < Total(init);
          assert e.count > 0 ==> NextId(s) + Place(es, i, j) < NextId(s1);
          StaysRecorded(s1, IssueEntry(s1, e), NextId(s) + Place(es, i, j), es[i]);
        }
      }
    }
  }

  lemma StaysRecorded(s: State, s': State, id: nat, e: Entry)
    requires RecordOf(s, id, e)
    requires id in s.licenses ==> id in s'.licenses && s'.licenses[id] == s.licenses[id]
    ensures RecordOf(s', id, e)
  {
  }

  lemma NoneIssued(s: State, e: Entry)
    requires e.typ in s.types && e.count == 0
    ensures IssueEntry(s, e).licenses == s.licenses
  {
  }

  // Seeding lists the new licenses under that holder and type, and nothing else changes there.
  lemma SeedHeld(s: State, holder: string, t: string, n: uint64)
    requires Inv(s) && NextId(s) + n <= TWO_64
    ensures forall h, t' :: Held(Seed(s, holder, t, n), h, t')
                            == Held(s, h, t') + (if h == holder && t' == t then FreshIds(NextId(s), n) else {})
  {
    hide Inv, Held, FreshIds, IssueEntry;
    var s0 := if t in s.types then s else CreateType(s, t, false, 0);
    SeedStart(s, t);
    IssueEntryFrame(s0, SeedEntry(holder, t, n));
    SeedHolds(s, s0);
  }

  // It adds active licenses of that holder and type from the next id on, and keeps the others.
  lemma SeedRecords(s: State, holder: string, t: string, n: uint64)
    requires Inv(s) && NextId(s) + n <= TWO_64
    ensures var s', ids := Seed(s, holder, t, n), FreshIds(NextId(s), n);
            && s'.licenses.Keys == s.licenses.Keys + ids && s.licenses.Keys !! ids
            && (forall id :: id in s.licenses ==> s'.licenses[id] == s.licenses[id])
            && (forall id :: id in ids ==>
                  s'.licenses[id] == LicenseRecord(id, t, holder, "2025-01-01", "", 1, ""))
  {
    hide IndexesOk, CountersOk, Held, FreshIds, NextAfter, IssueMany;
    var s0 := if t in s.types then s else CreateType(s, t, false, 0);
    var e, ids := SeedEntry(holder, t, n), FreshIds(NextId(s), n);
    IssueManyAdds(s0, e, n);
    assert Seed(s, holder, t, n).licenses == s.licenses + LicensesFor(e, ids);
  }

  // It counts them, and creates an uncapped type on first use.
  lemma SeedTypes(s: State, holder: string, t: string, n: uint64)
    ensures Seed(s, holder, t, n).types
            == s.types[t := if t !in s.types then TypeRecord(t, false, 0, n, n, 0)
                            else s.types[t].(issuedCount := s.types[t].issuedCount + n,
                                             activeCount := s.types[t].activeCount + n)]
  {
    hide IssueMany;
  }

  lemma SeedStart(s: State, t: string)
    requires Inv(s)
    ensures Inv(if t in s.types then s else CreateType(s, t, false, 0))
  {
    if t !in s.types {
      CreateTypeKeeps(s, t, false, 0);
    }
  }

  lemma SeedHolds(s: State, s0: State)
    requires s0.byHolder == s.byHolder
    ensures forall h, t :: Held(s0, h, t) == Held(s, h, t)
  {
  }

  // ---- Where the id sequence runs out ----

  // The last id has been handed out: no next id can be above it.
  ghost predicate Exhausted(s: State) {
    TWO_64 - 1 in s.licenses
  }

  lemma {:induction false} ExhaustedStays(s: State, e: Entry, n: nat)
    requires Exhausted(s)
    ensures Exhausted(IssueMany(s, e, n))
  {
    if n > 0 {
      ExhaustedStays(s, e, n - 1);
    }
  }

  lemma AddedAreStored(s: State, e: Entry, ids: set<uint64>, next: Option<uint64>, id: uint64)
    requires id in ids
    ensures id in AddAll(s, e, ids, next).licenses
  {
    assert id in LicensesFor(e, ids);
  }

  // The issuance that takes the last id.
  lemma LastIdTaken(s: State, e: Entry)
    ensures Exhausted(IssueMany(s, e, TWO_64 - NextId(s)))
  {
    hide IssueMany, AddAll, NextAfter, NextId, FreshIds, LicensesFor;
    var k := TWO_64 - NextId(s);
    IssueManyAdds(s, e, k);
    AddedAreStored(s, e, FreshIds(NextId(s), k), NextAfter(s, k), TWO_64 - 1);
  }

  lemma RunsOut(s: State, e: Entry, n: nat)
    requires TWO_64 <= NextId(s) + n
    ensures Exhausted(IssueMany(s, e, n))
  {
    hide IssueMany, Exhausted, NextId;
    var k := TWO_64 - NextId(s);
    LastIdTaken(s, e);
    IssueManyAdditive(s, e, k, n - k);
    ExhaustedStays(IssueMany(s, e, k), e, n - k);
  }

  lemma NextIdAfterEntry(s: State, e: Entry)
    requires e.typ in s.types && NextId(s) + e.count < TWO_64
    ensures NextId(IssueEntry(s, e)) == NextId(s) + e.count
  {
    hide IssueMany, FreshIds, LicensesFor, NewTypeKeys, NewHolderKeys;
    IssueManyAdds(s, e, e.count);
    ModSmall(NextId(s) + e.count, TWO_64);
  }

  lemma {:induction false} NextIdAfter(s: State, es: seq<Entry>)
    requires TypesKnown(s, es) && NextId(s) + Total(es) < TWO_64
    ensures NextId(IssueAll(s, es)) == NextId(s) + Total(es)
  {
    hide IssueEntry, NextId;
    if |es| > 0 {
      var init, e := es[..|es| - 1], es[|es| - 1];
      NextIdAfter(s, init);
      NextIdAfterEntry(IssueAll(s, init), e);
    }
  }

  // A batch keeps the invariant exactly when the ids it needs stay below 2^64.
  lemma {:induction false} IssueAllExactly(s: State, es: seq<Entry>)
    requires Inv(s) && TypesKnown(s, es)
    ensures Inv(IssueAll(s, es)) <==> NextId(s) + Total(es) < TWO_64
    ensures NextId(s) + Total(es) >= TWO_64 ==> Exhausted(IssueAll(s, es))
  {
    hide Inv, Exhausted, IssueMany;
    if |es| > 0 {
      var init, e := es[..|es| - 1], es[|es| - 1];
      var s1 := IssueAll(s, init);
      IssueAllExactly(s, init);
      assert IssueAll(s, es) == Settled(s1, e, e.count);
      if NextId(s) + Total(init) < TWO_64 {
        NextIdAfter(s, init);
        if NextId(s1) + e.count < TWO_64 {
          IssueManyKeeps(s1, e, e.count);
        } else {
          RunsOut(s1, e, e.count);
          ExhaustedBreaks(IssueMany(s1, e, e.count), IssueAll(s, es).types);
        }
      } else {
        ExhaustedStays(s1, e, e.count);
        ExhaustedBreaks(IssueMany(s1, e, e.count), IssueAll(s, es).types);
      }
    }
  }

  // Issued ids are positive.
  lemma {:induction false} IssueAllPositive(s: State, es: seq<Entry>)
    requires TypesKnown(s, es) && PositiveIds(s) && NextId(s) >= 1 && NextId(s) + Total(es) < TWO_64
    ensures PositiveIds(IssueAll(s, es))
  {
    hide IssueMany, FreshIds;
    if |es| > 0 {
      var init, e := es[..|es| - 1], es[|es| - 1];
      IssueAllPositive(s, init);
      NextIdAfter(s, init);
      var s1 := IssueAll(s, init);
      IssueManyAdds(s1, e, e.count);
      assert 0 !in FreshIds(NextId(s1), e.count);
    }
  }

  lemma ExhaustedBreaks(s: State, types: map<string, TypeRecord>)
    requires Exhausted(s)
    ensures Exhausted(s.(types := types)) && !Inv(s.(types := types))
  {
  }

  // ---- Supply caps ----

  // The counters after a batch: each type moves by what was requested of it.
  lemma {:induction false} IssueAllCounts(s: State, es: seq<Entry>, t: string)
    requires TypesKnown(s, es) && t in s.types
    ensures IssueAll(s, es).types[t] == Count(s.types[t], Requested(es, t))
  {
    if |es| > 0 {
      IssueAllCounts(s, es[..|es| - 1], t);
    }
  }

  // The check the handler makes: each running total against the cap.
  ghost predicate RunningSupplyOk(s: State, es: seq<Entry>) {
    forall i :: 0 <= i < |es| ==> EntrySupplyOk(s, es[..i + 1], es[i].typ)
  }

  // The check it stands for: the whole request against the cap.
  ghost predicate SupplyOk(s: State, es: seq<Entry>) {
    forall i :: 0 <= i < |es| ==> EntrySupplyOk(s, es, es[i].typ)
  }

  ghost predicate EntrySupplyOk(s: State, es: seq<Entry>, t: string) {
    t in s.types && (s.types[t].maxSupply == 0 || s.types[t].activeCount + Requested(es, t) <= s.types[t].maxSupply)
  }

  lemma {:induction false} RequestedGrows(es: seq<Entry>, i: nat, t: string)
    requires i <= |es|
    ensures Requested(es[..i], t) <= Requested(es, t)
    ensures (forall j :: i <= j < |es| ==> es[j].typ != t) ==> Requested(es[..i], t) == Requested(es, t)
  {
    if i == |es| {
      assert es[..i] == es;
    } else {
      var init := es[..|es| - 1];
      RequestedGrows(init, i, t);
      assert init[..i] == es[..i];
    }
  }

  lemma LastMention(es: seq<Entry>, i: nat) returns (k: nat)
    requires i < |es|
    ensures i <= k < |es| && es[k].typ == es[i].typ
    ensures forall j :: k < j < |es| ==> es[j].typ != es[i].typ
  {
    k := |es| - 1;
    while es[k].typ != es[i].typ
      invariant i <= k < |es| && forall j :: k < j < |es| ==> es[j].typ != es[i].typ
      decreases k
    {
      k := k - 1;
    }
  }

  lemma RunningTotalsSuffice(s: State, es: seq<Entry>)
    ensures RunningSupplyOk(s, es) <==> SupplyOk(s, es)
  {
    if RunningSupplyOk(s, es) {
      forall i | 0 <= i < |es|
        ensures EntrySupplyOk(s, es, es[i].typ)
      {
        var k := LastMention(es, i);
        assert EntrySupplyOk(s, es[..k + 1], es[k].typ);
        RequestedGrows(es, k + 1, es[i].typ);
      }
    }
    if SupplyOk(s, es) {
      forall i | 0 <= i < |es|
        ensures EntrySupplyOk(s, es[..i + 1], es[i].typ)
      {
        assert EntrySupplyOk(s, es, es[i].typ);
        RequestedGrows(es, i + 1, es[i].typ);
      }
    }
  }

  lemma {:induction false} NotRequested(es: seq<Entry>, t: string)
    requires forall i :: 0 <= i < |es| ==> es[i].typ != t
    ensures Requested(es, t) == 0
  {
    if |es| > 0 {
      NotRequested(es[..|es| - 1], t);
    }
  }

  lemma WithinCap(s: State, es: seq<Entry>, t: string)
    requires RunningSupplyOk(s, es) && TypesKnown(s, es) && t in s.types && CapHolds(s, t)
    ensures CapHolds(IssueAll(s, es), t)
  {
    RunningTotalsSuffice(s, es);
    IssueAllCounts(s, es, t);
    if i :| 0 <= i < |es| && es[i].typ == t {
      assert EntrySupplyOk(s, es, es[i].typ);
    } else {
      NotRequested(es, t);
    }
  }

  lemma SupplyKnown(s: State, es: seq<Entry>)
    requires RunningSupplyOk(s, es)
    ensures TypesKnown(s, es)
  {
    assert forall i :: 0 <= i < |es| ==> EntrySupplyOk(s, es[..i + 1], es[i].typ);
  }

  // A batch that passes the check leaves every type within its cap that was within it before.
  lemma IssueAllKeepsCaps(s: State, es: seq<Entry>)
    requires RunningSupplyOk(s, es)
    ensures TypesKnown(s, es) && forall t :: t in s.types && CapHolds(s, t) ==> CapHolds(IssueAll(s, es), t)
  {
    SupplyKnown(s, es);
    forall t | t in s.types && CapHolds(s, t)
      ensures CapHolds(IssueAll(s, es), t)
    {
      WithinCap(s, es, t);
    }
  }

  // ---- Revoking ----

  lemma HeldAreActive(s: State, h: string, t: string, ids: set<uint64>)
    requires IndexesOk(s) && ids <= Held(s, h, t)
    ensures forall id :: id in ids ==>
              id in s.licenses && s.licenses[id].status == ACTIVE && s.licenses[id].typ == t && s.licenses[id].holder == h
  {
    HeldMembers(s, h, t);
    forall id | id in ids
      ensures id in s.licenses && s.licenses[id].status == ACTIVE && s.licenses[id].typ == t && s.licenses[id].holder == h
    {
      assert (h, t, id) in s.byHolder;
    }
  }

  lemma RevokeStatuses(s: State, h: string, t: string, ids: set<uint64>, date: string, t': string)
    requires t in s.types && forall id :: id in ids ==>
               id in s.licenses && s.licenses[id].status == ACTIVE && s.licenses[id].typ == t
    ensures var s' := RevokeIds(s, h, t, ids, date);
            && WithStatus(s', t', ACTIVE) == WithStatus(s, t', ACTIVE) - (if t' == t then ids else {})
            && WithStatus(s', t', REVOKED) == WithStatus(s, t', REVOKED) + (if t' == t then ids else {})
  {
  }

  lemma RevokeCounts(s: State, h: string, t: string, ids: set<uint64>, date: string, t': string)
    requires IndexesOk(s) && t in s.types && ids <= Held(s, h, t)
    ensures var s' := RevokeIds(s, h, t, ids, date);
            && |WithStatus(s', t', ACTIVE)| == |WithStatus(s, t', ACTIVE)| - (if t' == t then |ids| else 0)
            && |WithStatus(s', t', REVOKED)| == |WithStatus(s, t', REVOKED)| + (if t' == t then |ids| else 0)
  {
    HeldAreActive(s, h, t, ids);
    RevokeStatuses(s, h, t, ids, date, t');
    hide RevokeIds;
    if t' == t {
      assert ids <= WithStatus(s, t, ACTIVE) && ids !! WithStatus(s, t, REVOKED);
    }
  }

  lemma RevokeIndexes(s: State, h: string, t: string, ids: set<uint64>, date: string)
    requires IndexesOk(s) && t in s.types && ids <= Held(s, h, t)
    ensures IndexesOk(RevokeIds(s, h, t, ids, date))
  {
    hide Held;
    HeldAreActive(s, h, t, ids);
    var s' := RevokeIds(s, h, t, ids, date);
    forall h', t', id
      ensures (h', t', id) in s'.byHolder <==>
              id in s'.licenses && s'.licenses[id].status == ACTIVE &&
              s'.licenses[id].holder == h' && s'.licenses[id].typ == t'
    {
      assert (h', t', id) in s'.byHolder <==> (h', t', id) in s.byHolder && !(h' == h && t' == t && id in ids);
    }
  }

  lemma RevokeCounters(s: State, h: string, t: string, ids: set<uint64>, date: string)
    requires IndexesOk(s) && CountersOk(s) && t in s.types && ids <= Held(s, h, t)
    ensures CountersOk(RevokeIds(s, h, t, ids, date))
  {
    hide IndexesOk, Held, WithStatus;
    var s' := RevokeIds(s, h, t, ids, date);
    forall t' | t' in s'.types
      ensures CounterOk(s', t')
    {
      assert CounterOk(s, t');
      RevokeCounts(s, h, t, ids, date, t');
    }
  }

  // Revoking licenses that the holder index lists keeps the invariant.
  lemma RevokeKeeps(s: State, h: string, t: string, ids: set<uint64>, date: string)
    requires Inv(s) && t in s.types && ids <= Held(s, h, t)
    ensures Inv(RevokeIds(s, h, t, ids, date))
  {
    hide IndexesOk, CountersOk, Held;
    RevokeIndexes(s, h, t, ids, date);
    RevokeCounters(s, h, t, ids, date);
  }

  // Everything but the revoked licenses, their index entries and the two counters stays;
  // a revoked license keeps its id, type, holder and dates, and stays listed by type.
  lemma RevokeFrame(s: State, h: string, t: string, ids: set<uint64>, date: string)
    requires Inv(s) && t in s.types && ids <= Held(s, h, t)
    ensures var s' := RevokeIds(s, h, t, ids, date);
            && s'.licenses.Keys == s.licenses.Keys && s'.byType == s.byType && s'.nextId == s.nextId
            && (forall id :: id in s.licenses && id !in ids ==> s'.licenses[id] == s.licenses[id])
            && (forall id :: id in ids ==>
                  id in s.licenses && s'.licenses[id] == s.licenses[id].(status := 2, revokedDate := date))
            && Held(s', h, t) == Held(s, h, t) - ids
            && (forall h', t' :: h' != h || t' != t ==> Held(s', h', t') == Held(s, h', t'))
            && (forall t' :: t' in s.types && t' != t ==> s'.types[t'] == s.types[t'])
  {
    var s' := RevokeIds(s, h, t, ids, date);
    HeldMembers(s, h, t);
    HeldMembers(s', h, t);
    forall h', t' | h' != h || t' != t
      ensures Held(s', h', t') == Held(s, h', t')
    {
      HeldMembers(s, h', t');
      HeldMembers(s', h', t');
    }
  }

  // ---- License types ----

  lemma CreateTypeKeeps(s: State, id: string, transferrable: bool, maxSupply: int)
    requires Inv(s) && id !in s.types
    ensures Inv(CreateType(s, id, transferrable, maxSupply))
  {
    var s' := CreateType(s, id, transferrable, maxSupply);
    forall t | t in s'.types
      ensures CounterOk(s', t)
    {
      assert t in s.types ==> CounterOk(s, t);
      assert WithStatus(s', t, ACTIVE) == WithStatus(s, t, ACTIVE);
      assert WithStatus(s', t, REVOKED) == WithStatus(s, t, REVOKED);
      if t == id {
        assert WithStatus(s, t, ACTIVE) == {} && WithStatus(s, t, REVOKED) == {};
      }
    }
  }

  lemma UpdateTypeKeeps(s: State, id: string, transferrable: bool)
    requires Inv(s) && id in s.types
    ensures Inv(UpdateType(s, id, transferrable))
  {
    var s' := UpdateType(s, id, transferrable);
    forall t | t in s'.types
      ensures CounterOk(s', t)
    {
      assert t in s.types ==> CounterOk(s, t);
      assert WithStatus(s', t, ACTIVE) == WithStatus(s, t, ACTIVE);
      assert WithStatus(s', t, REVOKED) == WithStatus(s, t, REVOKED);
    }
  }

  // Seeding keeps the invariant exactly when the ids stay below 2^64.
  lemma SeedExactly(s: State, holder: string, t: string, count: uint64)
    requires Inv(s)
    ensures Inv(Seed(s, holder, t, count)) <==> NextId(s) + count < TWO_64
  {
    var s0 := if t in s.types then s else CreateType(s, t, false, 0);
    if t !in s.types {
      CreateTypeKeeps(s, t, false, 0);
    }
    var e := SeedEntry(holder, t, count);
    IssueAllExactly(s0, [e]);
    assert [e][..0] == [];
    assert IssueAll(s0, [e]) == IssueEntry(s0, e);
    assert Total([e]) == Total([e][..0]) + count;
  }
}
