// The querier: each query is one full scan over a key prefix, in key order, mapping every
// key to its license.
module Queries {
  import opened GoInts
  import opened Order
  import opened LicenseStore
  import opened StoreLaws

  datatype QueryResult<+T> = Found(value: T) | NotFound

  // ---- The queries ----

  // Licenses.Get for every id, failing on the first that is missing.
  function GetAll(s: State, ids: seq<uint64>): QueryResult<seq<LicenseRecord>> {
    if |ids| == 0 then Found([])
    else if ids[0] !in s.licenses then NotFound
    else match GetAll(s, ids[1..])
      case NotFound => NotFound
      case Found(ls) => Found([s.licenses[ids[0]]] + ls)
  }

  // Every license, in ascending id order.
  function Licenses(s: State): seq<LicenseRecord> {
    GetAllStored(s, Ascending(s.licenses.Keys))
  }

  function GetAllStored(s: State, ids: seq<uint64>): (r: seq<LicenseRecord>)
    requires forall id :: id in ids ==> id in s.licenses
    ensures |r| == |ids| && forall j :: 0 <= j < |r| ==> r[j] == s.licenses[ids[j]]
  {
    seq(|ids|, j requires 0 <= j < |ids| => s.licenses[ids[j]])
  }

  function TypeIds(s: State, t: string): set<uint64> {
    set k | k in s.byType && k.0 == t :: k.1
  }

  function HolderKeys(s: State, h: string): set<(string, uint64)> {
    set k | k in s.byHolder && k.0 == h :: (k.1, k.2)
  }

  function SecondOf(keys: seq<(string, uint64)>): (r: seq<uint64>)
    ensures |r| == |keys| && forall j :: 0 <= j < |r| ==> r[j] == keys[j].1
  {
    seq(|keys|, j requires 0 <= j < |keys| => keys[j].1)
  }

  function LicensesByType(s: State, t: string): QueryResult<seq<LicenseRecord>> {
    GetAll(s, Ascending(TypeIds(s, t)))
  }

  function LicensesByHolderAndType(s: State, h: string, t: string): QueryResult<seq<LicenseRecord>> {
    GetAll(s, Ascending(Held(s, h, t)))
  }

  // The keys of one holder in key order: by type id, then by license id.
  function LicensesByHolder(s: State, h: string): QueryResult<seq<LicenseRecord>> {
    StringOrders();
    GetAll(s, SecondOf(Sort(PairLess, HolderKeys(s, h))))
  }

  // ---- The plain filter they must agree with ----

  datatype Criterion = OfType(t: string) | ActiveOf(h: string, t: string) | ActiveHeldBy(h: string)

  predicate Selects(c: Criterion, l: LicenseRecord) {
    match c
    case OfType(t) => l.typ == t
    case ActiveOf(h, t) => l.status == ACTIVE && l.holder == h && l.typ == t
    case ActiveHeldBy(h) => l.status == ACTIVE && l.holder == h
  }

  function Filter(c: Criterion, ls: seq<LicenseRecord>): seq<LicenseRecord> {
    if |ls| == 0 then []
    else (if Selects(c, ls[0]) then [ls[0]] else []) + Filter(c, ls[1..])
  }

  // ---- Index queries refine filters ----

  lemma {:induction false} GetAllSucceeds(s: State, ids: seq<uint64>)
    requires forall id :: id in ids ==> id in s.licenses
    ensures GetAll(s, ids) == Found(GetAllStored(s, ids))
  {
    if |ids| > 0 {
      GetAllSucceeds(s, ids[1..]);
      assert GetAllStored(s, ids) == [s.licenses[ids[0]]] + GetAllStored(s, ids[1..]);
    }
  }

  // The ids that the filter keeps.
  function FilterIds(s: State, c: Criterion, ids: seq<uint64>): (r: seq<uint64>)
    requires forall id :: id in ids ==> id in s.licenses
    ensures forall id :: id in r <==> id in ids && Selects(c, s.licenses[id])
  {
    if |ids| == 0 then []
    else (if Selects(c, s.licenses[ids[0]]) then [ids[0]] else []) + FilterIds(s, c, ids[1..])
  }

  lemma {:induction false} FilterIdsSorted(s: State, c: Criterion, ids: seq<uint64>)
    requires Sorted(IdLess, ids) && forall id :: id in ids ==> id in s.licenses
    ensures Sorted(IdLess, FilterIds(s, c, ids))
  {
    if |ids| > 0 {
      FilterIdsSorted(s, c, ids[1..]);
      var rest := FilterIds(s, c, ids[1..]);
      forall j | 0 <= j < |rest|
        ensures IdLess(ids[0], rest[j])
      {
        assert rest[j] in ids[1..];
      }
    }
  }

  lemma {:induction false} FilterIdsFilters(s: State, c: Criterion, ids: seq<uint64>)
    requires forall id :: id in ids ==> id in s.licenses
    ensures GetAllStored(s, FilterIds(s, c, ids)) == Filter(c, GetAllStored(s, ids))
  {
    hide GetAllStored;
    if |ids| > 0 {
      var rest := FilterIds(s, c, ids[1..]);
      FilterIdsFilters(s, c, ids[1..]);
      StoredCons(s, ids[0], ids[1..]);
      assert ids == [ids[0]] + ids[1..];
      if Selects(c, s.licenses[ids[0]]) {
        StoredCons(s, ids[0], rest);
      }
      assert FilterIds(s, c, ids) == if Selects(c, s.licenses[ids[0]]) then [ids[0]] + rest else rest;
    }
  }

  lemma StoredCons(s: State, id: uint64, ids: seq<uint64>)
    requires id in s.licenses && forall i :: i in ids ==> i in s.licenses
    ensures GetAllStored(s, [id] + ids) == [s.licenses[id]] + GetAllStored(s, ids)
    ensures GetAllStored(s, [id] + ids)[1..] == GetAllStored(s, ids)
  {
  }

  // An ascending scan over exactly the selected ids is the filter of all licenses.
  lemma ScanIsFilter(s: State, c: Criterion, ids: set<uint64>)
    requires forall id :: id in ids <==> id in s.licenses && Selects(c, s.licenses[id])
    ensures GetAll(s, Ascending(ids)) == Found(Filter(c, Licenses(s)))
  {
    var all := Ascending(s.licenses.Keys);
    FilterIdsSorted(s, c, all);
    IdOrders();
    SortedUnique(IdLess, Ascending(ids), FilterIds(s, c, all));
    FilterIdsFilters(s, c, all);
    GetAllSucceeds(s, Ascending(ids));
  }

  // All statuses by type, in ascending id order, never failing on a missing license.
  lemma ByTypeIsFilter(s: State, t: string)
    requires Inv(s)
    ensures LicensesByType(s, t) == Found(Filter(OfType(t), Licenses(s)))
  {
    forall id
      ensures id in TypeIds(s, t) <==> id in s.licenses && Selects(OfType(t), s.licenses[id])
    {
      if (t, id) in s.byType {
        var k := (t, id);
        assert k in s.byType && k.0 == t;
      }
    }
    ScanIsFilter(s, OfType(t), TypeIds(s, t));
  }

  lemma HeldAreSelected(s: State, h: string, t: string)
    requires Inv(s)
    ensures forall id :: id in Held(s, h, t) <==> id in s.licenses && Selects(ActiveOf(h, t), s.licenses[id])
  {
    HeldMembers(s, h, t);
    forall id
      ensures id in Held(s, h, t) <==> id in s.licenses && Selects(ActiveOf(h, t), s.licenses[id])
    {
      assert (h, t, id) in s.byHolder <==> id in Held(s, h, t);
    }
  }

  // Active only, by holder and type.
  lemma ByHolderAndTypeIsFilter(s: State, h: string, t: string)
    requires Inv(s)
    ensures LicensesByHolderAndType(s, h, t) == Found(Filter(ActiveOf(h, t), Licenses(s)))
  {
    HeldAreSelected(s, h, t);
    ScanIsFilter(s, ActiveOf(h, t), Held(s, h, t));
  }

  // The holder's active part of a type is the active, same-holder part of that type.
  lemma {:induction false} ActivePartOfType(h: string, t: string, ls: seq<LicenseRecord>)
    ensures Filter(ActiveOf(h, t), ls) == Filter(ActiveHeldBy(h), Filter(OfType(t), ls))
  {
    if |ls| > 0 {
      ActivePartOfType(h, t, ls[1..]);
      var rest := Filter(OfType(t), ls[1..]);
      assert ([ls[0]] + rest)[1..] == rest && [] + rest == rest;
    }
  }

  // ---- Partition: a holder's licenses are the per-type results, type by type ----

  // The keys (t, id) that ActiveLicensesByHolder lists for h, one type after another.
  function KeysByType(s: State, h: string, types: seq<string>): (r: seq<(string, uint64)>)
  {
    if |types| == 0 then []
    else Pairs(types[0], Ascending(Held(s, h, types[0]))) + KeysByType(s, h, types[1..])
  }

  function Pairs(t: string, ids: seq<uint64>): (r: seq<(string, uint64)>)
    ensures |r| == |ids| && forall j :: 0 <= j < |r| ==> r[j] == (t, ids[j])
  {
    seq(|ids|, j requires 0 <= j < |ids| => (t, ids[j]))
  }

  lemma {:induction false} KeysByTypeMembers(s: State, h: string, types: seq<string>)
    ensures forall t, id :: (t, id) in KeysByType(s, h, types) <==> t in types && id in Held(s, h, t)
  {
    if |types| > 0 {
      KeysByTypeMembers(s, h, types[1..]);
      var ids := Ascending(Held(s, h, types[0]));
      forall t, id
        ensures (t, id) in KeysByType(s, h, types) <==> t in types && id in Held(s, h, t)
      {
        PairsMembers(types[0], ids, t, id);
        assert t in types <==> t == types[0] || t in types[1..];
      }
    }
  }

  lemma PairsMembers(t0: string, ids: seq<uint64>, t: string, id: uint64)
    ensures (t, id) in Pairs(t0, ids) <==> t == t0 && id in ids
  {
    if id in ids {
      var j :| 0 <= j < |ids| && ids[j] == id;
      assert Pairs(t0, ids)[j] == (t0, id);
    }
  }

  lemma {:induction false} KeysByTypeSorted(s: State, h: string, types: seq<string>)
    requires Sorted(StringLess, types)
    ensures Sorted(PairLess, KeysByType(s, h, types))
  {
    if |types| > 0 {
      KeysByTypeSorted(s, h, types[1..]);
      KeysByTypeMembers(s, h, types[1..]);
      var first, rest := Pairs(types[0], Ascending(Held(s, h, types[0]))), KeysByType(s, h, types[1..]);
      assert Sorted(PairLess, first) by {
        forall i, j | 0 <= i < j < |first|
          ensures PairLess(first[i], first[j])
        {
          assert IdLess(Ascending(Held(s, h, types[0]))[i], Ascending(Held(s, h, types[0]))[j]);
        }
      }
      forall i, j | 0 <= i < |first| && 0 <= j < |rest|
        ensures PairLess(first[i], rest[j])
      {
        assert (rest[j].0, rest[j].1) in rest;
        var k :| 0 <= k < |types[1..]| && types[1..][k] == rest[j].0;
        assert StringLess(types[0], types[k + 1]);
      }
      SortedConcat(first, rest);
    }
  }

  lemma SortedConcat(a: seq<(string, uint64)>, b: seq<(string, uint64)>)
    requires Sorted(PairLess, a) && Sorted(PairLess, b)
    requires forall i, j :: 0 <= i < |a| && 0 <= j < |b| ==> PairLess(a[i], b[j])
    ensures Sorted(PairLess, a + b)
  {
  }

  // The per-type results over a list of types, one after another.
  function PerType(s: State, h: string, types: seq<string>): seq<LicenseRecord>
  {
    if |types| == 0 then []
    else Filter(ActiveOf(h, types[0]), Licenses(s)) + PerType(s, h, types[1..])
  }

  lemma {:induction false} KeysByTypeScan(s: State, h: string, types: seq<string>)
    requires Inv(s)
    ensures GetAll(s, SecondOf(KeysByType(s, h, types))) == Found(PerType(s, h, types))
  {
    hide Inv, Held, Ascending, Licenses, Filter, GetAll, Pairs;
    if |types| == 0 {
      assert SecondOf(KeysByType(s, h, types)) == [];
      GetNone(s, []);
    } else {
      var ids, rest := Ascending(Held(s, h, types[0])), KeysByType(s, h, types[1..]);
      KeysByTypeScan(s, h, types[1..]);
      ByHolderAndTypeIsFilter(s, h, types[0]);
      SecondOfPairs(types[0], ids, rest);
      GetAllConcat(s, ids, SecondOf(rest));
    }
  }

  lemma GetNone(s: State, ids: seq<uint64>)
    requires ids == []
    ensures GetAll(s, ids) == Found([])
  {
  }

  lemma SecondOfPairs(t: string, ids: seq<uint64>, rest: seq<(string, uint64)>)
    ensures SecondOf(Pairs(t, ids) + rest) == ids + SecondOf(rest)
  {
  }

  lemma {:induction false} GetAllConcat(s: State, a: seq<uint64>, b: seq<uint64>)
    ensures GetAll(s, a + b) ==
            if GetAll(s, a).NotFound? || GetAll(s, b).NotFound? then NotFound
            else Found(GetAll(s, a).value + GetAll(s, b).value)
  {
    if |a| == 0 {
      assert a + b == b;
      assert GetAll(s, b).Found? ==> [] + GetAll(s, b).value == GetAll(s, b).value;
    } else {
      GetAllConcat(s, a[1..], b);
      assert (a + b)[1..] == a[1..] + b;
      if a[0] in s.licenses && GetAll(s, a[1..]).Found? && GetAll(s, b).Found? {
        assert [s.licenses[a[0]]] + (GetAll(s, a[1..]).value + GetAll(s, b).value)
            == [s.licenses[a[0]]] + GetAll(s, a[1..]).value + GetAll(s, b).value;
      }
    }
  }

  // A full scan by holder is the per-type results of every license type, in type order.
  lemma ByHolderIsPartition(s: State, h: string)
    requires Inv(s)
    ensures StrictTotal(StringLess)
    ensures LicensesByHolder(s, h) == Found(PerType(s, h, Sort(StringLess, s.types.Keys)))
  {
    StringOrders();
    var types := Sort(StringLess, s.types.Keys);
    var scan, byType := Sort(PairLess, HolderKeys(s, h)), KeysByType(s, h, types);
    KeysByTypeSorted(s, h, types);
    KeysByTypeMembers(s, h, types);
    forall k
      ensures k in scan <==> k in byType
    {
      HolderKeysMembers(s, h, k.0, k.1);
      HeldAreSelected(s, h, k.0);
      assert k == (k.0, k.1);
      HeldMembers(s, h, k.0);
    }
    SortedUnique(PairLess, scan, byType);
    KeysByTypeScan(s, h, types);
  }

  lemma HolderKeysMembers(s: State, h: string, t: string, id: uint64)
    ensures (t, id) in HolderKeys(s, h) <==> (h, t, id) in s.byHolder
  {
    if (h, t, id) in s.byHolder {
      var k := (h, t, id);
      assert k in s.byHolder && k.0 == h;
    }
  }

  lemma {:induction false} FilterMembers(c: Criterion, ls: seq<LicenseRecord>, l: LicenseRecord)
    ensures l in Filter(c, ls) <==> l in ls && Selects(c, l)
  {
    if |ls| > 0 {
      FilterMembers(c, ls[1..], l);
      assert l in ls <==> l == ls[0] || l in ls[1..];
    }
  }

  // The results for two types have no license in common.
  lemma PerTypeDisjoint(h: string, t: string, t': string, ls: seq<LicenseRecord>, l: LicenseRecord)
    requires t != t' && l in Filter(ActiveOf(h, t), ls)
    ensures l !in Filter(ActiveOf(h, t'), ls)
  {
    FilterMembers(ActiveOf(h, t), ls, l);
    FilterMembers(ActiveOf(h, t'), ls, l);
  }

  lemma {:induction false} PerTypeMembers(s: State, h: string, types: seq<string>, l: LicenseRecord)
    ensures l in PerType(s, h, types) <==> l.typ in types && l in Licenses(s) && Selects(ActiveHeldBy(h), l)
  {
    if |types| > 0 {
      PerTypeMembers(s, h, types[1..], l);
      FilterMembers(ActiveOf(h, types[0]), Licenses(s), l);
      assert l.typ in types <==> l.typ == types[0] || l.typ in types[1..];
    }
  }

  // A full scan by holder returns exactly the active licenses of that holder, once each.
  lemma ByHolderSelects(s: State, h: string)
    requires Inv(s)
    ensures LicensesByHolder(s, h).Found?
    ensures forall l :: l in LicensesByHolder(s, h).value <==> l in Licenses(s) && Selects(ActiveHeldBy(h), l)
    ensures |LicensesByHolder(s, h).value| == |HolderKeys(s, h)|
    ensures var r := LicensesByHolder(s, h).value; forall i, j :: 0 <= i < j < |r| ==> r[i].id != r[j].id
  {
    hide Inv, LicensesByHolder, Licenses, PerType, Selects;
    ByHolderIsPartition(s, h);
    var types := Sort(StringLess, s.types.Keys);
    forall l
      ensures l in LicensesByHolder(s, h).value <==> l in Licenses(s) && Selects(ActiveHeldBy(h), l)
    {
      PerTypeMembers(s, h, types, l);
      StoredTypeKnown(s, l);
    }
    ScanDistinct(s, h);
  }

  lemma StoredTypeKnown(s: State, l: LicenseRecord)
    requires Inv(s)
    ensures l in Licenses(s) ==> l.typ in s.types
  {
  }

  lemma ScanDistinct(s: State, h: string)
    requires Inv(s)
    ensures LicensesByHolder(s, h).Found? && |LicensesByHolder(s, h).value| == |HolderKeys(s, h)|
    ensures var r := LicensesByHolder(s, h).value; forall i, j :: 0 <= i < j < |r| ==> r[i].id != r[j].id
  {
    StringOrders();
    var keys := Sort(PairLess, HolderKeys(s, h));
    var ids := SecondOf(keys);
    forall j | 0 <= j < |keys|
      ensures ids[j] in s.licenses && s.licenses[ids[j]].id == ids[j] && s.licenses[ids[j]].typ == keys[j].0
    {
      assert keys[j] in keys && keys[j] == (keys[j].0, keys[j].1);
      HolderKeysMembers(s, h, keys[j].0, keys[j].1);
    }
    GetAllSucceeds(s, ids);
    forall i, j | 0 <= i < j < |keys|
      ensures ids[i] != ids[j]
    {
      assert PairLess(keys[i], keys[j]);
    }
  }
}
