// Whole runs of the license module: any sequence of transactions from any good state.
module Runs {
  import opened GoInts
  import opened Results
  import opened Dates
  import opened LicenseStore
  import opened StoreLaws
  import opened Keeper
  import opened Genesis

  datatype Message =
    | Create(creator: string, id: string, transferrable: bool, maxSupply: Option<int>)
    | Update(sender: string, id: string, transferrable: bool)
    | Issue(issuer: string, entries: seq<Entry>)
    | Revoke(revoker: string, typ: string, holder: string, count: uint64, blockDate: string)

  // A message with the grants and the namespace owner of its moment.
  datatype Tx = Tx(msg: Message, grants: set<(string, string, string)>, owner: string)

  type Addresses = string -> bool

  function EnvOf(valid: Addresses, tx: Tx): Env {
    Env(valid, tx.grants, tx.owner)
  }

  // What one transaction does to the state: the handlers' outcome, nothing on an error.
  function Delivered(valid: Addresses, s: State, tx: Tx): State {
    var env := EnvOf(valid, tx);
    match tx.msg
    case Create(creator, id, transferrable, maxSupply) =>
      if CreateError(s, env, creator, id, maxSupply).Some? then s
      else CreateType(s, id, transferrable, maxSupply.value)
    case Update(sender, id, transferrable) =>
      if UpdateError(s, env, sender, id).Some? then s else UpdateType(s, id, transferrable)
    case Issue(issuer, entries) =>
      if IssueError(s, env, issuer, entries).Some? then s
      else
        AcceptedTypesKnown(s, entries);
        IssueAll(s, entries)
    case Revoke(revoker, t, h, count, date) =>
      if RevokeError(s, env, revoker, t, h, count).Some? then s
      else RevokeIds(s, h, t, SetOf(Newest(s, h, t, count)), date)
  }

  function Run(valid: Addresses, s: State, txs: seq<Tx>): State {
    if |txs| == 0 then s else Delivered(valid, Run(valid, s, txs[..|txs| - 1]), txs[|txs| - 1])
  }

  // How many ids a transaction takes: what an accepted batch asks for.
  function Taken(valid: Addresses, s: State, tx: Tx): nat {
    match tx.msg
    case Issue(issuer, entries) => if IssueError(s, EnvOf(valid, tx), issuer, entries).Some? then 0 else Total(entries)
    case _ => 0
  }

  function TotalTaken(valid: Addresses, s: State, txs: seq<Tx>): nat {
    if |txs| == 0 then 0
    else
      var init := txs[..|txs| - 1];
      TotalTaken(valid, s, init) + Taken(valid, Run(valid, s, init), txs[|txs| - 1])
  }

  // Revocations are stamped with the block date.
  ghost predicate Dated(tx: Tx) {
    tx.msg.Revoke? ==> ValidDate(tx.msg.blockDate)
  }

  // What is always true of the store.
  ghost predicate Good(valid: Addresses, s: State) {
    Inv(s) && Formatted(Env(valid, {}, ""), s)
  }

  // A type within its cap stays within it, and a new type starts within it.
  ghost predicate CapsKept(s: State, s': State) {
    forall t :: t in s'.types && (t in s.types ==> CapHolds(s, t)) ==> CapHolds(s', t)
  }

  ghost predicate Kept(s: State, s': State) {
    CapsKept(s, s') && (PositiveIds(s) ==> PositiveIds(s'))
  }

  // ---- The handlers run transactions ----

  // One message through its handler; the runtime keeps its writes only if it succeeds.
  method Deliver(k: Keeper, valid: Addresses, tx: Tx) returns (err: Option<MsgError>)
    modifies k
    ensures k.S() == Delivered(valid, old(k.S()), tx)
  {
    hide SetOf, Newest, StoredPrefix, Revoking, CreateError, UpdateError, IssueError, RevokeError;
    var s, env := k.S(), EnvOf(valid, tx);
    match tx.msg {
      case Create(creator, id, transferrable, maxSupply) =>
        err := k.CreateLicenseType(env, creator, id, transferrable, maxSupply);
      case Update(sender, id, transferrable) =>
        err := k.UpdateLicenseType(env, sender, id, transferrable);
      case Issue(issuer, entries) =>
        var ids;
        err, ids := k.IssueLicenses(env, issuer, entries);
      case Revoke(revoker, t, h, count, date) =>
        var ids;
        err, ids := k.RevokeLicenses(env, revoker, t, h, count, date);
    }
    if err.Some? {
      k.Restore(s);
    }
  }

  method DeliverAll(k: Keeper, valid: Addresses, txs: seq<Tx>)
    modifies k
    ensures k.S() == Run(valid, old(k.S()), txs)
  {
    hide Delivered;
    ghost var s := k.S();
    for i := 0 to |txs|
      invariant k.S() == Run(valid, s, txs[..i])
    {
      assert txs[..i + 1][..i] == txs[..i];
      var _ := Deliver(k, valid, txs[i]);
    }
    assert txs[..|txs|] == txs;
  }

  // ---- One transaction ----

  lemma IssueKeepsFormat(env: Env, s: State, e: Entry)
    requires Inv(s) && Formatted(env, s) && e.typ in s.types && NextId(s) + e.count < TWO_64
    requires env.validAddress(e.holder) && ValidDates(e.startDate, e.endDate)
    ensures Formatted(env, IssueEntry(s, e))
  {
    IssueManyAdds(s, e, e.count);
    var s' := IssueEntry(s, e);
    forall id | id in s'.licenses
      ensures FormattedLicense(env, s'.licenses[id])
    {
      if id !in FreshIds(NextId(s), e.count) {
        assert s'.licenses[id] == s.licenses[id];
      }
    }
  }

  lemma {:induction false} IssueAllKeepsFormat(env: Env, s: State, es: seq<Entry>)
    requires Inv(s) && Formatted(env, s) && TypesKnown(s, es) && NextId(s) + Total(es) < TWO_64
    requires forall i :: 0 <= i < |es| ==> env.validAddress(es[i].holder) && ValidDates(es[i].startDate, es[i].endDate)
    ensures Formatted(env, IssueAll(s, es))
  {
    hide Inv, Formatted, IssueMany, ValidDates;
    if |es| > 0 {
      var init := es[..|es| - 1];
      IssueAllKeepsFormat(env, s, init);
      IssueAllExactly(s, init);
      NextIdAfter(s, init);
      IssueKeepsFormat(env, IssueAll(s, init), es[|es| - 1]);
    }
  }

  lemma IssueDelivery(valid: Addresses, s: State, tx: Tx)
    requires Good(valid, s) && tx.msg.Issue? && NextId(s) + Taken(valid, s, tx) < TWO_64
    ensures Good(valid, Delivered(valid, s, tx)) && NextId(Delivered(valid, s, tx)) == NextId(s) + Taken(valid, s, tx)
    ensures Kept(s, Delivered(valid, s, tx))
  {
    hide Inv, Formatted, PositiveIds, CapHolds, IssueAll;
    var es, env := tx.msg.entries, EnvOf(valid, tx);
    if IssueError(s, env, tx.msg.issuer, es) == None {
      AcceptedTypesKnown(s, es);
      IssueAccepted(s, env, tx.msg.issuer, es);
      InvNext(s);
      IssueAllExactly(s, es);
      NextIdAfter(s, es);
      IssueAllKeepsFormat(Env(valid, {}, ""), s, es);
      RunningTotalsSuffice(s, es);
      IssueAllKeepsCaps(s, es);
      if PositiveIds(s) {
        IssueAllPositive(s, es);
      }
    }
  }

  lemma InvNext(s: State)
    requires Inv(s)
    ensures NextId(s) >= 1
  {
  }

  lemma RevokeDelivery(valid: Addresses, s: State, tx: Tx)
    requires Good(valid, s) && tx.msg.Revoke? && Dated(tx)
    ensures Good(valid, Delivered(valid, s, tx)) && NextId(Delivered(valid, s, tx)) == NextId(s)
    ensures Kept(s, Delivered(valid, s, tx))
  {
    hide Inv, Held, Newest, SetOf, StoredPrefix, RevokeIds, Formatted, CapHolds, PositiveIds, HasPermission;
    var t, h, count, date := tx.msg.typ, tx.msg.holder, tx.msg.count, tx.msg.blockDate;
    if RevokeError(s, EnvOf(valid, tx), tx.msg.revoker, t, h, count) == None {
      NewestCharacterised(s, h, t, count);
      var ids := SetOf(Newest(s, h, t, count));
      RevokeKeeps(s, h, t, ids, date);
      RevokeKeepsFormat(Env(valid, {}, ""), s, h, t, ids, date);
      RevokeKeepsCaps(s, h, t, ids, date);
    }
  }

  lemma RevokeKeepsCaps(s: State, h: string, t: string, ids: set<uint64>, date: string)
    requires t in s.types
    ensures Kept(s, RevokeIds(s, h, t, ids, date)) && NextId(RevokeIds(s, h, t, ids, date)) == NextId(s)
  {
  }

  lemma RevokeKeepsFormat(env: Env, s: State, h: string, t: string, ids: set<uint64>, date: string)
    requires Formatted(env, s) && t in s.types && ValidDate(date)
    ensures Formatted(env, RevokeIds(s, h, t, ids, date))
  {
    hide ValidDate, ValidDates;
    var s' := RevokeIds(s, h, t, ids, date);
    forall id | id in s'.licenses
      ensures FormattedLicense(env, s'.licenses[id])
    {
      assert FormattedLicense(env, s.licenses[id]);
    }
  }

  lemma TypeDelivery(valid: Addresses, s: State, tx: Tx)
    requires Good(valid, s) && (tx.msg.Create? || tx.msg.Update?)
    ensures Good(valid, Delivered(valid, s, tx)) && NextId(Delivered(valid, s, tx)) == NextId(s)
    ensures Kept(s, Delivered(valid, s, tx))
  {
    hide Inv, FormattedLicense;
    var env := EnvOf(valid, tx);
    match tx.msg
    case Create(creator, id, transferrable, maxSupply) =>
      if CreateError(s, env, creator, id, maxSupply) == None {
        CreateTypeKeeps(s, id, transferrable, maxSupply.value);
      }
    case Update(sender, id, transferrable) =>
      if UpdateError(s, env, sender, id) == None {
        UpdateTypeKeeps(s, id, transferrable);
      }
  }

  lemma DeliveryKeeps(valid: Addresses, s: State, tx: Tx)
    requires Good(valid, s) && Dated(tx) && NextId(s) + Taken(valid, s, tx) < TWO_64
    ensures Good(valid, Delivered(valid, s, tx)) && NextId(Delivered(valid, s, tx)) == NextId(s) + Taken(valid, s, tx)
    ensures Kept(s, Delivered(valid, s, tx))
  {
    hide Good, Delivered, Kept;
    match tx.msg
    case Create(_, _, _, _) => TypeDelivery(valid, s, tx);
    case Update(_, _, _) => TypeDelivery(valid, s, tx);
    case Issue(_, _) => IssueDelivery(valid, s, tx);
    case Revoke(_, _, _, _, _) => RevokeDelivery(valid, s, tx);
  }

  // A transaction keeps the invariant exactly when the ids it takes stay below 2^64.
  lemma DeliveryExactly(valid: Addresses, s: State, tx: Tx)
    requires Good(valid, s) && Dated(tx)
    ensures Inv(Delivered(valid, s, tx)) <==> NextId(s) + Taken(valid, s, tx) < TWO_64
  {
    if NextId(s) + Taken(valid, s, tx) < TWO_64 {
      hide Inv, Formatted, Delivered, Taken;
      DeliveryKeeps(valid, s, tx);
    } else {
      hide Inv, Formatted, IssueAll, SupplyError, EntriesError;
      var es := tx.msg.entries;
      AcceptedTypesKnown(s, es);
      IssueAllExactly(s, es);
    }
  }

  // A valid genesis whose next id is the last one, and a batch of one license that is
  // accepted: it takes the last id and leaves the sequence at 0.
  lemma LastIdBreaksTheInvariant(env: Env, issuer: string, holder: string)
    requires env.validAddress(holder) && (issuer, PERMISSION_ISSUE, "t") in env.grants
    ensures var g := Genesis.GenesisRecords([TypeRecord("t", false, 0, 0, 0, 0)], [], TWO_64 - 1);
            var s, e := Load(EMPTY, g), Entry("t", holder, "2026-01-01", "", 1);
            && ValidGenesis(env, g) && IssueError(s, env, issuer, [e]) == None
            && TypesKnown(s, [e]) && !Inv(IssueAll(s, [e]))
  {
    var g := Genesis.GenesisRecords([TypeRecord("t", false, 0, 0, 0, 0)], [], TWO_64 - 1);
    var s, e := Load(EMPTY, g), Entry("t", holder, "2026-01-01", "", 1);
    SampleDate();
    assert Total([e][..0]) == 0;
    ImportEstablishes(env, g);
    OneTypeLoaded(g);
    IssueAccepted(s, env, issuer, [e]);
    IssueAllExactly(s, [e]);
  }

  lemma OneTypeLoaded(g: Genesis.GenesisRecords)
    requires |g.licenseTypes| == 1 && g.licenses == []
    ensures Load(EMPTY, g).types == map[g.licenseTypes[0].id := g.licenseTypes[0]]
    ensures NextId(Load(EMPTY, g)) == g.nextLicenseId
  {
    assert LoadTypes(EMPTY, g.licenseTypes[..0]) == EMPTY;
  }

  // No message changes the store without the right it needs at that moment: the grants of the
  // module and of each license type named, or the ownership of the namespace.
  lemma DeliveryAuthorised(valid: Addresses, s: State, tx: Tx)
    requires Delivered(valid, s, tx) != s
    ensures match tx.msg {
              case Create(creator, _, _, _) => (creator, "type.create", "") in tx.grants
              case Update(sender, _, _) => sender == tx.owner
              case Issue(issuer, entries) =>
                forall i :: 0 <= i < |entries| ==> (issuer, "issue", entries[i].typ) in tx.grants
              case Revoke(revoker, t, _, _, _) => (revoker, "revoke", t) in tx.grants
            }
  {
    hide IssueAll, RevokeIds, CreateType, UpdateType, Newest, StoredPrefix, SetOf, Held;
    if tx.msg.Issue? {
      IssueAccepted(s, EnvOf(valid, tx), tx.msg.issuer, tx.msg.entries);
      assert forall i :: 0 <= i < |tx.msg.entries| ==> EntryOk(EnvOf(valid, tx), tx.msg.issuer, tx.msg.entries[i]);
    }
  }

  // What each message does, and when: the conditions in full, on the grants of its moment.

  lemma CreateOutcome(valid: Addresses, s: State, tx: Tx)
    requires tx.msg.Create?
    ensures var id, cap := tx.msg.id, tx.msg.maxSupply;
            Delivered(valid, s, tx) ==
            if (tx.msg.creator, "type.create", "") in tx.grants && id != "" && id !in s.types && cap.Some? && cap.value >= 0
            then s.(types := s.types[id := TypeRecord(id, tx.msg.transferrable, cap.value, 0, 0, 0)])
            else s
  {
    CreateAccepted(s, EnvOf(valid, tx), tx.msg.creator, tx.msg.id, tx.msg.maxSupply);
  }

  lemma UpdateOutcome(valid: Addresses, s: State, tx: Tx)
    requires tx.msg.Update?
    ensures var id := tx.msg.id;
            Delivered(valid, s, tx) ==
            if tx.msg.sender == tx.owner && id in s.types
            then s.(types := s.types[id := s.types[id].(transferrable := tx.msg.transferrable)])
            else s
  {
    UpdateAccepted(s, EnvOf(valid, tx), tx.msg.sender, tx.msg.id);
  }

  lemma IssueOutcome(valid: Addresses, s: State, tx: Tx)
    requires tx.msg.Issue?
    ensures var es := tx.msg.entries;
            var accepted :=
              && 1 <= |es| <= 100
              && (forall i :: 0 <= i < |es| ==>
                    && valid(es[i].holder) && ValidDates(es[i].startDate, es[i].endDate) && es[i].count > 0
                    && (tx.msg.issuer, "issue", es[i].typ) in tx.grants && EntrySupplyOk(s, es, es[i].typ));
            && (accepted ==> TypesKnown(s, es))
            && Delivered(valid, s, tx) == if accepted then IssueAll(s, es) else s
  {
    hide IssueAll, ValidDates;
    var es, env := tx.msg.entries, EnvOf(valid, tx);
    IssueAccepted(s, env, tx.msg.issuer, es);
    assert (forall i :: 0 <= i < |es| ==> EntryOk(env, tx.msg.issuer, es[i])) <==>
        forall i :: 0 <= i < |es| ==>
          && valid(es[i].holder) && ValidDates(es[i].startDate, es[i].endDate) && es[i].count > 0
          && (tx.msg.issuer, "issue", es[i].typ) in tx.grants;
  }

  lemma RevokeOutcome(valid: Addresses, s: State, tx: Tx)
    requires Inv(s) && tx.msg.Revoke?
    ensures var t, h, count := tx.msg.typ, tx.msg.holder, tx.msg.count;
            var accepted := (tx.msg.revoker, "revoke", t) in tx.grants && 1 <= count <= |ActiveLicenses(s, h, t)|;
            && (accepted ==> count <= |Held(s, h, t)| && t in s.types)
            && Delivered(valid, s, tx) ==
               if accepted then RevokeIds(s, h, t, SetOf(Newest(s, h, t, count)), tx.msg.blockDate) else s
  {
    hide RevokeIds, Newest, StoredPrefix, SetOf, Held, ActiveLicenses, Inv;
    var t, h, count := tx.msg.typ, tx.msg.holder, tx.msg.count;
    RevokeAccepted(s, EnvOf(valid, tx), tx.msg.revoker, t, h, count);
    HeldIsActive(s, h, t);
  }

  // ---- Whole runs ----

  // Every reachable state is good, no cap is ever exceeded, and the next id has moved by
  // exactly the ids taken, for any messages in any order under any changing grants.
  lemma {:induction false} RunKeeps(valid: Addresses, s: State, txs: seq<Tx>)
    requires Good(valid, s) && NextId(s) + TotalTaken(valid, s, txs) < TWO_64
    requires forall i :: 0 <= i < |txs| ==> Dated(txs[i])
    ensures Good(valid, Run(valid, s, txs)) && NextId(Run(valid, s, txs)) == NextId(s) + TotalTaken(valid, s, txs)
    ensures Kept(s, Run(valid, s, txs)) && (Capped(s) ==> Capped(Run(valid, s, txs)))
  {
    hide Good, Delivered, CapHolds, PositiveIds, Taken, Dated;
    if |txs| > 0 {
      RunKeeps(valid, s, txs[..|txs| - 1]);
      DeliveryKeeps(valid, Run(valid, s, txs[..|txs| - 1]), txs[|txs| - 1]);
    }
  }

  // The invariant holds all along a run exactly when the run does not use up the ids.
  lemma {:induction false} RunExactly(valid: Addresses, s: State, txs: seq<Tx>)
    requires Good(valid, s) && forall i :: 0 <= i < |txs| ==> Dated(txs[i])
    ensures (forall k :: 0 <= k <= |txs| ==> Inv(Run(valid, s, txs[..k])))
            <==> NextId(s) + TotalTaken(valid, s, txs) < TWO_64
  {
    hide Delivered, Inv, Formatted, Taken, Dated, NextId;
    if |txs| == 0 {
      assert Run(valid, s, txs) == s && txs[..0] == txs;
    } else {
      var init, last := txs[..|txs| - 1], txs[|txs| - 1];
      RunExactly(valid, s, init);
      assert forall k :: 0 <= k <= |init| ==> init[..k] == txs[..k];
      assert txs[..|txs|] == txs;
      if NextId(s) + TotalTaken(valid, s, init) < TWO_64 {
        RunKeeps(valid, s, init);
        DeliveryExactly(valid, Run(valid, s, init), last);
      }
    }
  }

  // From any valid genesis, any run that does not use up the ids ends in a state that can be
  // exported, passes validation, and comes back unchanged.
  lemma RunExportsAndReimports(env: Env, g: GenesisRecords, txs: seq<Tx>)
    requires ValidGenesis(env, g) && g.nextLicenseId + TotalTaken(env.validAddress, Load(EMPTY, g), txs) < TWO_64
    requires forall i :: 0 <= i < |txs| ==> Dated(txs[i])
    ensures var s := Run(env.validAddress, Load(EMPTY, g), txs);
            Inv(s) && ValidGenesis(env, Export(s)) && Load(EMPTY, Export(s)) == s.(nextId := Some(NextId(s)))
  {
    hide Inv, ValidGenesis, Dated, Run, Export, FormattedLicense, TotalTaken;
    var s0 := Load(EMPTY, g);
    ImportEstablishes(env, g);
    FormatNeedsAddresses(env, s0);
    RunKeeps(env.validAddress, s0, txs);
    FormatNeedsAddresses(env, Run(env.validAddress, s0, txs));
    ExportImport(env, Run(env.validAddress, s0, txs));
  }

  lemma FormatNeedsAddresses(env: Env, s: State)
    ensures Formatted(env, s) <==> Formatted(Env(env.validAddress, {}, ""), s)
  {
    hide ValidDate, ValidDates;
    var env' := Env(env.validAddress, {}, "");
    assert forall id :: id in s.licenses ==>
        (FormattedLicense(env, s.licenses[id]) <==> FormattedLicense(env', s.licenses[id]));
  }

  // What every stored license looks like in a good state: active without a revoked date or
  // revoked with one, held by an address, started and ended on days of the calendar.
  lemma GoodRecords(valid: Addresses, s: State, id: uint64)
    requires Good(valid, s) && id in s.licenses
    ensures var l := s.licenses[id];
            && l.id == id && l.typ in s.types && valid(l.holder)
            && ((l.status == 1 && l.revokedDate == "") || (l.status == 2 && CalendarDate(l.revokedDate)))
            && CalendarDate(l.startDate) && (l.endDate == "" || CalendarDate(l.endDate))
  {
    hide ValidDate, CalendarDate;
    var l := s.licenses[id];
    assert FormattedLicense(Env(valid, {}, ""), l);
    CalendarExactly(l.startDate);
    CalendarExactly(l.endDate);
    CalendarExactly(l.revokedDate);
  }

  // ---- Records over a run ----

  // The second license is the first one, untouched or revoked since.
  ghost predicate Follows(l: LicenseRecord, l': LicenseRecord) {
    l' == l || (l.status == ACTIVE && l'.status == REVOKED && l' == l.(status := REVOKED, revokedDate := l'.revokedDate))
  }

  // No id is ever taken back or given to another license; a license keeps its type, holder
  // and dates; a revoked license stays exactly as it is; the sequence does not go back.
  ghost predicate History(s: State, s': State) {
    && (forall id :: id in s.licenses ==> id in s'.licenses && Follows(s.licenses[id], s'.licenses[id]))
    && NextId(s) <= NextId(s')
    && s.types.Keys <= s'.types.Keys
    && (forall t :: t in s.types ==> s'.types[t].maxSupply == s.types[t].maxSupply)
  }

  lemma HistoryTransitive(s: State, s': State, s'': State)
    requires History(s, s') && History(s', s'')
    ensures History(s, s'')
  {
    forall id | id in s.licenses
      ensures id in s''.licenses && Follows(s.licenses[id], s''.licenses[id])
    {
      assert Follows(s.licenses[id], s'.licenses[id]) && Follows(s'.licenses[id], s''.licenses[id]);
    }
  }

  lemma {:induction false} IssueAllHistory(s: State, es: seq<Entry>)
    requires Inv(s) && TypesKnown(s, es) && NextId(s) + Total(es) < TWO_64
    ensures History(s, IssueAll(s, es))
  {
    hide IssueMany, WithStatus;
    if |es| > 0 {
      var init, e := es[..|es| - 1], es[|es| - 1];
      var s1 := IssueAll(s, init);
      IssueAllHistory(s, init);
      IssueAllExactly(s, init);
      NextIdAfter(s, init);
      NextIdAfter(s, es);
      IssueEntryFrame(s1, e);
      assert History(s1, IssueEntry(s1, e));
      HistoryTransitive(s, s1, IssueEntry(s1, e));
    }
  }

  lemma RevokeHistory(s: State, h: string, t: string, ids: set<uint64>, date: string)
    requires Inv(s) && t in s.types && ids <= Held(s, h, t)
    ensures History(s, RevokeIds(s, h, t, ids, date))
  {
    HeldAreActive(s, h, t, ids);
  }

  lemma DeliveryHistory(valid: Addresses, s: State, tx: Tx)
    requires Inv(s) && NextId(s) + Taken(valid, s, tx) < TWO_64
    ensures History(s, Delivered(valid, s, tx))
  {
    hide Held, Newest, SetOf, Inv, IssueAll, RevokeIds;
    var env := EnvOf(valid, tx);
    match tx.msg
    case Create(creator, id, transferrable, maxSupply) =>
    case Update(sender, id, transferrable) =>
    case Issue(issuer, entries) =>
      if IssueError(s, env, issuer, entries) == None {
        AcceptedTypesKnown(s, entries);
        IssueAllHistory(s, entries);
      }
    case Revoke(revoker, t, h, count, date) =>
      if RevokeError(s, env, revoker, t, h, count) == None {
        NewestCharacterised(s, h, t, count);
        RevokeHistory(s, h, t, SetOf(Newest(s, h, t, count)), date);
      }
  }

  // Whatever is issued is there for good, under its own id, and revocation is final.
  lemma {:induction false} RunHistory(valid: Addresses, s: State, txs: seq<Tx>)
    requires Good(valid, s) && NextId(s) + TotalTaken(valid, s, txs) < TWO_64
    requires forall i :: 0 <= i < |txs| ==> Dated(txs[i])
    ensures History(s, Run(valid, s, txs))
  {
    hide Delivered, Taken, Dated, Inv, Formatted, Follows;
    if |txs| > 0 {
      var init := txs[..|txs| - 1];
      RunHistory(valid, s, init);
      RunKeeps(valid, s, init);
      DeliveryHistory(valid, Run(valid, s, init), txs[|txs| - 1]);
      HistoryTransitive(s, Run(valid, s, init), Run(valid, s, txs));
    } else {
      SelfHistory(s);
    }
  }

  lemma SelfHistory(s: State)
    ensures History(s, s)
  {
  }

  // A type keeps the cap it was created with, and no later run leaves it with more active
  // licenses than that.
  lemma CreatedCapHolds(valid: Addresses, s: State, tx: Tx, txs: seq<Tx>)
    requires Good(valid, s) && forall i :: 0 <= i < |txs| ==> Dated(txs[i])
    requires tx.msg.Create?
    requires CreateError(s, EnvOf(valid, tx), tx.msg.creator, tx.msg.id, tx.msg.maxSupply) == None
    requires NextId(s) + TotalTaken(valid, Delivered(valid, s, tx), txs) < TWO_64
    ensures tx.msg.maxSupply.Some?
    ensures var cap, s' := tx.msg.maxSupply.value, Run(valid, Delivered(valid, s, tx), txs);
            && tx.msg.id in s'.types && s'.types[tx.msg.id].maxSupply == cap
            && (cap != 0 ==> |WithStatus(s', tx.msg.id, 1)| <= cap)
  {
    hide Inv, Formatted, Run, TotalTaken, WithStatus, Dated, HasPermission;
    var s1 := Delivered(valid, s, tx);
    TypeDelivery(valid, s, tx);
    RunKeeps(valid, s1, txs);
    RunHistory(valid, s1, txs);
    assert CapHolds(s1, tx.msg.id);
    ActiveCounted(Run(valid, s1, txs), tx.msg.id);
  }

  lemma ActiveCounted(s: State, t: string)
    requires Inv(s) && t in s.types
    ensures s.types[t].activeCount == |WithStatus(s, t, 1)|
  {
    assert CounterOk(s, t);
  }
}
