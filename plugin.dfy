/** The indexer itself: the visitor that records one operation for one
    account, the filtering visitor in front of it, and the dispatcher that
    runs them for every impacted account of a notification. */
module AccountHistoryPlugin {
  import opened Wrappers
  import opened AccountNames
  import opened AccountRanges
  import opened OperationFilter
  import opened Chain
  import opened AccountHistory
  import opened PluginConfig

  /** The account's history list, if it has one (`hist_idx.find`). */
  function HistoryOf(hist: map<AccountId, seq<OpId>>, a: AccountId): (h: Option<seq<OpId>>)
    ensures h.Some? <==> a in hist
    ensures h.Some? ==> h.value == hist[a]
  {
    if a in hist then Some(hist[a]) else None
  }

  /** The last entry of the account's history, if it has a non-empty one. */
  function LastEntry(hist: map<AccountId, seq<OpId>>, a: AccountId): (e: Option<OpId>)
    ensures e.Some? <==> a in hist && |hist[a]| > 0
    ensures e.Some? ==> e.value == hist[a][|hist[a]| - 1]
  {
    match HistoryOf(hist, a)
    case Some(h) => if |h| > 0 then Some(h[|h| - 1]) else None
    case None => None
  }

  /** What the visitor does to the database for one account: the shared
      record is created when the slot is still empty and reused otherwise;
      the account's history then records it. Returns the new contents and
      the filled slot. */
  function VisitResult(s: DbState, note: Notification, slot: Option<OpId>, account: AccountId, prune: bool)
    : (r: (DbState, Option<OpId>))
    ensures r.1.Some? && r.0.headTime == s.headTime
    ensures slot.Some? ==> r.1 == slot && r.0.ops == s.ops && r.0.nextId == s.nextId
    ensures slot.None? ==>
              r.1 == Some(s.nextId) && r.0.nextId == s.nextId + 1 && r.0.ops == s.ops[s.nextId := RecordOf(note, s.headTime)]
    ensures forall a :: a != account ==> HistoryOf(r.0.hist, a) == HistoryOf(s.hist, a)
    ensures account in r.0.hist
  {
    var ops := if slot.Some? then s.ops else s.ops[s.nextId := RecordOf(note, s.headTime)];
    var nextId := if slot.Some? then s.nextId else s.nextId + 1;
    var id := if slot.Some? then slot.value else s.nextId;
    var h := HistoryAfterInsert(HistoryOf(s.hist, account), id, ops, s.headTime, prune);
    (DbState(ops, nextId, s.hist[account := h], s.headTime), Some(id))
  }

  /** `operation_visitor::operator()`: fill the shared-record slot on first
      use, then create or update the account's history list. */
  method VisitOperation(db: Database, note: Notification, newObj: Option<OpId>, account: AccountId, prune: bool)
    returns (newObj': Option<OpId>)
    requires db.Valid()
    requires newObj.Some? ==> newObj.value in db.ops
    modifies db
    ensures db.Valid()
    ensures newObj'.Some? && newObj'.value in db.ops
    ensures (db.State(), newObj') == VisitResult(old(db.State()), note, newObj, account, prune)
  {
    newObj' := newObj;
    if newObj'.None? {
      var created := db.CreateOperation(note);
      newObj' := Some(created);
    }
    var id := newObj'.value;
    var now := db.headTime;
    ghost var existing := HistoryOf(db.hist, account);
    var o: seq<OpId>;
    if account !in db.hist {
      o := [];
      if !prune || !IsOutdated(db.ops, now, id) {
        o := StoreOperation(o, id);
      }
    } else {
      o := db.hist[account];
      if prune {
        // keep the last MAX_LENGTH - 1 entries: the new one comes next
        o := TruncateOperationList(o, OperationHistoryMaxLength - 1);
        o := RemoveOutdatedOperations(o, OutdatedFilter(db.ops, now));
        if !IsOutdated(db.ops, now, id) {
          o := StoreOperation(o, id);
        }
      } else {
        o := StoreOperation(o, id);
      }
    }
    assert o == HistoryAfterInsert(existing, id, db.ops, now, prune);
    InsertKeepsRefs(existing, id, db.ops, now, prune);
    db.hist := db.hist[account := o];
  }

  /** `operation_visitor_filter::operator()`: run the visitor only for an
      operation type the list admits. */
  method VisitFiltered(db: Database, note: Notification, newObj: Option<OpId>, account: AccountId,
                       filter: set<string>, prune: bool, blacklist: bool)
    returns (newObj': Option<OpId>)
    requires db.Valid()
    requires newObj.Some? ==> newObj.value in db.ops
    modifies db
    ensures db.Valid()
    ensures newObj'.Some? ==> newObj'.value in db.ops
    ensures Admits(filter, blacklist, note.op.typeName) ==>
              (db.State(), newObj') == VisitResult(old(db.State()), note, newObj, account, prune)
    ensures !Admits(filter, blacklist, note.op.typeName) ==>
              newObj' == newObj && db.State() == old(db.State())
  {
    newObj' := newObj;
    if note.op.typeName in filter {
      if !blacklist {
        newObj' := VisitOperation(db, note, newObj, account, prune);
      }
    } else {
      if blacklist {
        newObj' := VisitOperation(db, note, newObj, account, prune);
      }
    }
  }

  /** An impacted name the dispatcher hands to a visitor that records: it is
      tracked, names an existing account, and the operation passes the
      filter. */
  predicate Qualifies(ranges: seq<AccountRange>, cfg: FilterConfig, found: map<Name, AccountId>,
                      note: Notification, n: Name) {
    IsTracked(ranges, n) && n in found && ShouldRecord(cfg, note.op.typeName)
  }

  /** The dispatcher's effect on the database, name by name in iteration
      order, with the slot threaded from one name to the next. */
  function Dispatch(s0: DbState, names: seq<Name>, ranges: seq<AccountRange>, found: map<Name, AccountId>,
                    cfg: FilterConfig, note: Notification, prune: bool): (DbState, Option<OpId>)
    decreases |names|
  {
    if |names| == 0 then (s0, None)
    else
      var prev := Dispatch(s0, names[..|names| - 1], ranges, found, cfg, note, prune);
      var n := names[|names| - 1];
      if Qualifies(ranges, cfg, found, note, n) then VisitResult(prev.0, note, prev.1, found[n], prune)
      else prev
  }

  /** The accounts whose history a notification touches. */
  function Processed(names: seq<Name>, ranges: seq<AccountRange>, found: map<Name, AccountId>,
                     cfg: FilterConfig, note: Notification): set<AccountId>
  {
    set k | 0 <= k < |names| && Qualifies(ranges, cfg, found, note, names[k]) :: found[names[k]]
  }

  /** At most one record per notification: it is created, with the next
      fresh id and the head block time, exactly when some impacted name
      qualifies; otherwise nothing at all changes. */
  lemma {:induction false} DispatchCreatesAtMostOneRecord(s0: DbState, names: seq<Name>, ranges: seq<AccountRange>,
                                                           found: map<Name, AccountId>, cfg: FilterConfig,
                                                           note: Notification, prune: bool)
    ensures var r := Dispatch(s0, names, ranges, found, cfg, note, prune);
            && r.0.headTime == s0.headTime
            && (r.1.None? <==> forall k :: 0 <= k < |names| ==> !Qualifies(ranges, cfg, found, note, names[k]))
            && (r.1.None? ==> r.0 == s0)
            && (r.1.Some? ==> r.1.value == s0.nextId && r.0.nextId == s0.nextId + 1
                              && r.0.ops == s0.ops[s0.nextId := RecordOf(note, s0.headTime)])
    decreases |names|
  {
    if |names| > 0 {
      var init := names[..|names| - 1];
      DispatchCreatesAtMostOneRecord(s0, init, ranges, found, cfg, note, prune);
      assert forall k :: 0 <= k < |init| ==> init[k] == names[k];
    }
  }

  /** An operation the filter rejects creates no record and changes no
      history. */
  lemma DispatchFilteredOut(s0: DbState, names: seq<Name>, ranges: seq<AccountRange>, found: map<Name, AccountId>,
                            cfg: FilterConfig, note: Notification, prune: bool)
    requires !ShouldRecord(cfg, note.op.typeName)
    ensures Dispatch(s0, names, ranges, found, cfg, note, prune) == (s0, None)
  {
    DispatchCreatesAtMostOneRecord(s0, names, ranges, found, cfg, note, prune);
  }

  /** Names that are not tracked or name no account leave the database as
      it was. */
  lemma DispatchIgnoresUnknownNames(s0: DbState, names: seq<Name>, ranges: seq<AccountRange>,
                                    found: map<Name, AccountId>, cfg: FilterConfig, note: Notification, prune: bool)
    requires forall k :: 0 <= k < |names| ==> !IsTracked(ranges, names[k]) || names[k] !in found
    ensures Dispatch(s0, names, ranges, found, cfg, note, prune) == (s0, None)
  {
    DispatchCreatesAtMostOneRecord(s0, names, ranges, found, cfg, note, prune);
  }

  /** Only the processed accounts' histories change. */
  lemma {:induction false} DispatchFrame(s0: DbState, names: seq<Name>, ranges: seq<AccountRange>,
                                         found: map<Name, AccountId>, cfg: FilterConfig, note: Notification,
                                         prune: bool, a: AccountId)
    requires a !in Processed(names, ranges, found, cfg, note)
    ensures HistoryOf(Dispatch(s0, names, ranges, found, cfg, note, prune).0.hist, a) == HistoryOf(s0.hist, a)
    decreases |names|
  {
    if |names| > 0 {
      var init := names[..|names| - 1];
      forall k | 0 <= k < |init| && Qualifies(ranges, cfg, found, note, init[k])
        ensures found[init[k]] != a
      {
        assert names[k] == init[k];
        assert found[names[k]] in Processed(names, ranges, found, cfg, note);
      }
      DispatchFrame(s0, init, ranges, found, cfg, note, prune, a);
      var n := names[|names| - 1];
      if Qualifies(ranges, cfg, found, note, n) {
        assert found[names[|names| - 1]] in Processed(names, ranges, found, cfg, note);
      }
    }
  }

  /** The shared record: every processed account's history ends with the
      one record the notification created. */
  lemma {:induction false} DispatchSharedRecordLast(s0: DbState, names: seq<Name>, ranges: seq<AccountRange>,
                                                    found: map<Name, AccountId>, cfg: FilterConfig,
                                                    note: Notification, prune: bool, k: nat)
    requires k < |names| && Qualifies(ranges, cfg, found, note, names[k])
    ensures Dispatch(s0, names, ranges, found, cfg, note, prune).1 == Some(s0.nextId)
    ensures LastEntry(Dispatch(s0, names, ranges, found, cfg, note, prune).0.hist, found[names[k]]) == Some(s0.nextId)
    decreases |names|
  {
    var init := names[..|names| - 1];
    var prev := Dispatch(s0, init, ranges, found, cfg, note, prune);
    var n := names[|names| - 1];
    var a := found[names[k]];
    DispatchCreatesAtMostOneRecord(s0, init, ranges, found, cfg, note, prune);
    if Qualifies(ranges, cfg, found, note, n) {
      var r := VisitResult(prev.0, note, prev.1, found[n], prune);
      assert Dispatch(s0, names, ranges, found, cfg, note, prune) == r;
      assert r.1 == Some(s0.nextId);
      assert r.0.ops[s0.nextId] == RecordOf(note, s0.headTime);
      if a == found[n] {
        RecordStoredLast(HistoryOf(prev.0.hist, a), s0.nextId, r.0.ops, s0.headTime, prune);
      } else {
        assert init[k] == names[k];
        DispatchSharedRecordLast(s0, init, ranges, found, cfg, note, prune, k);
        assert HistoryOf(r.0.hist, a) == HistoryOf(prev.0.hist, a);
      }
    } else {
      assert Dispatch(s0, names, ranges, found, cfg, note, prune) == prev;
      assert init[k] == names[k];
      DispatchSharedRecordLast(s0, init, ranges, found, cfg, note, prune, k);
    }
  }

  /** Two impacted accounts of one notification end with the same, shared,
      record. */
  lemma DispatchSameLastRecord(s0: DbState, names: seq<Name>, ranges: seq<AccountRange>,
                               found: map<Name, AccountId>, cfg: FilterConfig, note: Notification,
                               prune: bool, j: nat, k: nat)
    requires j < |names| && Qualifies(ranges, cfg, found, note, names[j])
    requires k < |names| && Qualifies(ranges, cfg, found, note, names[k])
    ensures var h := Dispatch(s0, names, ranges, found, cfg, note, prune).0.hist;
            LastEntry(h, found[names[j]]).Some? && LastEntry(h, found[names[j]]) == LastEntry(h, found[names[k]])
  {
    DispatchSharedRecordLast(s0, names, ranges, found, cfg, note, prune, j);
    DispatchSharedRecordLast(s0, names, ranges, found, cfg, note, prune, k);
  }

  /** No name occurs twice: the impacted accounts form a `flat_set`. */
  predicate Distinct(names: seq<Name>) {
    forall i, j :: 0 <= i < j < |names| ==> names[i] != names[j]
  }

  /** Different names never resolve to the same account (`find_account`
      looks an account up by its unique name). */
  predicate Injective(found: map<Name, AccountId>) {
    forall x, y :: x in found && y in found && x != y ==> found[x] != found[y]
  }

  /** A processed account's new history is the insert rule applied to its
      old history, with the notification's one record: the dispatcher keeps
      every promise of `HistoryAfterInsert` (bounded length, nothing
      outdated, order) for each account it processes. */
  lemma {:induction false} DispatchProcessedHistory(s0: DbState, names: seq<Name>, ranges: seq<AccountRange>,
                                                    found: map<Name, AccountId>, cfg: FilterConfig,
                                                    note: Notification, prune: bool, k: nat)
    requires Distinct(names) && Injective(found)
    requires k < |names| && Qualifies(ranges, cfg, found, note, names[k])
    ensures var r := Dispatch(s0, names, ranges, found, cfg, note, prune).0;
            && found[names[k]] in r.hist
            && r.hist[found[names[k]]]
               == HistoryAfterInsert(HistoryOf(s0.hist, found[names[k]]), s0.nextId,
                                     s0.ops[s0.nextId := RecordOf(note, s0.headTime)], s0.headTime, prune)
    decreases |names|
  {
    var init := names[..|names| - 1];
    var prev := Dispatch(s0, init, ranges, found, cfg, note, prune);
    var n := names[|names| - 1];
    var a := found[names[k]];
    DispatchCreatesAtMostOneRecord(s0, init, ranges, found, cfg, note, prune);
    if k == |names| - 1 {
      forall j | 0 <= j < |init| && Qualifies(ranges, cfg, found, note, init[j])
        ensures found[init[j]] != a
      {
        assert init[j] == names[j];
      }
      DispatchFrame(s0, init, ranges, found, cfg, note, prune, a);
      assert Dispatch(s0, names, ranges, found, cfg, note, prune) == VisitResult(prev.0, note, prev.1, a, prune);
    } else {
      assert init[k] == names[k];
      DispatchProcessedHistory(s0, init, ranges, found, cfg, note, prune, k);
      if Qualifies(ranges, cfg, found, note, n) {
        assert found[n] != a;
        var r := VisitResult(prev.0, note, prev.1, found[n], prune);
        assert Dispatch(s0, names, ranges, found, cfg, note, prune) == r;
        assert HistoryOf(r.0.hist, a) == HistoryOf(prev.0.hist, a);
      }
    }
  }

  /** With pruning on, every processed account ends the notification with
      at most 30 entries, none of them outdated at the head block time. */
  lemma DispatchPruningRetention(s0: DbState, names: seq<Name>, ranges: seq<AccountRange>,
                                 found: map<Name, AccountId>, cfg: FilterConfig, note: Notification, k: nat)
    requires Distinct(names) && Injective(found)
    requires k < |names| && Qualifies(ranges, cfg, found, note, names[k])
    ensures var r := Dispatch(s0, names, ranges, found, cfg, note, true).0;
            && found[names[k]] in r.hist
            && |r.hist[found[names[k]]]| <= OperationHistoryMaxLength
            && forall i :: 0 <= i < |r.hist[found[names[k]]]| ==> !IsOutdated(r.ops, r.headTime, r.hist[found[names[k]]][i])
  {
    var r := Dispatch(s0, names, ranges, found, cfg, note, true).0;
    var a := found[names[k]];
    var ops1 := s0.ops[s0.nextId := RecordOf(note, s0.headTime)];
    DispatchCreatesAtMostOneRecord(s0, names, ranges, found, cfg, note, true);
    DispatchProcessedHistory(s0, names, ranges, found, cfg, note, true, k);
    PruningBoundsLength(HistoryOf(s0.hist, a), s0.nextId, ops1, s0.headTime);
    forall i | 0 <= i < |r.hist[a]|
      ensures !IsOutdated(r.ops, r.headTime, r.hist[a][i])
    {
      PruningLeavesNothingOutdated(HistoryOf(s0.hist, a), s0.nextId, ops1, s0.headTime, i);
    }
  }

  /** The plugin's state (`account_history_plugin_impl`). */
  class AccountHistoryPluginImpl {
    const db: Database
    var trackedAccounts: seq<AccountRange>
    var filterContent: bool
    var blacklist: bool
    var opList: set<string>
    var prune: bool

    function Filter(): FilterConfig
      reads this
    {
      FilterConfig(filterContent, blacklist, opList)
    }

    /** `plugin_initialize`: a fresh implementation object with the default
        field values, then the filter and pruning options applied. The range
        map is taken already loaded; as a `flat_map` its keys are sorted. */
    constructor (db: Database, options: ProgramOptions, ranges: seq<AccountRange>)
      requires SortedKeys(ranges)
      ensures this.db == db && trackedAccounts == ranges && SortedKeys(trackedAccounts)
      ensures Filter() == ConfiguredFilter(options)
      ensures prune == ConfiguredPrune(options)
    {
      this.db := db;
      trackedAccounts := ranges;
      filterContent, blacklist, opList, prune := false, false, {}, true;
      new;
      if HasWhitelist(options) {
        filterContent, blacklist := true, false;
        if options.whitelistOps.Some? {
          opList := CollectOps(options.whitelistOps.value, opList);
        }
        if options.legacyWhitelistOps.Some? {
          opList := CollectOps(options.legacyWhitelistOps.value, opList);
        }
      } else if HasBlacklist(options) {
        filterContent, blacklist := true, true;
        if options.blacklistOps.Some? {
          opList := CollectOps(options.blacklistOps.value, opList);
        }
        if options.legacyBlacklistOps.Some? {
          opList := CollectOps(options.legacyBlacklistOps.value, opList);
        }
      }
      if options.disablePruning.Some? {
        prune := !options.disablePruning.value;
      }
    }

    /** `on_operation`: for every impacted name, in the set's order, check
        the ranges, look the account up, and run the (filtering) visitor with
        the shared-record slot. `impacted` is the extracted impacted-account
        set in its iteration order; `findAccount` maps a name to its
        account, when there is one. */
    method OnOperation(note: Notification, impacted: seq<Name>, findAccount: map<Name, AccountId>)
      requires db.Valid()
      modifies db
      ensures db.Valid()
      ensures db.State() == Dispatch(old(db.State()), impacted, trackedAccounts, findAccount, Filter(), note, prune).0
      // at most one record is created, under a fresh id
      ensures db.ops == old(db.ops) ||
              (old(db.nextId) !in old(db.ops) && db.ops == old(db.ops)[old(db.nextId) := RecordOf(note, old(db.headTime))])
      // every processed account's history ends with that one record
      ensures forall k :: 0 <= k < |impacted| && Qualifies(trackedAccounts, Filter(), findAccount, note, impacted[k]) ==>
                LastEntry(db.hist, findAccount[impacted[k]]) == Some(old(db.nextId))
      // histories of accounts not processed are untouched
      ensures forall a :: a !in Processed(impacted, trackedAccounts, findAccount, Filter(), note) ==>
                HistoryOf(db.hist, a) == HistoryOf(old(db.hist), a)
      // every processed account's history is the insert rule applied to its old one
      ensures Distinct(impacted) && Injective(findAccount) ==>
                forall k :: 0 <= k < |impacted| && Qualifies(trackedAccounts, Filter(), findAccount, note, impacted[k]) ==>
                  findAccount[impacted[k]] in db.hist &&
                  db.hist[findAccount[impacted[k]]]
                  == HistoryAfterInsert(HistoryOf(old(db.hist), findAccount[impacted[k]]), old(db.nextId), db.ops,
                                        old(db.headTime), prune)
    {
      var newObj: Option<OpId> := None;
      for i := 0 to |impacted|
        invariant db.Valid()
        invariant newObj.Some? ==> newObj.value in db.ops
        invariant (db.State(), newObj) == Dispatch(old(db.State()), impacted[..i], trackedAccounts, findAccount, Filter(), note, prune)
      {
        var item := impacted[i];
        assert impacted[..i + 1][..i] == impacted[..i];
        if IsTracked(trackedAccounts, item) {
          if item in findAccount {
            var account := findAccount[item];
            if filterContent {
              newObj := VisitFiltered(db, note, newObj, account, opList, prune, blacklist);
            } else {
              newObj := VisitOperation(db, note, newObj, account, prune);
            }
          }
        }
      }
      assert impacted[..|impacted|] == impacted;
      DispatchCreatesAtMostOneRecord(old(db.State()), impacted, trackedAccounts, findAccount, Filter(), note, prune);
      forall k | 0 <= k < |impacted| && Qualifies(trackedAccounts, Filter(), findAccount, note, impacted[k])
        ensures LastEntry(db.hist, findAccount[impacted[k]]) == Some(old(db.nextId))
      {
        DispatchSharedRecordLast(old(db.State()), impacted, trackedAccounts, findAccount, Filter(), note, prune, k);
      }
      forall a | a !in Processed(impacted, trackedAccounts, findAccount, Filter(), note)
        ensures HistoryOf(db.hist, a) == HistoryOf(old(db.hist), a)
      {
        DispatchFrame(old(db.State()), impacted, trackedAccounts, findAccount, Filter(), note, prune, a);
      }
      if Distinct(impacted) && Injective(findAccount) {
        forall k | 0 <= k < |impacted| && Qualifies(trackedAccounts, Filter(), findAccount, note, impacted[k])
          ensures findAccount[impacted[k]] in db.hist
          ensures db.hist[findAccount[impacted[k]]]
                  == HistoryAfterInsert(HistoryOf(old(db.hist), findAccount[impacted[k]]), old(db.nextId), db.ops,
                                        old(db.headTime), prune)
        {
          DispatchProcessedHistory(old(db.State()), impacted, trackedAccounts, findAccount, Filter(), note, prune, k);
        }
      }
    }
  }
}
