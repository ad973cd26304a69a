/** The per-account history list and its retention policy: at most
    `OperationHistoryMaxLength` entries and, when pruning is on, no entry older
    than `MaxAge` among those the count limit keeps.

    The three list operations of the history object (`store_operation`,
    `truncate_operation_list`, `remove_outdated_operations`) are declared in a
    header that is not part of this model. They are defined here from the
    contracts assumed of them: append at the end, keep the last `n` entries,
    remove the entries the predicate selects. */
module AccountHistory {
  import opened Wrappers
  import opened Chain
  import opened Sequences

  /** OPERATION_HISTORY_MAX_LENGTH. */
  const OperationHistoryMaxLength: nat := 30

  /** `fc::days(30)`, in seconds. */
  const MaxAge: int := 30 * 24 * 60 * 60

  /** The outdated-operation filter: the record is more than thirty days
      older than `now`, strictly. The source asserts that the record exists;
      a missing one counts as not outdated here. */
  predicate IsOutdated(ops: map<OpId, OperationRecord>, now: Timestamp, id: OpId) {
    id in ops && now - ops[id].timestamp > MaxAge
  }

  /** `store_operation` (assumed contract): append at the end. */
  function StoreOperation(s: seq<OpId>, id: OpId): (r: seq<OpId>)
    ensures |r| == |s| + 1 && r[..|s|] == s && r[|s|] == id
  {
    s + [id]
  }

  /** `truncate_operation_list` (assumed contract): keep the last `n`
      entries, or all of them when there are no more than `n`. */
  function TruncateOperationList(s: seq<OpId>, n: nat): (r: seq<OpId>)
    ensures |r| == if |s| <= n then |s| else n
    ensures r == s[|s| - |r|..]
  {
    if |s| <= n then s else s[|s| - n..]
  }

  /** `remove_outdated_operations` (assumed contract): remove exactly the
      entries the predicate selects, keeping the others in order. */
  function RemoveOutdatedOperations(s: seq<OpId>, outdated: OpId -> bool): (r: seq<OpId>)
    ensures forall x :: x in r <==> x in s && !outdated(x)
    ensures IsSubseq(r, s)
    ensures |r| <= |s|
    decreases |s|
  {
    if |s| == 0 then []
    else
      var s' := s[..|s| - 1];
      var x := s[|s| - 1];
      assert s == s' + [x];
      var r' := RemoveOutdatedOperations(s', outdated);
      if outdated(x) then
        SubseqExtend(r', s', x);
        r'
      else
        SubseqAppendBoth(r', s', x);
        r' + [x]
  }

  /** The outdated filter as the predicate handed to the removal. */
  function OutdatedFilter(ops: map<OpId, OperationRecord>, now: Timestamp): OpId -> bool {
    (id: OpId) => IsOutdated(ops, now, id)
  }

  /** The history list of an account after recording `id`, as the visitor
      computes it: `existing` is the account's list, `None` when the account
      has none yet. `operation_visitor::operator()` creates a list holding
      the record unless it is pruned away at once; for an existing list it
      truncates, removes outdated entries and appends when pruning is on,
      and only appends otherwise. */
  function HistoryAfterInsert(existing: Option<seq<OpId>>, id: OpId, ops: map<OpId, OperationRecord>,
                              now: Timestamp, prune: bool): seq<OpId>
  {
    match existing
    case None =>
      if !prune || !IsOutdated(ops, now, id) then StoreOperation([], id) else []
    case Some(h) =>
      if prune then
        var kept := RemoveOutdatedOperations(TruncateOperationList(h, OperationHistoryMaxLength - 1),
                                             OutdatedFilter(ops, now));
        if !IsOutdated(ops, now, id) then StoreOperation(kept, id) else kept
      else
        StoreOperation(h, id)
  }

  /** Without pruning the record is appended and no entry is removed,
      whether or not the account had a history. */
  lemma PruningDisabledAppends(existing: Option<seq<OpId>>, id: OpId, ops: map<OpId, OperationRecord>, now: Timestamp)
    ensures HistoryAfterInsert(existing, id, ops, now, false) == existing.GetOr([]) + [id]
  {
  }

  /** With pruning the list never exceeds the maximum length. */
  lemma PruningBoundsLength(existing: Option<seq<OpId>>, id: OpId, ops: map<OpId, OperationRecord>, now: Timestamp)
    ensures |HistoryAfterInsert(existing, id, ops, now, true)| <= OperationHistoryMaxLength
  {
  }

  /** With pruning no entry of the resulting list is outdated. */
  lemma PruningLeavesNothingOutdated(existing: Option<seq<OpId>>, id: OpId, ops: map<OpId, OperationRecord>,
                                     now: Timestamp, i: nat)
    requires i < |HistoryAfterInsert(existing, id, ops, now, true)|
    ensures !IsOutdated(ops, now, HistoryAfterInsert(existing, id, ops, now, true)[i])
  {
    var r := HistoryAfterInsert(existing, id, ops, now, true);
    assert r[i] in r;
  }

  /** A record that is not outdated is always stored, as the last entry. */
  lemma RecordStoredLast(existing: Option<seq<OpId>>, id: OpId, ops: map<OpId, OperationRecord>,
                         now: Timestamp, prune: bool)
    requires !IsOutdated(ops, now, id)
    ensures var r := HistoryAfterInsert(existing, id, ops, now, prune); |r| > 0 && r[|r| - 1] == id
  {
  }

  /** Entries keep their relative order: the new list is a sub-sequence of
      the old one followed by the record. */
  lemma InsertKeepsOrder(existing: Option<seq<OpId>>, id: OpId, ops: map<OpId, OperationRecord>,
                         now: Timestamp, prune: bool)
    ensures IsSubseq(HistoryAfterInsert(existing, id, ops, now, prune), existing.GetOr([]) + [id])
  {
    var r := HistoryAfterInsert(existing, id, ops, now, prune);
    match existing
    case None =>
      if |r| > 0 {
        SubseqRefl([id]);
      }
    case Some(h) =>
      if prune {
        var t := TruncateOperationList(h, OperationHistoryMaxLength - 1);
        var kept := RemoveOutdatedOperations(t, OutdatedFilter(ops, now));
        SuffixIsSubseq(h, |h| - |t|);
        SubseqTransitive(kept, t, h);
        if !IsOutdated(ops, now, id) {
          SubseqAppendBoth(kept, h, id);
        } else {
          SubseqExtend(kept, h, id);
        }
      } else {
        SubseqRefl(h + [id]);
      }
  }

  /** No id other than the record's appears that was not there before. */
  lemma InsertAddsOnlyTheRecord(existing: Option<seq<OpId>>, id: OpId, ops: map<OpId, OperationRecord>,
                                now: Timestamp, prune: bool, x: OpId)
    requires x in HistoryAfterInsert(existing, id, ops, now, prune)
    ensures x in existing.GetOr([]) || x == id
  {
    InsertKeepsOrder(existing, id, ops, now, prune);
    SubseqMembers(HistoryAfterInsert(existing, id, ops, now, prune), existing.GetOr([]) + [id], x);
  }

  /** Recording an existing record keeps every id of the list naming an
      existing record. */
  lemma InsertKeepsRefs(existing: Option<seq<OpId>>, id: OpId, ops: map<OpId, OperationRecord>,
                        now: Timestamp, prune: bool)
    requires existing.Some? ==> RefsExist(existing.value, ops)
    requires id in ops
    ensures RefsExist(HistoryAfterInsert(existing, id, ops, now, prune), ops)
  {
    var r := HistoryAfterInsert(existing, id, ops, now, prune);
    forall i | 0 <= i < |r|
      ensures r[i] in ops
    {
      InsertAddsOnlyTheRecord(existing, id, ops, now, prune, r[i]);
    }
  }

  /** With pruning, an existing entry survives exactly when it is among the
      last MAX_LENGTH - 1 entries and is not outdated. Older entries are
      dropped by the count limit whatever their age. */
  lemma PruningKeepsRecentWindow(h: seq<OpId>, id: OpId, ops: map<OpId, OperationRecord>, now: Timestamp, x: OpId)
    requires x != id
    ensures x in HistoryAfterInsert(Some(h), id, ops, now, true) <==>
            x in h[|h| - |TruncateOperationList(h, OperationHistoryMaxLength - 1)|..] && !IsOutdated(ops, now, x)
  {
  }

  /** A record stamped with the current time is never outdated. */
  lemma FreshRecordNotOutdated(ops: map<OpId, OperationRecord>, now: Timestamp, id: OpId)
    requires id in ops && ops[id].timestamp == now
    ensures !IsOutdated(ops, now, id)
  {
  }

  /** A newly created history holds exactly the fresh record, pruning or not. */
  lemma NewHistoryHoldsTheRecord(id: OpId, ops: map<OpId, OperationRecord>, now: Timestamp, prune: bool)
    requires id in ops && ops[id].timestamp == now
    ensures HistoryAfterInsert(None, id, ops, now, prune) == [id]
  {
  }

  /** The age limit is strict: an entry exactly thirty days old that lies in
      the window the count limit keeps survives a pruning insert. */
  lemma ThirtyDayOldEntryKept(h: seq<OpId>, k: nat, id: OpId, ops: map<OpId, OperationRecord>, now: Timestamp)
    requires k < |h| && k + (OperationHistoryMaxLength - 1) >= |h|
    requires h[k] != id && h[k] in ops && now - ops[h[k]].timestamp == MaxAge
    ensures h[k] in HistoryAfterInsert(Some(h), id, ops, now, true)
  {
    var t := TruncateOperationList(h, OperationHistoryMaxLength - 1);
    assert t[k - (|h| - |t|)] == h[k];
  }

  /** Removal that selects nothing keeps the list as it is. */
  lemma {:induction false} RemoveNothing(s: seq<OpId>, outdated: OpId -> bool)
    requires forall i :: 0 <= i < |s| ==> !outdated(s[i])
    ensures RemoveOutdatedOperations(s, outdated) == s
    decreases |s|
  {
    if |s| > 0 {
      var s' := s[..|s| - 1];
      assert s == s' + [s[|s| - 1]];
      RemoveNothing(s', outdated);
    }
  }

  /** Removal that selects every entry leaves nothing. */
  lemma {:induction false} RemoveEverything(s: seq<OpId>, outdated: OpId -> bool)
    requires forall i :: 0 <= i < |s| ==> outdated(s[i])
    ensures RemoveOutdatedOperations(s, outdated) == []
    decreases |s|
  {
    if |s| > 0 {
      RemoveEverything(s[..|s| - 1], outdated);
    }
  }

  /** Recording a fresh operation in a full history of recent entries drops
      the oldest entry and appends the new one: the length stays at the
      maximum. */
  lemma FullRecentHistoryDropsOldest(h: seq<OpId>, id: OpId, ops: map<OpId, OperationRecord>, now: Timestamp)
    requires |h| == OperationHistoryMaxLength
    requires forall i :: 0 <= i < |h| ==> !IsOutdated(ops, now, h[i])
    requires id in ops && ops[id].timestamp == now
    ensures HistoryAfterInsert(Some(h), id, ops, now, true) == h[1..] + [id]
    ensures |HistoryAfterInsert(Some(h), id, ops, now, true)| == OperationHistoryMaxLength
  {
    var t := TruncateOperationList(h, OperationHistoryMaxLength - 1);
    assert t == h[1..];
    RemoveNothing(t, OutdatedFilter(ops, now));
  }

  /** Recording a fresh operation in a history whose kept window is all
      outdated leaves only the new record. */
  lemma OutdatedHistoryLeavesOnlyNew(h: seq<OpId>, id: OpId, ops: map<OpId, OperationRecord>, now: Timestamp)
    requires forall i :: 0 <= i < |h| ==> IsOutdated(ops, now, h[i])
    requires id in ops && ops[id].timestamp == now
    ensures HistoryAfterInsert(Some(h), id, ops, now, true) == [id]
  {
    var t := TruncateOperationList(h, OperationHistoryMaxLength - 1);
    RemoveEverything(t, OutdatedFilter(ops, now));
  }
}
