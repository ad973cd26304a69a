/** The slice of the chain database the indexer reads and writes: operation
    records, per-account history lists and the head block time. The storage
    engine's indexes and undo sessions are replaced by plain maps. */
module Chain {

  /** Database ids, assigned in increasing order by `create`. */
  type OpId = nat
  type AccountId = nat

  /** Seconds since the epoch (`time_point_sec`). */
  type Timestamp = nat

  type TransactionId = seq<bv8>

  /** An applied operation, known here only by its reflected type name
      (for example "steem::protocol::transfer_operation"). */
  datatype Operation = Operation(typeName: string)

  /** What the database delivers for every applied operation. */
  datatype Notification = Notification(trxId: TransactionId, block: nat, trxInBlock: nat, op: Operation)

  /** The shared operation record (`operation_object`) without its serialized
      payload. */
  datatype OperationRecord = OperationRecord(trxId: TransactionId, block: nat, trxInBlock: nat, timestamp: Timestamp)

  /** The fields a new record takes from its notification and the clock. */
  function RecordOf(note: Notification, now: Timestamp): (rec: OperationRecord)
    ensures rec.trxId == note.trxId && rec.block == note.block && rec.trxInBlock == note.trxInBlock
    ensures rec.timestamp == now
  {
    OperationRecord(note.trxId, note.block, note.trxInBlock, now)
  }

  /** Every id in the history `h` names an existing record. */
  predicate RefsExist(h: seq<OpId>, ops: map<OpId, OperationRecord>) {
    forall i :: 0 <= i < |h| ==> h[i] in ops
  }

  /** A snapshot of the database's contents, for stating what an operation
      does to all of it. */
  datatype DbState = DbState(ops: map<OpId, OperationRecord>, nextId: OpId,
                             hist: map<AccountId, seq<OpId>>, headTime: Timestamp)

  class Database {
    var ops: map<OpId, OperationRecord>
    var nextId: OpId
    var hist: map<AccountId, seq<OpId>>
    var headTime: Timestamp

    /** Ids already used lie below `nextId`, and histories refer only to
        records that exist. */
    ghost predicate Valid()
      reads this
    {
      (forall id :: id in ops ==> id < nextId) &&
      (forall a :: a in hist ==> RefsExist(hist[a], ops))
    }

    function State(): DbState
      reads this
    {
      DbState(ops, nextId, hist, headTime)
    }

    /** `create<operation_object>`: a record with a fresh id, stamped with
        the head block time. */
    method CreateOperation(note: Notification) returns (id: OpId)
      requires Valid()
      modifies this
      ensures Valid()
      ensures id == old(nextId) && id !in old(ops)
      ensures ops == old(ops)[id := RecordOf(note, headTime)]
      ensures nextId == old(nextId) + 1
      ensures hist == old(hist) && headTime == old(headTime)
    {
      id := nextId;
      ops := ops[id := RecordOf(note, headTime)];
      nextId := nextId + 1;
      forall a | a in hist
        ensures RefsExist(hist[a], ops)
      {
        assert RefsExist(hist[a], old(ops));
      }
    }
  }
}
