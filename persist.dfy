/**
 * `push_to_database`: build one row from a detail payload (or a failure
 * payload) and upsert it into the target table keyed by `plant_code`,
 * rolling back on any storage error.
 */
module Persist {
  import opened Wrappers
  import opened Detail

  /** One row of the target table; `lastUpdated` is the value of `NOW()` at the write. */
  datatype Row = Row(
    plantCode: string,
    plantName: string,
    apiSuccess: bool,
    controlMode: Option<string>,
    kwParam: Option<Param>,
    percentParam: Option<Param>,
    zeroParam: Option<Param>,
    lastUpdated: int)

  /** The table: `plant_code` to its row. */
  type Table = map<string, Row>

  const EmptyBlock := DataBlock(None, None, None, None, None)

  /** `data_block`: `{}` unless the payload reports success, then its `data` (or `{}`). */
  function DataBlockOf(payload: Option<Payload>): DataBlock
  {
    if payload.Some? && payload.value.success then
      match payload.value.data
      case Some(block) => block
      case None => EmptyBlock
    else EmptyBlock
  }

  /** The row `push_to_database` writes for `plantName`, a payload and the catalog's station code. */
  function BuildRow(plantName: string, payload: Option<Payload>, stationCode: string, now: int): (row: Row)
    ensures row.apiSuccess <==> payload.Some? && payload.value.success
    ensures row.plantName == plantName && row.lastUpdated == now
    ensures row.plantCode != stationCode ==>
              row.apiSuccess && payload.value.data.Some? && row.plantCode != ""
              && payload.value.data.value.plantCode == Some(row.plantCode)
    ensures row.apiSuccess && payload.value.data.Some? && payload.value.data.value.plantCode.Some? &&
            payload.value.data.value.plantCode.value != "" ==>
              row.plantCode == payload.value.data.value.plantCode.value
    ensures !row.apiSuccess ==>
              row.plantCode == stationCode && row.controlMode.None?
              && row.kwParam.None? && row.percentParam.None? && row.zeroParam.None?
    ensures row.apiSuccess && payload.value.data.Some? ==>
              var block := payload.value.data.value;
              row.controlMode == block.controlMode && row.kwParam == block.kwParam
              && row.percentParam == block.percentParam && row.zeroParam == block.zeroParam
    ensures row.apiSuccess && payload.value.data.None? ==>
              row.plantCode == stationCode && row.controlMode.None?
              && row.kwParam.None? && row.percentParam.None? && row.zeroParam.None?
  {
    var success := payload.Some? && payload.value.success;
    var block := DataBlockOf(payload);
    var code := if block.plantCode.Some? && block.plantCode.value != "" then block.plantCode.value else stationCode;
    Row(code, plantName, success, block.controlMode, block.kwParam, block.percentParam, block.zeroParam, now)
  }

  /** `INSERT ... ON CONFLICT (plant_code) DO UPDATE SET` every other column. */
  function Upsert(table: Table, row: Row): (t: Table)
    ensures row.plantCode in t && t[row.plantCode] == row
    ensures t.Keys == table.Keys + {row.plantCode}
    ensures forall k :: k in table && k != row.plantCode ==> t[k] == table[k]
  {
    table[row.plantCode := row]
  }

  /** Repeating an upsert changes nothing. */
  lemma UpsertIdempotent(table: Table, row: Row)
    ensures Upsert(Upsert(table, row), row) == Upsert(table, row)
  {
  }

  /**
   * Pushing the same plant twice leaves one row, holding the values of the
   * second push; the two rows differ at most in `last_updated`.
   */
  lemma RepeatedPush(table: Table, plantName: string, payload: Option<Payload>, stationCode: string, now1: int, now2: int)
    ensures var first := BuildRow(plantName, payload, stationCode, now1);
            var second := BuildRow(plantName, payload, stationCode, now2);
            && Upsert(Upsert(table, first), second) == Upsert(table, second)
            && first.(lastUpdated := now2) == second
            && |Upsert(Upsert(table, first), second).Keys| == |Upsert(table, first).Keys|
  {
  }

  /** The database connection, reduced to the table it writes. */
  class Database {
    var table: Table

    constructor (initial: Table)
      ensures table == initial
    {
      table := initial;
    }

    /**
     * `push_to_database(conn, plantName, payload, stationCode)`; `now` is the
     * server's `NOW()` and `storageError` whether `execute` or `commit` raises.
     */
    method Push(plantName: string, payload: Option<Payload>, stationCode: string, now: int, storageError: bool)
      returns (ok: bool)
      modifies this
      ensures ok == !storageError
      ensures table == if ok then Upsert(old(table), BuildRow(plantName, payload, stationCode, now)) else old(table)
    {
      var row := BuildRow(plantName, payload, stationCode, now);
      if storageError {
        // conn.rollback(): the transaction leaves nothing behind
        ok := false;
      } else {
        table := Upsert(table, row);
        ok := true;
      }
    }
  }
}
