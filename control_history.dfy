/** The `control_history` table (backend/models/control_history.py): an
    append-only log of the commands sent to devices and its "recent
    history" query. */
module ControlHistoryModel {
  import opened Json
  import Recent

  /** One command record. `id` is the integer primary key SQLite assigns. */
  datatype ControlRecord = ControlRecord(
    id: nat,
    deviceId: string,
    commandType: string,
    commandValue: string,
    source: string,
    timestamp: int)

  /** Row ids are 1, 2, 3, ... (see SensorDataModel.Numbered). */
  predicate Numbered(log: seq<ControlRecord>) {
    forall i | 0 <= i < |log| :: log[i].id == i + 1
  }

  /** The row `add_control_record` appends, stamped with the insertion time. */
  function NewRecord(log: seq<ControlRecord>, deviceId: string, commandType: string,
                     commandValue: string, source: string, now: int): (r: ControlRecord)
    ensures Numbered(log) ==> Numbered(log + [r])
  {
    ControlRecord(|log| + 1, deviceId, commandType, commandValue, source, now)
  }

  /** The `limit` the history query uses when none is given. */
  const DefaultLimit: int := 50

  function DeviceOf(r: ControlRecord): string {
    r.deviceId
  }

  function Stamp(r: ControlRecord): int {
    r.timestamp
  }

  /** Every record of a device, in insertion order. */
  function RecordsOf(log: seq<ControlRecord>, deviceId: string): seq<ControlRecord> {
    Recent.Select(log, DeviceOf, deviceId)
  }

  /** `ControlHistory.get_recent_history`: the device's records, newest
      first, at most `limit` of them (all of them for a negative limit), and
      none left out that is newer than the last returned. */
  function RecentHistory(log: seq<ControlRecord>, deviceId: string, limit: int): seq<ControlRecord> {
    Recent.Query(log, DeviceOf, deviceId, Stamp, limit)
  }

  /** What the query promises: the device's records only, newest first, as
      many as `limit` allows, and none left out newer than the last one. */
  lemma RecentHistoryProperties(log: seq<ControlRecord>, deviceId: string, limit: int)
    ensures var r := RecentHistory(log, deviceId, limit);
      && (forall x | x in r :: x.deviceId == deviceId)
      && (forall i, j | 0 <= i < j < |r| :: r[i].timestamp >= r[j].timestamp)
      && |r| == (if 0 <= limit < |RecordsOf(log, deviceId)| then limit else |RecordsOf(log, deviceId)|)
      && multiset(r) <= multiset(RecordsOf(log, deviceId))
      && (r != [] ==> forall x | x in log && x.deviceId == deviceId && x !in r ::
            x.timestamp <= r[|r| - 1].timestamp)
  {
    var r := RecentHistory(log, deviceId, limit);
    forall x | x in r ensures x.deviceId == deviceId {
      assert DeviceOf(x) == deviceId;
    }
    forall i, j | 0 <= i < j < |r| ensures r[i].timestamp >= r[j].timestamp {
      assert Stamp(r[i]) >= Stamp(r[j]);
    }
    forall x | x in log && x.deviceId == deviceId && x !in r && r != []
      ensures x.timestamp <= r[|r| - 1].timestamp
    {
      assert DeviceOf(x) == deviceId;
      assert Stamp(x) <= Stamp(r[|r| - 1]);
    }
  }

  /** `ControlHistory.to_dict`. */
  function ToDict(r: ControlRecord): (o: Object)
    ensures o.Keys == {"id", "device_id", "command_type", "command_value", "source", "timestamp"}
  {
    map[
      "id" := JNum(r.id as real),
      "device_id" := JStr(r.deviceId),
      "command_type" := JStr(r.commandType),
      "command_value" := JStr(r.commandValue),
      "source" := JStr(r.source),
      "timestamp" := JNum(r.timestamp as real)
    ]
  }

  /** Reads a record back from its dictionary: the partner of ToDict. */
  function FromDict(o: Object): Option<ControlRecord> {
    if && "id" in o && o["id"].JNum? && o["id"].x >= 0.0
       && "device_id" in o && o["device_id"].JStr? && "command_type" in o && o["command_type"].JStr?
       && "command_value" in o && o["command_value"].JStr? && "source" in o && o["source"].JStr?
       && "timestamp" in o && o["timestamp"].JNum?
    then Some(ControlRecord(o["id"].x.Floor as nat, o["device_id"].s, o["command_type"].s,
                            o["command_value"].s, o["source"].s, o["timestamp"].x.Floor))
    else None
  }

  /** The dictionary loses nothing about the record. */
  lemma DictRoundTrip(r: ControlRecord)
    ensures FromDict(ToDict(r)) == Some(r)
  {
  }

  /** Records stored in time order come back as the `limit` latest,
      newest first. */
  lemma RecentHistoryChronological(log: seq<ControlRecord>, deviceId: string, limit: int)
    requires Recent.OldestFirst(RecordsOf(log, deviceId), Stamp)
    ensures RecentHistory(log, deviceId, limit) == Recent.Take(Recent.Reversed(RecordsOf(log, deviceId)), limit)
  {
    Recent.QueryChronological(log, DeviceOf, deviceId, Stamp, limit);
  }

  /** The dictionaries a listing returns, one per record, in order. */
  function ToDicts(records: seq<ControlRecord>): (r: seq<Object>)
    ensures |r| == |records|
    ensures forall i | 0 <= i < |records| :: FromDict(r[i]) == Some(records[i])
  {
    seq(|records|, i requires 0 <= i < |records| => ToDict(records[i]))
  }
}
