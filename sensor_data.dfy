/** The `sensor_data` table (backend/models/sensor_data.py): an append-only
    log of readings and its "recent readings" query. */
module SensorDataModel {
  import opened Json
  import Recent

  /** One reading. `id` is the integer primary key SQLite assigns. */
  datatype SensorReading = SensorReading(
    id: nat,
    deviceId: string,
    temperature: real,
    fanStatus: bool,
    autoMode: bool,
    timestamp: int)

  /** Row ids are 1, 2, 3, ...: SQLite gives a new row the largest id plus
      one, and rows are only ever appended or all deleted together. */
  predicate Numbered(log: seq<SensorReading>) {
    forall i | 0 <= i < |log| :: log[i].id == i + 1
  }

  /** The row `add_sensor_reading` appends, stamped with the insertion time. */
  function NewReading(log: seq<SensorReading>, deviceId: string, temperature: real,
                      fanStatus: bool, autoMode: bool, now: int): (r: SensorReading)
    ensures Numbered(log) ==> Numbered(log + [r])
  {
    SensorReading(|log| + 1, deviceId, temperature, fanStatus, autoMode, now)
  }

  /** The `limit` the readings query uses when none is given. */
  const DefaultLimit: int := 100

  function DeviceOf(r: SensorReading): string {
    r.deviceId
  }

  function Stamp(r: SensorReading): int {
    r.timestamp
  }

  /** Every reading of a device, in insertion order. */
  function ReadingsOf(log: seq<SensorReading>, deviceId: string): seq<SensorReading> {
    Recent.Select(log, DeviceOf, deviceId)
  }

  /** `SensorData.get_recent_data`: the device's readings, newest first, at
      most `limit` of them (all of them for a negative limit, as SQLite reads
      `LIMIT -1`), and none left out that is newer than the last returned. */
  function RecentData(log: seq<SensorReading>, deviceId: string, limit: int): seq<SensorReading> {
    Recent.Query(log, DeviceOf, deviceId, Stamp, limit)
  }

  /** What the query promises: the device's readings only, newest first, as
      many as `limit` allows, and none left out newer than the last one. */
  lemma RecentDataProperties(log: seq<SensorReading>, deviceId: string, limit: int)
    ensures var r := RecentData(log, deviceId, limit);
      && (forall x | x in r :: x.deviceId == deviceId)
      && (forall i, j | 0 <= i < j < |r| :: r[i].timestamp >= r[j].timestamp)
      && |r| == (if 0 <= limit < |ReadingsOf(log, deviceId)| then limit else |ReadingsOf(log, deviceId)|)
      && multiset(r) <= multiset(ReadingsOf(log, deviceId))
      && (r != [] ==> forall x | x in log && x.deviceId == deviceId && x !in r ::
            x.timestamp <= r[|r| - 1].timestamp)
  {
    var r := RecentData(log, deviceId, limit);
    forall x | x in r ensures x.deviceId == deviceId {
      assert DeviceOf(x) == deviceId;
    }
    forall i, j | 0 <= i < j < |r| ensures r[i].timestamp >= r[j].timestamp {
      assert Stamp(r[i]) >= Stamp(r[j]);
    }
    forall x | x in log && x.deviceId == deviceId && x !in r && r != []
      ensures x.timestamp <= r[|r| - 1].timestamp
    {
      assert DeviceOf(x) == deviceId;
      assert Stamp(x) <= Stamp(r[|r| - 1]);
    }
  }

  /** `SensorData.to_dict`. */
  function ToDict(r: SensorReading): (o: Object)
    ensures o.Keys == {"id", "device_id", "temperature", "fan_status", "auto_mode", "timestamp"}
  {
    map[
      "id" := JNum(r.id as real),
      "device_id" := JStr(r.deviceId),
      "temperature" := JNum(r.temperature),
      "fan_status" := JBool(r.fanStatus),
      "auto_mode" := JBool(r.autoMode),
      "timestamp" := JNum(r.timestamp as real)
    ]
  }

  /** Reads a reading back from its dictionary: the partner of ToDict. */
  function FromDict(o: Object): Option<SensorReading> {
    if && "id" in o && o["id"].JNum? && o["id"].x >= 0.0
       && "device_id" in o && o["device_id"].JStr? && "temperature" in o && o["temperature"].JNum?
       && "fan_status" in o && o["fan_status"].JBool? && "auto_mode" in o && o["auto_mode"].JBool?
       && "timestamp" in o && o["timestamp"].JNum?
    then Some(SensorReading(o["id"].x.Floor as nat, o["device_id"].s, o["temperature"].x,
                            o["fan_status"].b, o["auto_mode"].b, o["timestamp"].x.Floor))
    else None
  }

  /** The dictionary loses nothing about the reading. */
  lemma DictRoundTrip(r: SensorReading)
    ensures FromDict(ToDict(r)) == Some(r)
  {
  }

  /** Readings stored in time order come back as the `limit` latest,
      newest first. */
  lemma RecentDataChronological(log: seq<SensorReading>, deviceId: string, limit: int)
    requires Recent.OldestFirst(ReadingsOf(log, deviceId), Stamp)
    ensures RecentData(log, deviceId, limit) == Recent.Take(Recent.Reversed(ReadingsOf(log, deviceId)), limit)
  {
    Recent.QueryChronological(log, DeviceOf, deviceId, Stamp, limit);
  }

  /** The dictionaries a listing returns, one per record, in order. */
  function ToDicts(records: seq<SensorReading>): (r: seq<Object>)
    ensures |r| == |records|
    ensures forall i | 0 <= i < |records| :: FromDict(r[i]) == Some(records[i])
  {
    seq(|records|, i requires 0 <= i < |records| => ToDict(records[i]))
  }
}
