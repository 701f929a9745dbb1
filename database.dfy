/** The database session the models write through, as an in-memory store of
    the three tables. Each method is one `session.add` / `commit` of the
    source; nothing here fails except where a method says so. */
module Database {
  import opened Json
  import opened DeviceModel
  import SensorDataModel
  import ControlHistoryModel

  /** The contents of the three tables at one moment. */
  datatype Tables = Tables(
    devices: seq<Device>,
    sensorData: seq<SensorDataModel.SensorReading>,
    controlHistory: seq<ControlHistoryModel.ControlRecord>)

  /** What the schema guarantees of any contents: one device per id, and log
      ids numbered from 1. */
  predicate TablesValid(t: Tables) {
    && UniqueIds(t.devices)
    && SensorDataModel.Numbered(t.sensorData)
    && ControlHistoryModel.Numbered(t.controlHistory)
  }

  class Store {
    var devices: seq<Device>
    var sensorData: seq<SensorDataModel.SensorReading>
    var controlHistory: seq<ControlHistoryModel.ControlRecord>

    function Snapshot(): Tables
      reads this
    {
      Tables(devices, sensorData, controlHistory)
    }

    ghost predicate Valid()
      reads this
    {
      TablesValid(Snapshot())
    }

    /** A freshly created schema: three empty tables. */
    constructor()
      ensures Valid() && Snapshot() == Tables([], [], [])
    {
      devices, sensorData, controlHistory := [], [], [];
    }

    /** `Device.query.get(id)`. */
    function FindDevice(id: string): Option<Device>
      reads this
    {
      Find(devices, id)
    }

    /** `session.add(device)` followed by a commit, for an id not yet present
        (its callers look the id up first). */
    method InsertDevice(d: Device)
      requires Valid() && FindDevice(d.id).None?
      modifies this
      ensures Valid()
      ensures devices == old(devices) + [d]
      ensures sensorData == old(sensorData) && controlHistory == old(controlHistory)
    {
      AppendNew(devices, d);
      devices := devices + [d];
    }

    /** `Device.get_or_create`: returns the stored device, or inserts and
        commits a new one; fails, inserting nothing, for an empty id. */
    method GetOrCreate(id: string, now: int) returns (r: Option<Device>)
      requires Valid()
      modifies this
      ensures Valid()
      ensures sensorData == old(sensorData) && controlHistory == old(controlHistory)
      ensures match GetOrCreateRows(old(devices), id, now)
              case None => r.None? && devices == old(devices)
              case Some(p) => r == Some(p.0) && devices == p.1
    {
      r := FindDevice(id);
      if r.None? {
        if id == "" {
          // `device_id[-1]` raises IndexError before anything is added
          return;
        }
        var d := NewDevice(id, now);
        InsertDevice(d);
        r := Some(d);
      }
    }

    /** The commit of a device row whose attributes were changed in the
        session; `updated_at` moves to `now` when some column changed. */
    method SaveDevice(d: Device, now: int)
      requires Valid() && FindDevice(d.id).Some?
      requires d.updatedAt == FindDevice(d.id).value.updatedAt
      modifies this
      ensures Valid()
      ensures devices == Replace(old(devices), Touch(old(FindDevice(d.id)).value, d, now))
      ensures sensorData == old(sensorData) && controlHistory == old(controlHistory)
    {
      var stored := Touch(FindDevice(d.id).value, d, now);
      ReplaceRow(devices, stored);
      devices := Replace(devices, stored);
    }

    /** `SensorData.add_sensor_reading`: appends one reading, stamped `now`. */
    method AddSensorReading(deviceId: string, temperature: real, fanStatus: bool,
                            autoMode: bool, now: int) returns (r: SensorDataModel.SensorReading)
      requires Valid()
      modifies this
      ensures Valid()
      ensures r == SensorDataModel.NewReading(old(sensorData), deviceId, temperature, fanStatus, autoMode, now)
      ensures sensorData == old(sensorData) + [r]
      ensures devices == old(devices) && controlHistory == old(controlHistory)
    {
      r := SensorDataModel.NewReading(sensorData, deviceId, temperature, fanStatus, autoMode, now);
      sensorData := sensorData + [r];
    }

    /** `ControlHistory.add_control_record`: appends one record, stamped `now`. */
    method AddControlRecord(deviceId: string, commandType: string, commandValue: string,
                            source: string, now: int) returns (r: ControlHistoryModel.ControlRecord)
      requires Valid()
      modifies this
      ensures Valid()
      ensures r == ControlHistoryModel.NewRecord(old(controlHistory), deviceId, commandType, commandValue, source, now)
      ensures controlHistory == old(controlHistory) + [r]
      ensures devices == old(devices) && sensorData == old(sensorData)
    {
      r := ControlHistoryModel.NewRecord(controlHistory, deviceId, commandType, commandValue, source, now);
      controlHistory := controlHistory + [r];
    }
  }
}
