/** The device service (backend/services/device_service.py): telemetry
    ingestion, control dispatch, and the device lookups and updates the
    routes use. */
module DeviceService {
  import opened Json
  import opened Mqtt
  import opened DeviceModel
  import opened Database
  import SensorDataModel
  import ControlHistoryModel

  // ---------------------------------------------------------------------
  // Telemetry ingestion

  /** `topic.split('/')[-1]`: the text after the last '/', or the whole
      topic when it has none. */
  function LastSegment(topic: string): (r: string)
    ensures '/' !in r
    ensures |r| <= |topic| && r == topic[|topic| - |r|..]
    ensures |r| < |topic| ==> topic[|topic| - |r| - 1] == '/'
  {
    if topic == [] || topic[|topic| - 1] == '/' then []
    else LastSegment(topic[..|topic| - 1]) + [topic[|topic| - 1]]
  }

  /** A message on the telemetry topic `device/{id}` names the device `id`. */
  lemma {:induction false} LastSegmentAfterSlash(prefix: string, id: string)
    requires '/' !in id
    ensures LastSegment(prefix + "/" + id) == id
  {
    var t := prefix + "/" + id;
    if id != [] {
      var init := id[..|id| - 1];
      assert id == init + [id[|id| - 1]];
      assert t[..|t| - 1] == prefix + "/" + init;
      LastSegmentAfterSlash(prefix, init);
    }
  }

  /** The device a telemetry object is about: its `device_id` field when it
      has one (which must be a string), else the topic's last segment. */
  function ResolveDeviceId(topic: string, data: Object): (r: Option<string>)
    ensures "device_id" in data ==> r == (if data["device_id"].JStr? then Some(data["device_id"].s) else None)
    ensures "device_id" !in data ==> r == Some(LastSegment(topic))
  {
    if "device_id" in data then
      (if data["device_id"].JStr? then Some(data["device_id"].s) else None)
    else Some(LastSegment(topic))
  }

  lemma ResolveFromTopic(id: string, data: Object)
    requires '/' !in id && "device_id" !in data
    ensures ResolveDeviceId("device/" + id, data) == Some(id)
  {
    assert "device/" + id == "device" + "/" + id;
    LastSegmentAfterSlash("device", id);
  }

  /** The telemetry fields present in `data` have a JSON type their device
      columns can hold: a number or null for `temperature`, and for `fan`
      and `auto` whatever the `Boolean` type accepts (a boolean, null, 0 or
      1). Otherwise the commit of the device row fails. */
  predicate FieldsStorable(data: Object) {
    && ("temperature" in data ==> data["temperature"].JNum? || data["temperature"] == JNull)
    && ("fan" in data ==> BooleanBind(data["fan"]).Some?)
    && ("auto" in data ==> BooleanBind(data["auto"]).Some?)
  }

  /** The device row after the merge of lines 43-51: each present field
      overwrites its column, `last_seen` becomes `now`, nothing else moves;
      None when a present field cannot be stored. */
  function ApplyTelemetry(d: Device, data: Object, now: int): (r: Option<Device>)
    ensures r.Some? <==> FieldsStorable(data)
    ensures r.Some? ==>
      && r.value.(lastTemperature := d.lastTemperature, fanStatus := d.fanStatus,
                  autoMode := d.autoMode, lastSeen := d.lastSeen) == d
      && r.value.lastSeen == Some(now)
      && ("temperature" in data ==> data["temperature"] == NumOrNull(r.value.lastTemperature))
      && ("temperature" !in data ==> r.value.lastTemperature == d.lastTemperature)
      && ("fan" in data ==> BooleanBind(data["fan"]) == Some(r.value.fanStatus))
      && ("fan" !in data ==> r.value.fanStatus == d.fanStatus)
      && ("auto" in data ==> BooleanBind(data["auto"]) == Some(r.value.autoMode))
      && ("auto" !in data ==> r.value.autoMode == d.autoMode)
  {
    if !FieldsStorable(data) then None
    else
      Some(d.(
        lastTemperature := if "temperature" in data then NullableNum(data["temperature"]) else d.lastTemperature,
        fanStatus := if "fan" in data then BooleanBind(data["fan"]).value else d.fanStatus,
        autoMode := if "auto" in data then BooleanBind(data["auto"]).value else d.autoMode,
        lastSeen := Some(now)))
  }

  /** `process_device_message` on the tables: the result and the tables
      afterwards, for the decoded payload `parsed` (None when UTF-8 decoding
      or JSON parsing failed). */
  function Ingest(t: Tables, topic: string, parsed: Option<Object>, now: int): (bool, Tables)
  {
    match parsed
    case None => (false, t)
    case Some(data) =>
      match ResolveDeviceId(topic, data)
      case None => (false, t)
      case Some(id) =>
        match GetOrCreateRows(t.devices, id, now)
        case None => (false, t)
        case Some((prior, rows)) => Merge(t.(devices := rows), id, prior, data, now)
  }

  /** Lines 43-63 once the device `prior` is stored: the merged row is
      committed, then the reading is inserted. The reading's fan and mode are
      the payload's when given and the stored row's otherwise, which are the
      merged row's values either way. The two writes are separate, so a
      reading whose insert fails leaves the device row updated. */
  function Merge(t: Tables, id: string, prior: Device, data: Object, now: int): (bool, Tables)
  {
    match ApplyTelemetry(prior, data, now)
    case None => (false, t)
    case Some(d) =>
      var merged := t.(devices := Replace(t.devices, Touch(prior, d, now)));
      if "temperature" !in data then (true, merged)
      else if data["temperature"].JNum? && d.fanStatus.Some? && d.autoMode.Some? then
        var reading := SensorDataModel.NewReading(merged.sensorData, id, data["temperature"].x,
                                                  d.fanStatus.value, d.autoMode.value, now);
        (true, merged.(sensorData := merged.sensorData + [reading]))
      else
        // temperature, fan_status and auto_mode of sensor_data are NOT NULL:
        // a null in any of them fails the insert
        (false, merged)
  }

  /** `process_device_message`. Every failure, including a payload that does
      not decode, is reported as `false` and never raised. */
  method ProcessDeviceMessage(db: Store, topic: string, parsed: Option<Object>, now: int)
    returns (ok: bool)
    requires db.Valid()
    modifies db
    ensures db.Valid()
    ensures (ok, db.Snapshot()) == Ingest(old(db.Snapshot()), topic, parsed, now)
  {
    if parsed.None? {
      return false;
    }
    var data := parsed.value;
    var deviceId: string;
    if "device_id" in data {
      if !data["device_id"].JStr? {
        return false;
      }
      deviceId := data["device_id"].s;
    } else {
      deviceId := LastSegment(topic);
    }
    assert ResolveDeviceId(topic, data) == Some(deviceId);
    ghost var before := db.Snapshot();
    var found := db.GetOrCreate(deviceId, now);
    if found.None? {
      return false;
    }
    GetOrCreateOnePerId(before.devices, deviceId, now);
    assert Ingest(before, topic, parsed, now) == Merge(db.Snapshot(), deviceId, found.value, data, now);
    ok := MergeTelemetry(db, deviceId, found.value, data, now);
  }

  /** The field assignments of `process_device_message`, one key at a time: each present
      key overwrites its field, a value the column cannot hold fails the
      commit, and `last_seen` is stamped. */
  method MergeFields(device: Device, data: Object, now: int) returns (r: Option<Device>)
    ensures r == ApplyTelemetry(device, data, now)
  {
    var d := device;
    // the device commit at line 54 rejects a value its column cannot hold
    if "temperature" in data {
      var v := data["temperature"];
      if !(v.JNum? || v == JNull) {
        return None;
      }
      d := d.(lastTemperature := NullableNum(v));
    }
    if "fan" in data {
      var stored := BooleanBind(data["fan"]);
      if stored.None? {
        return None;
      }
      d := d.(fanStatus := stored.value);
    }
    if "auto" in data {
      var stored := BooleanBind(data["auto"]);
      if stored.None? {
        return None;
      }
      d := d.(autoMode := stored.value);
    }
    d := d.(lastSeen := Some(now));
    return Some(d);
  }

  /** Lines 42-66 of `process_device_message`, for the stored device
      `device`. */
  method MergeTelemetry(db: Store, deviceId: string, device: Device, data: Object, now: int)
    returns (ok: bool)
    requires db.Valid() && device.id == deviceId && db.FindDevice(deviceId) == Some(device)
    modifies db
    ensures db.Valid()
    ensures (ok, db.Snapshot()) == Merge(old(db.Snapshot()), deviceId, device, data, now)
  {
    var merged := MergeFields(device, data, now);
    if merged.None? {
      return false;
    }
    var d := merged.value;
    ghost var before := db.Snapshot();
    db.SaveDevice(d, now);
    assert db.Snapshot() == before.(devices := Replace(before.devices, Touch(device, d, now)));
    if "temperature" in data {
      var v := data["temperature"];
      var fan := BooleanBind(Get(data, "fan", BoolOrNull(d.fanStatus)));
      var auto := BooleanBind(Get(data, "auto", BoolOrNull(d.autoMode)));
      BooleanBindRoundTrip(d.fanStatus);
      BooleanBindRoundTrip(d.autoMode);
      assert fan == Some(d.fanStatus) && auto == Some(d.autoMode);
      if v == JNull || fan.value.None? || auto.value.None? {
        // the reading's columns are NOT NULL
        return false;
      }
      var reading := db.AddSensorReading(deviceId, v.x, fan.value.value, auto.value.value, now);
    }
    return true;
  }

  /** A message is processed successfully exactly when it decodes, names a
      device by a string id that is stored or non-empty, carries fields the
      device columns can hold and, when it has a `temperature`, the reading
      gets a number and a non-null fan and mode: the payload's values when
      given, the device's stored ones otherwise (a new device has both). */
  lemma IngestSucceeds(t: Tables, topic: string, parsed: Option<Object>, now: int)
    ensures Ingest(t, topic, parsed, now).0 <==>
      && parsed.Some?
      && ResolveDeviceId(topic, parsed.value).Some?
      && var data, id := parsed.value, ResolveDeviceId(topic, parsed.value).value;
      && (Find(t.devices, id).Some? || id != "")
      && FieldsStorable(data)
      && ("temperature" in data ==>
            && data["temperature"].JNum?
            && (if "fan" in data then data["fan"] != JNull
                else Find(t.devices, id).None? || Find(t.devices, id).value.fanStatus.Some?)
            && (if "auto" in data then data["auto"] != JNull
                else Find(t.devices, id).None? || Find(t.devices, id).value.autoMode.Some?))
  {
  }

  /** Ingestion keeps one device per id and the log numbering, whatever the
      message. */
  lemma IngestKeepsTablesValid(t: Tables, topic: string, parsed: Option<Object>, now: int)
    requires TablesValid(t)
    ensures TablesValid(Ingest(t, topic, parsed, now).1)
    ensures forall id :: CountId(Ingest(t, topic, parsed, now).1.devices, id) <= 1
  {
    var t' := Ingest(t, topic, parsed, now).1;
    if parsed.Some? && ResolveDeviceId(topic, parsed.value).Some? {
      var data, id := parsed.value, ResolveDeviceId(topic, parsed.value).value;
      if GetOrCreateRows(t.devices, id, now).Some? {
        var (prior, rows) := GetOrCreateRows(t.devices, id, now).value;
        GetOrCreateOnePerId(t.devices, id, now);
        if ApplyTelemetry(prior, data, now).Some? {
          ReplaceRow(rows, Touch(prior, ApplyTelemetry(prior, data, now).value, now));
        }
      }
    }
    forall id ensures CountId(t'.devices, id) <= 1 {
      UniqueCount(t'.devices, id);
    }
  }

  /** After a successful message, the device it names exists once; each of
      `temperature`, `fan` and `auto` holds the payload's value when the
      field is present and its earlier value otherwise; `last_seen` is
      `now`; name, location and creation time are untouched; every other
      device is unchanged; the control history is unchanged. */
  lemma IngestMergesFields(t: Tables, topic: string, parsed: Option<Object>, now: int)
    requires TablesValid(t)
    requires Ingest(t, topic, parsed, now).0
    ensures var data := parsed.value;
      var id := ResolveDeviceId(topic, data).value;
      var prior := GetOrCreateRows(t.devices, id, now).value.0;
      var t' := Ingest(t, topic, parsed, now).1;
      && (Find(t.devices, id).Some? ==> prior == Find(t.devices, id).value)
      && CountId(t'.devices, id) == 1
      && Find(t'.devices, id).Some?
      && var d := Find(t'.devices, id).value;
      && d.id == id && d.name == prior.name && d.location == prior.location
      && d.createdAt == prior.createdAt
      && d.lastSeen == Some(now)
      && ("temperature" in data ==> data["temperature"] == NumOrNull(d.lastTemperature))
      && ("temperature" !in data ==> d.lastTemperature == prior.lastTemperature)
      && ("fan" in data ==> BooleanBind(data["fan"]) == Some(d.fanStatus))
      && ("fan" !in data ==> d.fanStatus == prior.fanStatus)
      && ("auto" in data ==> BooleanBind(data["auto"]) == Some(d.autoMode))
      && ("auto" !in data ==> d.autoMode == prior.autoMode)
      && (forall other | other != id :: Find(t'.devices, other) == Find(t.devices, other))
      && t'.controlHistory == t.controlHistory
  {
    var data := parsed.value;
    var id := ResolveDeviceId(topic, data).value;
    var (prior, rows) := GetOrCreateRows(t.devices, id, now).value;
    GetOrCreateOnePerId(t.devices, id, now);
    var d := ApplyTelemetry(prior, data, now).value;
    ReplaceRow(rows, Touch(prior, d, now));
    IngestKeepsTablesValid(t, topic, parsed, now);
    UniqueCount(Ingest(t, topic, parsed, now).1.devices, id);
  }

  /** A successful message appends exactly one reading when it carries
      `temperature`, and none otherwise. The reading is for the resolved
      device, which exists, and its fan and mode are the device's values
      after the merge. */
  lemma IngestReadingIffTemperature(t: Tables, topic: string, parsed: Option<Object>, now: int)
    requires TablesValid(t)
    requires Ingest(t, topic, parsed, now).0
    ensures var data := parsed.value;
      var id := ResolveDeviceId(topic, data).value;
      var t' := Ingest(t, topic, parsed, now).1;
      && Find(t'.devices, id).Some?
      && var d := Find(t'.devices, id).value;
      && ("temperature" in data ==> data["temperature"].JNum? && d.fanStatus.Some? && d.autoMode.Some?)
      && t'.sensorData == t.sensorData +
           (if "temperature" in data
            then [SensorDataModel.SensorReading(|t.sensorData| + 1, id, data["temperature"].x,
                                                d.fanStatus.value, d.autoMode.value, now)]
            else [])
  {
    var data := parsed.value;
    var id := ResolveDeviceId(topic, data).value;
    var (prior, rows) := GetOrCreateRows(t.devices, id, now).value;
    GetOrCreateOnePerId(t.devices, id, now);
    var d := ApplyTelemetry(prior, data, now).value;
    ReplaceRow(rows, Touch(prior, d, now));
  }

  /** A failed message appends no reading and no control record; one that
      did not decode, or named no usable device, changes nothing at all. */
  lemma IngestFailureAppendsNothing(t: Tables, topic: string, parsed: Option<Object>, now: int)
    requires !Ingest(t, topic, parsed, now).0
    ensures Ingest(t, topic, parsed, now).1.sensorData == t.sensorData
    ensures Ingest(t, topic, parsed, now).1.controlHistory == t.controlHistory
    ensures parsed.None? ==> Ingest(t, topic, parsed, now).1 == t
    ensures parsed.Some? && ResolveDeviceId(topic, parsed.value).None? ==> Ingest(t, topic, parsed, now).1 == t
  {
  }

  // ---------------------------------------------------------------------
  // Control dispatch

  /** The history's `command_type` for a setting. */
  function CommandType(s: Setting): string {
    match s
    case FanSetting => "fan_control"
    case ModeSetting => "mode_change"
  }

  /** The history's `command_value` for a command: "on"/"off" for the fan,
      "auto"/"manual" for the mode. */
  function CommandValue(c: Command): string {
    match c.setting
    case FanSetting => if c.value then "on" else "off"
    case ModeSetting => if c.value then "auto" else "manual"
  }

  /** `send_fan_control` / `send_mode_control` on the tables and the
      broker's sent messages: the command is published, and a history record
      is inserted only when the publish succeeded. A source that is not a
      string (JSON null breaks the NOT NULL column) makes that insert fail
      after the publish. */
  function Dispatch(t: Tables, sent: seq<Message>, deviceId: string, command: Command,
                    source: Value, outcome: PublishOutcome, now: int): (bool, Tables, seq<Message>)
  {
    var published := outcome == Returned(0);
    var sent' := if published then sent + [ControlMessage(deviceId, command)] else sent;
    if published && source.JStr? then
      var record := ControlHistoryModel.NewRecord(t.controlHistory, deviceId, CommandType(command.setting),
                                                  CommandValue(command), source.s, now);
      (true, t.(controlHistory := t.controlHistory + [record]), sent')
    else (false, t, sent')
  }

  /** A dispatch publishes exactly the one-field command on the device's
      control topic (a device decodes it back to that command), appends
      exactly one matching history record iff it reports success, and
      touches neither devices nor readings. */
  lemma DispatchRecordsIffSuccess(t: Tables, sent: seq<Message>, deviceId: string, command: Command,
                                  source: Value, outcome: PublishOutcome, now: int)
    ensures var (ok, t', sent') := Dispatch(t, sent, deviceId, command, source, outcome, now);
      && (ok <==> outcome == Returned(0) && source.JStr?)
      && (outcome == Returned(0) ==>
            && sent' == sent + [Message("control/" + deviceId, Payload(command))]
            && ParsePayload(sent'[|sent|].payload) == Some(command)
            && TopicDevice(sent'[|sent|].topic) == Some(deviceId))
      && (outcome != Returned(0) ==> sent' == sent)
      && t'.controlHistory == t.controlHistory +
           (if ok then [ControlHistoryModel.ControlRecord(|t.controlHistory| + 1, deviceId,
                          CommandType(command.setting), CommandValue(command), source.s, now)]
            else [])
      && t'.devices == t.devices && t'.sensorData == t.sensorData
  {
    PayloadRoundTrip(command);
    ControlTopicRoundTrip(deviceId);
  }

  /** The body shared by `send_fan_control` and `send_mode_control`. */
  method SendControl(db: Store, broker: Broker, deviceId: string, command: Command, source: Value,
                     outcome: PublishOutcome, now: int) returns (ok: bool)
    requires db.Valid()
    modifies db, broker
    ensures db.Valid()
    ensures (ok, db.Snapshot(), broker.sent)
         == Dispatch(old(db.Snapshot()), old(broker.sent), deviceId, command, source, outcome, now)
  {
    PayloadIsDumps(command);
    ok := PublishControlCommand(broker, deviceId, CommandObject(command), outcome);
    if ok {
      if !source.JStr? {
        // the record insert raises; the exception is reported as false
        return false;
      }
      var record := db.AddControlRecord(deviceId, CommandType(command.setting), CommandValue(command),
                                        source.s, now);
    }
  }

  /** `send_fan_control`: publishes `{"fan": fanStatus}`. */
  method SendFanControl(db: Store, broker: Broker, deviceId: string, fanStatus: bool, source: Value,
                        outcome: PublishOutcome, now: int) returns (ok: bool)
    requires db.Valid()
    modifies db, broker
    ensures db.Valid()
    ensures (ok, db.Snapshot(), broker.sent)
         == Dispatch(old(db.Snapshot()), old(broker.sent), deviceId, Command(FanSetting, fanStatus),
                     source, outcome, now)
  {
    ok := SendControl(db, broker, deviceId, Command(FanSetting, fanStatus), source, outcome, now);
  }

  /** `send_mode_control`: publishes `{"auto": autoMode}`. */
  method SendModeControl(db: Store, broker: Broker, deviceId: string, autoMode: bool, source: Value,
                         outcome: PublishOutcome, now: int) returns (ok: bool)
    requires db.Valid()
    modifies db, broker
    ensures db.Valid()
    ensures (ok, db.Snapshot(), broker.sent)
         == Dispatch(old(db.Snapshot()), old(broker.sent), deviceId, Command(ModeSetting, autoMode),
                     source, outcome, now)
  {
    ok := SendControl(db, broker, deviceId, Command(ModeSetting, autoMode), source, outcome, now);
  }

  // ---------------------------------------------------------------------
  // Lookups and updates

  /** `get_device_status`: the device's dictionary, or None when absent. */
  function GetDeviceStatus(db: Store, deviceId: string): (r: Option<Object>)
    reads db
    ensures r.None? <==> db.FindDevice(deviceId).None?
    ensures r.Some? ==> FromDict(r.value) == db.FindDevice(deviceId)
  {
    match db.FindDevice(deviceId)
    case None => None
    case Some(d) =>
      DictRoundTrip(d);
      Some(ToDict(d))
  }

  /** `get_all_devices`: every device's dictionary, in table order. */
  function GetAllDevices(db: Store): (r: seq<Object>)
    reads db
    ensures |r| == |db.devices|
    ensures forall i | 0 <= i < |r| :: FromDict(r[i]) == Some(db.devices[i])
  {
    var devices := db.devices;
    assert forall i | 0 <= i < |devices| :: FromDict(ToDict(devices[i])) == Some(devices[i]) by {
      forall i | 0 <= i < |devices| ensures FromDict(ToDict(devices[i])) == Some(devices[i]) {
        DictRoundTrip(devices[i]);
      }
    }
    seq(|devices|, i requires 0 <= i < |devices| => ToDict(devices[i]))
  }

  /** The row after `update_device_info` sets a given name and location;
      None when a given value is not a string (its commit fails). */
  function EditInfo(d: Device, name: Option<Value>, location: Option<Value>): (r: Option<Device>)
    ensures r.Some? <==> (name.Some? ==> name.value.JStr?) && (location.Some? ==> location.value.JStr?)
    ensures r.Some? ==> r.value.(name := d.name, location := d.location) == d
    ensures r.Some? ==> (name.Some? ==> name.value == JStr(r.value.name)) && (name.None? ==> r.value.name == d.name)
    ensures r.Some? ==> (location.Some? ==> location.value == JStr(r.value.location))
                        && (location.None? ==> r.value.location == d.location)
  {
    if (name.Some? && !name.value.JStr?) || (location.Some? && !location.value.JStr?) then None
    else Some(d.(name := if name.Some? then name.value.s else d.name,
                 location := if location.Some? then location.value.s else d.location))
  }

  /** What `update_device_info` reports. */
  datatype UpdateResult = Updated(device: Object) | NotFound | Rejected

  /** `update_device_info`: None (NotFound) and no change for an absent
      device; otherwise only the given name and location are overwritten
      and the updated device's dictionary is returned. */
  method UpdateDeviceInfo(db: Store, deviceId: string, name: Option<Value>, location: Option<Value>,
                          now: int) returns (r: UpdateResult)
    requires db.Valid()
    modifies db
    ensures db.Valid()
    ensures db.sensorData == old(db.sensorData) && db.controlHistory == old(db.controlHistory)
    ensures match old(db.FindDevice(deviceId))
      case None => r == NotFound && db.devices == old(db.devices)
      case Some(d) =>
        match EditInfo(d, name, location)
        case None => r == Rejected && db.devices == old(db.devices)
        case Some(e) =>
          && db.devices == Replace(old(db.devices), Touch(d, e, now))
          && db.FindDevice(deviceId) == Some(Touch(d, e, now))
          && r == Updated(ToDict(Touch(d, e, now)))
  {
    var found := db.FindDevice(deviceId);
    if found.None? {
      return NotFound;
    }
    var device := found.value;
    ghost var prior := device;
    if name.Some? {
      if !name.value.JStr? {
        return Rejected;
      }
      device := device.(name := name.value.s);
    }
    if location.Some? {
      if !location.value.JStr? {
        return Rejected;
      }
      device := device.(location := location.value.s);
    }
    assert EditInfo(prior, name, location) == Some(device);
    ghost var rows := db.devices;
    db.SaveDevice(device, now);
    ReplaceRow(rows, Touch(prior, device, now));
    var saved := db.FindDevice(deviceId).value;
    return Updated(ToDict(saved));
  }
}
