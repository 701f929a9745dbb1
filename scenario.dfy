/** The end-to-end exchange the system is built around: a first telemetry
    message on `device/exhaust_fan_1` creates the device with the reported
    values and records a reading; a fan command through the control route
    then publishes `{"fan": false}` on `control/exhaust_fan_1` and records
    the command. */
module Scenario {
  import opened Json
  import opened Mqtt
  import opened DeviceModel
  import opened Database
  import DeviceService
  import ControlRoutes
  import Http
  import SensorDataModel
  import Recent
  import ControlHistoryModel

  function Telemetry(): Object {
    map["temperature" := JNum(36.5), "fan" := JBool(true), "auto" := JBool(true)]
  }

  function FanOff(): Object {
    map["status" := JStr("off"), "source" := JStr("app")]
  }

  /** The device `exhaust_fan_1` as the first message leaves it. */
  function ReportedFan(): Device {
    Device("exhaust_fan_1", "Exhaust Fan 1", "Unknown", Some(36.5), Some(true), Some(true), Some(1), 1, 1)
  }

  /** The first message names `exhaust_fan_1` by its topic and creates it. */
  lemma FirstTelemetryCreates()
    ensures DeviceService.Ingest(Tables([], [], []), "device/exhaust_fan_1", Some(Telemetry()), 1)
         == DeviceService.Merge(Tables([NewDevice("exhaust_fan_1", 1)], [], []), "exhaust_fan_1",
                                NewDevice("exhaust_fan_1", 1), Telemetry(), 1)
  {
    assert "device/exhaust_fan_1" == "device/" + "exhaust_fan_1";
    DeviceService.ResolveFromTopic("exhaust_fan_1", Telemetry());
    var created := NewDevice("exhaust_fan_1", 1);
    var none: seq<Device> := [];
    assert GetOrCreateRows(none, "exhaust_fan_1", 1) == Some((created, none + [created]));
    assert none + [created] == [created];
  }

  /** Merging the first message sets the reported values and adds one
      reading. */
  lemma FirstTelemetryMerges()
    ensures DeviceService.Merge(Tables([NewDevice("exhaust_fan_1", 1)], [], []), "exhaust_fan_1",
                                NewDevice("exhaust_fan_1", 1), Telemetry(), 1)
         == (true, Tables([ReportedFan()], [SensorDataModel.SensorReading(1, "exhaust_fan_1", 36.5, true, true, 1)], []))
  {
    var created := NewDevice("exhaust_fan_1", 1);
    assert |"exhaust_fan_1"| == 13;
    assert created.name == "Exhaust Fan 1";
    assert DeviceService.ApplyTelemetry(created, Telemetry(), 1) == Some(ReportedFan());
    assert Touch(created, ReportedFan(), 1) == ReportedFan();
    assert IndexOf([created], "exhaust_fan_1") == Some(0);
    assert Replace([created], ReportedFan()) == [ReportedFan()];
    var none: seq<SensorDataModel.SensorReading> := [];
    var reading := SensorDataModel.SensorReading(1, "exhaust_fan_1", 36.5, true, true, 1);
    assert none + [reading] == [reading];
  }

  /** The request `{"status": "off", "source": "app"}` on a known device is
      accepted as "fan off" from the app. */
  lemma FanOffAccepted()
    ensures ControlRoutes.Decide(FanSetting, Some(FanOff()), true) == ControlRoutes.Dispatch(false, JStr("app"))
  {
    assert ControlRoutes.Word(FanSetting, false) == "off";
    assert ControlRoutes.ParseValue(FanSetting, JStr("off")) == Some(false);
    assert ControlRoutes.BodyKey(FanSetting) in FanOff();
  }

  /** Dispatching "fan off" with a successful publish sends one message and
      records one command. */
  lemma FanCommand(t: Tables)
    requires t.controlHistory == []
    ensures DeviceService.Dispatch(t, [], "exhaust_fan_1", Command(FanSetting, false), JStr("app"), Returned(0), 2)
         == (true, t.(controlHistory := [ControlHistoryModel.ControlRecord(1, "exhaust_fan_1", "fan_control", "off", "app", 2)]),
             [Message("control/exhaust_fan_1", "{\"fan\": false}")])
  {
    var message := ControlMessage("exhaust_fan_1", Command(FanSetting, false));
    assert message == Message("control/exhaust_fan_1", "{\"fan\": false}");
    var none: seq<Message> := [];
    assert none + [message] == [message];
    var record := ControlHistoryModel.ControlRecord(1, "exhaust_fan_1", "fan_control", "off", "app", 2);
    assert t.controlHistory + [record] == [record];
  }

  /** A message carrying only `fan` flips the fan of a device that reported
      30 degrees, keeps its temperature and auto mode, and records no
      reading. */
  lemma FanOnlyMessage(prior: Device, now: int)
    requires prior.lastTemperature == Some(30.0) && prior.fanStatus == Some(false) && prior.autoMode == Some(true)
    ensures DeviceService.Merge(Tables([prior], [], []), prior.id, prior, map["fan" := JBool(true)], now)
         == (true, Tables([prior.(fanStatus := Some(true), lastSeen := Some(now), updatedAt := now)], [], []))
  {
    var after := prior.(fanStatus := Some(true), lastSeen := Some(now));
    assert DeviceService.ApplyTelemetry(prior, map["fan" := JBool(true)], now) == Some(after);
    assert Touch(prior, after, now) == after.(updatedAt := now);
    assert IndexOf([prior], prior.id) == Some(0);
    assert Replace([prior], after.(updatedAt := now)) == [after.(updatedAt := now)];
  }

  /** `{"fan": null}` is stored: the fan column becomes NULL and the message
      succeeds. */
  lemma NullFanStored(prior: Device, now: int)
    requires prior.fanStatus == Some(false)
    ensures DeviceService.Merge(Tables([prior], [], []), prior.id, prior, map["fan" := JNull], now)
         == (true, Tables([prior.(fanStatus := None, lastSeen := Some(now), updatedAt := now)], [], []))
  {
    var after := prior.(fanStatus := None, lastSeen := Some(now));
    assert DeviceService.ApplyTelemetry(prior, map["fan" := JNull], now) == Some(after);
    assert IndexOf([prior], prior.id) == Some(0);
    assert Replace([prior], after.(updatedAt := now)) == [after.(updatedAt := now)];
  }

  /** With a temperature as well, the device row is still committed with the
      NULL fan, but the reading cannot be stored and the message fails. */
  lemma NullFanWithTemperature(prior: Device, now: int)
    requires prior.fanStatus == Some(false)
    ensures DeviceService.Merge(Tables([prior], [], []), prior.id, prior,
                                map["temperature" := JNum(31.0), "fan" := JNull], now)
         == (false, Tables([prior.(lastTemperature := Some(31.0), fanStatus := None,
                                   lastSeen := Some(now), updatedAt := now)], [], []))
  {
    var data := map["temperature" := JNum(31.0), "fan" := JNull];
    var after := prior.(lastTemperature := Some(31.0), fanStatus := None, lastSeen := Some(now));
    assert DeviceService.ApplyTelemetry(prior, data, now) == Some(after);
    assert IndexOf([prior], prior.id) == Some(0);
    assert Replace([prior], after.(updatedAt := now)) == [after.(updatedAt := now)];
  }

  lemma SameDeviceReadings(a: SensorDataModel.SensorReading, b: SensorDataModel.SensorReading, c: SensorDataModel.SensorReading)
    requires a.deviceId == b.deviceId == c.deviceId
    ensures SensorDataModel.ReadingsOf([a, b, c], a.deviceId) == [a, b, c]
  {
    Recent.SelectAll([a, b, c], SensorDataModel.DeviceOf, a.deviceId);
  }

  lemma TwoOfThreeReversed(a: SensorDataModel.SensorReading, b: SensorDataModel.SensorReading, c: SensorDataModel.SensorReading)
    ensures Recent.Take(Recent.Reversed([a, b, c]), 2) == [c, b]
  {
    assert Recent.Reversed([a, b, c]) == [c, b, a];
  }

  /** Of three readings taken at times 1 < 2 < 3, the two most recent come
      back newest first. */
  lemma TwoMostRecent(a: SensorDataModel.SensorReading, b: SensorDataModel.SensorReading, c: SensorDataModel.SensorReading)
    requires a.deviceId == b.deviceId == c.deviceId
    requires a.timestamp == 1 && b.timestamp == 2 && c.timestamp == 3
    ensures SensorDataModel.RecentData([a, b, c], a.deviceId, 2) == [c, b]
  {
    SameDeviceReadings(a, b, c);
    assert Recent.OldestFirst([a, b, c], SensorDataModel.Stamp);
    TwoOfThreeReversed(a, b, c);
    SensorDataModel.RecentDataChronological([a, b, c], a.deviceId, 2);
  }

  /** Runs the exchange on a fresh store and broker. */
  method EndToEnd() {
    var db := new Store();
    var broker := new Broker();
    FirstTelemetryCreates();
    FirstTelemetryMerges();
    var ok := DeviceService.ProcessDeviceMessage(db, "device/exhaust_fan_1", Some(Telemetry()), 1);
    assert ok && db.devices == [ReportedFan()];
    FanOffAccepted();
    FanCommand(db.Snapshot());
    var resp := ControlRoutes.ControlFan(db, broker, "exhaust_fan_1", Some(FanOff()), Returned(0), 2);
    assert resp == Http.Ok(Http.SettingApplied("exhaust_fan_1", "fan_status", false));
    assert broker.sent == [Message("control/exhaust_fan_1", "{\"fan\": false}")];
    assert db.controlHistory == [ControlHistoryModel.ControlRecord(1, "exhaust_fan_1", "fan_control", "off", "app", 2)];
  }
}
