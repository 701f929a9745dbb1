/** The device routes (backend/routes/device_routes.py): GET /devices,
    GET and PUT /devices/{id}, and the two history listings. */
module DeviceRoutes {
  import opened Json
  import opened Http
  import opened DeviceModel
  import opened Database
  import opened DeviceService
  import SensorDataModel
  import ControlHistoryModel

  /** `get_devices`: every device, in table order. */
  function GetDevices(db: Store): (resp: Response)
    reads db
    ensures resp.status == 200 && resp.reply.DeviceList?
    ensures |resp.reply.devices| == |db.devices|
    ensures forall i | 0 <= i < |db.devices| :: FromDict(resp.reply.devices[i]) == Some(db.devices[i])
  {
    Ok(DeviceList(GetAllDevices(db)))
  }

  /** `get_device`: 404 exactly when the device is absent, else its
      dictionary. */
  function GetDevice(db: Store, deviceId: string): (resp: Response)
    reads db
    ensures resp.status == 404 <==> db.FindDevice(deviceId).None?
    ensures resp.status == 404 ==> resp == DeviceNotFound
    ensures resp.status != 404 ==>
      resp.status == 200 && resp.reply.OneDevice? && FromDict(resp.reply.device) == db.FindDevice(deviceId)
  {
    match GetDeviceStatus(db, deviceId)
    case None => DeviceNotFound
    case Some(device) => Ok(OneDevice(device))
  }

  /** `update_device`: 400 for a missing or empty body, 404 for an unknown
      device, 500 when the update cannot be stored, else 200 with the
      updated device. A name or location that is absent or null is left
      alone. */
  method UpdateDevice(db: Store, deviceId: string, body: Option<Object>, now: int)
    returns (resp: Response)
    requires db.Valid()
    modifies db
    ensures db.Valid()
    ensures db.sensorData == old(db.sensorData) && db.controlHistory == old(db.controlHistory)
    ensures body.None? || body.value == map[] ==>
      resp == Response(400, Failure("No data provided")) && db.devices == old(db.devices)
    ensures body.Some? && body.value != map[] ==>
      match old(db.FindDevice(deviceId))
      case None => resp == DeviceNotFound && db.devices == old(db.devices)
      case Some(d) =>
        match EditInfo(d, Given(body.value, "name"), Given(body.value, "location"))
        case None => resp == Response(500, Failure("Failed to update device")) && db.devices == old(db.devices)
        case Some(e) =>
          && db.devices == Replace(old(db.devices), Touch(d, e, now))
          && resp.status == 200 && resp.reply.OneDevice?
          && FromDict(resp.reply.device) == Some(Touch(d, e, now))
  {
    if body.None? || body.value == map[] {
      return Response(400, Failure("No data provided"));
    }
    var name := Given(body.value, "name");
    var location := Given(body.value, "location");
    var updated := UpdateDeviceInfo(db, deviceId, name, location, now);
    match updated
    case NotFound =>
      resp := DeviceNotFound;
    case Rejected =>
      // the failed commit raises; the handler answers 500
      resp := Response(500, Failure("Failed to update device"));
    case Updated(device) =>
      DictRoundTrip(db.FindDevice(deviceId).value);
      resp := Ok(OneDevice(device));
  }

  /** `get_device_sensor_data`: 404 exactly when the device is absent;
      otherwise the `limit` (default 100) most recent readings, newest
      first. `limitArg` is the query argument as Flask's `type=int` reads it
      (None when absent or not an integer). */
  function GetDeviceSensorData(db: Store, deviceId: string, limitArg: Option<int>): (resp: Response)
    reads db
    ensures resp.status == 404 <==> db.FindDevice(deviceId).None?
    ensures resp.status == 404 ==> resp == DeviceNotFound
    ensures resp.status != 404 ==>
      && resp.status == 200 && resp.reply.SensorDataList? && resp.reply.deviceId == deviceId
      && var readings := SensorDataModel.RecentData(db.sensorData, deviceId, limitArg.GetOr(SensorDataModel.DefaultLimit));
      && |resp.reply.sensorData| == |readings|
      && forall i | 0 <= i < |readings| :: SensorDataModel.FromDict(resp.reply.sensorData[i]) == Some(readings[i])
  {
    var limit := limitArg.GetOr(SensorDataModel.DefaultLimit);
    match GetDeviceStatus(db, deviceId)
    case None => DeviceNotFound
    case Some(_) =>
      Ok(SensorDataList(deviceId, SensorDataModel.ToDicts(SensorDataModel.RecentData(db.sensorData, deviceId, limit))))
  }

  /** `get_device_control_history`: 404 exactly when the device is absent;
      otherwise the `limit` (default 50) most recent records, newest first. */
  function GetDeviceControlHistory(db: Store, deviceId: string, limitArg: Option<int>): (resp: Response)
    reads db
    ensures resp.status == 404 <==> db.FindDevice(deviceId).None?
    ensures resp.status == 404 ==> resp == DeviceNotFound
    ensures resp.status != 404 ==>
      && resp.status == 200 && resp.reply.ControlHistoryList? && resp.reply.deviceId == deviceId
      && var records := ControlHistoryModel.RecentHistory(db.controlHistory, deviceId, limitArg.GetOr(ControlHistoryModel.DefaultLimit));
      && |resp.reply.controlHistory| == |records|
      && forall i | 0 <= i < |records| :: ControlHistoryModel.FromDict(resp.reply.controlHistory[i]) == Some(records[i])
  {
    var limit := limitArg.GetOr(ControlHistoryModel.DefaultLimit);
    match GetDeviceStatus(db, deviceId)
    case None => DeviceNotFound
    case Some(_) =>
      Ok(ControlHistoryList(deviceId, ControlHistoryModel.ToDicts(ControlHistoryModel.RecentHistory(db.controlHistory, deviceId, limit))))
  }
}
