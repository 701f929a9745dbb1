/** The JSON responses the route handlers return: a status code and the
    body `jsonify` renders. */
module Http {
  import opened Json

  datatype Reply =
    | Failure(error: string)                                  // {"success": false, "error": ...}
    | DeviceList(devices: seq<Object>)                        // {"success": true, "devices": [...]}
    | OneDevice(device: Object)                               // {"success": true, "device": {...}}
    | SensorDataList(deviceId: string, sensorData: seq<Object>)
    | ControlHistoryList(deviceId: string, controlHistory: seq<Object>)
    | SettingApplied(deviceId: string, key: string, value: bool) // {"success": true, "device_id": ..., key: value}

  datatype Response = Response(status: int, reply: Reply) {
    /** The body's `success` field. */
    predicate Success() {
      !reply.Failure?
    }
  }

  function Ok(reply: Reply): Response {
    Response(200, reply)
  }

  const DeviceNotFound: Response := Response(404, Failure("Device not found"))
}
