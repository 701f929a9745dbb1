/** The control routes (backend/routes/control_routes.py): POST
    /control/{id}/fan and POST /control/{id}/mode. */
module ControlRoutes {
  import opened Json
  import opened Mqtt
  import opened Http
  import opened Database
  import opened DeviceService

  /** The body field holding the requested value. */
  function BodyKey(s: Setting): string {
    match s
    case FanSetting => "status"
    case ModeSetting => "mode"
  }

  /** The response's field echoing the converted value. */
  function ReplyKey(s: Setting): string {
    match s
    case FanSetting => "fan_status"
    case ModeSetting => "auto_mode"
  }

  function MissingError(s: Setting): string {
    match s
    case FanSetting => "No status provided"
    case ModeSetting => "No mode provided"
  }

  function InvalidError(s: Setting): string {
    match s
    case FanSetting => "Invalid status value"
    case ModeSetting => "Invalid mode value"
  }

  function SendError(s: Setting): string {
    match s
    case FanSetting => "Failed to send control command"
    case ModeSetting => "Failed to send mode command"
  }

  /** The word for a value: "on"/"off" for the fan, "auto"/"manual" for the
      mode (the words the control history records). */
  function Word(s: Setting, value: bool): string {
    CommandValue(Command(s, value))
  }

  /** Python's `v == n` for an int `n`: booleans compare as 0 and 1, numbers
      by value, everything else unequal. */
  predicate EqualsInt(v: Value, n: int) {
    match v
    case JBool(b) => (if b then 1 else 0) == n
    case JNum(x) => x == n as real
    case _ => false
  }

  /** The route's validation and conversion of `status` / `mode`: rejected
      (None) when `not isinstance(v, bool) and v not in (on, off, True,
      False, 0, 1)`, otherwise true exactly when `v == on or v == 1 or v is
      True`. */
  function ParseValue(s: Setting, v: Value): (r: Option<bool>)
    ensures r.Some? <==> v.JBool? || v == JStr(Word(s, true)) || v == JStr(Word(s, false))
                         || v == JNum(0.0) || v == JNum(1.0)
    ensures r == Some(true) <==> v == JBool(true) || v == JStr(Word(s, true)) || v == JNum(1.0)
    ensures r == Some(false) <==> v == JBool(false) || v == JStr(Word(s, false)) || v == JNum(0.0)
  {
    var on, off := JStr(Word(s, true)), JStr(Word(s, false));
    if !v.JBool? && !(v == on || v == off || EqualsInt(v, 1) || EqualsInt(v, 0)) then None
    else Some(v == on || EqualsInt(v, 1) || v == JBool(true))
  }

  /** The value a history record names is accepted by the route and means
      the value that was sent, and so is the JSON boolean. */
  lemma ParseValueRoundTrip(s: Setting, value: bool)
    ensures ParseValue(s, JStr(Word(s, value))) == Some(value)
    ensures ParseValue(s, JBool(value)) == Some(value)
  {
  }

  /** What the handler decides before it dispatches. */
  datatype Decision = Reject(response: Response) | Dispatch(value: bool, source: Value)

  /** The body is missing, empty, lacks the value field, or holds a value
      ParseValue rejects. */
  predicate BadRequest(s: Setting, body: Option<Object>) {
    || body.None? || body.value == map[] || BodyKey(s) !in body.value
    || ParseValue(s, body.value[BodyKey(s)]).None?
  }

  /** Lines 21-53 (fan) and 82-114 (mode): 400 for a bad request first,
      then 404 for an unknown device, and only then a dispatch with the
      converted value and the source (default "app"). */
  function Decide(s: Setting, body: Option<Object>, known: bool): (d: Decision)
    ensures d.Reject? ==> d.response.status == 400 || d.response.status == 404
    ensures d.Reject? && d.response.status == 400 <==> BadRequest(s, body)
    ensures d.Reject? && d.response.status == 404 <==> !BadRequest(s, body) && !known
    ensures d.Reject? ==> !d.response.Success()
    ensures d.Dispatch? ==>
      && body.Some? && BodyKey(s) in body.value
      && ParseValue(s, body.value[BodyKey(s)]) == Some(d.value)
      && d.source == Get(body.value, "source", JStr("app"))
  {
    if body.None? || body.value == map[] || BodyKey(s) !in body.value then
      Reject(Response(400, Failure(MissingError(s))))
    else
      match ParseValue(s, body.value[BodyKey(s)])
      case None => Reject(Response(400, Failure(InvalidError(s))))
      case Some(value) =>
        var source := Get(body.value, "source", JStr("app"));
        if !known then Reject(DeviceNotFound)
        else Dispatch(value, source)
  }

  /** The handler shared by `control_fan` and `control_mode`: decide, and
      when the decision is to dispatch, send the command and answer 500 on
      failure or 200 echoing the converted value. */
  method Control(db: Store, broker: Broker, s: Setting, deviceId: string, body: Option<Object>,
                 outcome: PublishOutcome, now: int) returns (resp: Response)
    requires db.Valid()
    modifies db, broker
    ensures db.Valid()
    ensures match Decide(s, body, old(db.FindDevice(deviceId)).Some?)
      case Reject(response) =>
        resp == response && db.Snapshot() == old(db.Snapshot()) && broker.sent == old(broker.sent)
      case Dispatch(value, source) =>
        var (ok, t, sent) := DeviceService.Dispatch(old(db.Snapshot()), old(broker.sent), deviceId,
                                                   Command(s, value), source, outcome, now);
        && db.Snapshot() == t && broker.sent == sent
        && resp == if ok then Ok(SettingApplied(deviceId, ReplyKey(s), value))
                   else Response(500, Failure(SendError(s)))
  {
    var status := GetDeviceStatus(db, deviceId);
    match Decide(s, body, status.Some?)
    case Reject(response) =>
      resp := response;
    case Dispatch(value, source) =>
      var ok := SendControl(db, broker, deviceId, Command(s, value), source, outcome, now);
      if !ok {
        resp := Response(500, Failure(SendError(s)));
      } else {
        resp := Ok(SettingApplied(deviceId, ReplyKey(s), value));
      }
  }

  /** `control_fan`. */
  method ControlFan(db: Store, broker: Broker, deviceId: string, body: Option<Object>,
                    outcome: PublishOutcome, now: int) returns (resp: Response)
    requires db.Valid()
    modifies db, broker
    ensures db.Valid()
    ensures match Decide(FanSetting, body, old(db.FindDevice(deviceId)).Some?)
      case Reject(response) =>
        resp == response && db.Snapshot() == old(db.Snapshot()) && broker.sent == old(broker.sent)
      case Dispatch(value, source) =>
        var (ok, t, sent) := DeviceService.Dispatch(old(db.Snapshot()), old(broker.sent), deviceId,
                                                   Command(FanSetting, value), source, outcome, now);
        && db.Snapshot() == t && broker.sent == sent
        && resp == if ok then Ok(SettingApplied(deviceId, "fan_status", value))
                   else Response(500, Failure("Failed to send control command"))
  {
    resp := Control(db, broker, FanSetting, deviceId, body, outcome, now);
  }

  /** `control_mode`. */
  method ControlMode(db: Store, broker: Broker, deviceId: string, body: Option<Object>,
                     outcome: PublishOutcome, now: int) returns (resp: Response)
    requires db.Valid()
    modifies db, broker
    ensures db.Valid()
    ensures match Decide(ModeSetting, body, old(db.FindDevice(deviceId)).Some?)
      case Reject(response) =>
        resp == response && db.Snapshot() == old(db.Snapshot()) && broker.sent == old(broker.sent)
      case Dispatch(value, source) =>
        var (ok, t, sent) := DeviceService.Dispatch(old(db.Snapshot()), old(broker.sent), deviceId,
                                                   Command(ModeSetting, value), source, outcome, now);
        && db.Snapshot() == t && broker.sent == sent
        && resp == if ok then Ok(SettingApplied(deviceId, "auto_mode", value))
                   else Response(500, Failure("Failed to send mode command"))
  {
    resp := Control(db, broker, ModeSetting, deviceId, body, outcome, now);
  }
}
