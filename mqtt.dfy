/** The backend's side of the broker: the control topic, the command payload
    and `publish_control_command`. The broker connection itself is outside
    the model; what it answers to a publish is a parameter. */
module Mqtt {
  import opened Json

  /** Which device setting a control command changes. */
  datatype Setting = FanSetting | ModeSetting

  /** A one-field control command: `{"fan": value}` or `{"auto": value}`. */
  datatype Command = Command(setting: Setting, value: bool)

  /** The command's only key. */
  function Key(s: Setting): string {
    match s
    case FanSetting => "fan"
    case ModeSetting => "auto"
  }

  /** The command as the dictionary the service builds and hands to the
      publisher. */
  function CommandObject(c: Command): (o: Object)
    ensures o.Keys == {Key(c.setting)}
    ensures o[Key(c.setting)] == JBool(c.value)
  {
    map[Key(c.setting) := JBool(c.value)]
  }

  const ControlPrefix: string := "control/"

  /** The topic a device listens on for commands. */
  function ControlTopic(deviceId: string): string {
    ControlPrefix + deviceId
  }

  /** The device a control topic is addressed to: the partner of ControlTopic. */
  function TopicDevice(topic: string): Option<string> {
    if |ControlPrefix| <= |topic| && topic[..|ControlPrefix|] == ControlPrefix
    then Some(topic[|ControlPrefix|..])
    else None
  }

  lemma ControlTopicRoundTrip(deviceId: string)
    ensures TopicDevice(ControlTopic(deviceId)) == Some(deviceId)
  {
    var t := ControlTopic(deviceId);
    assert t[..|ControlPrefix|] == ControlPrefix;
    assert t[|ControlPrefix|..] == deviceId;
  }

  /** Distinct devices are sent commands on distinct topics. */
  lemma ControlTopicInjective(a: string, b: string)
    ensures ControlTopic(a) == ControlTopic(b) ==> a == b
  {
    ControlTopicRoundTrip(a);
    ControlTopicRoundTrip(b);
  }

  /** A key `json.dumps` writes between quotes as it is: printable ASCII
      other than the quote and the backslash, which would be escaped. */
  predicate PlainKey(k: string) {
    forall i | 0 <= i < |k| :: ' ' <= k[i] <= '~' && k[i] != '"' && k[i] != '\\'
  }

  /** A set with one element has no two different elements. */
  lemma SingletonSet(keys: set<string>)
    requires |keys| == 1
    ensures forall a, b | a in keys && b in keys :: a == b
  {
    var x :| x in keys;
    var rest := keys - {x};
    assert |rest| == 0;
    assert rest == {};
    forall y | y in keys ensures y == x {
      assert y !in rest;
    }
  }

  /** `json.dumps` with its default separators (", " and ": ") for the only
      shape the backend publishes: one plain key mapped to a boolean. The
      text of any other dictionary is not part of this model (None). */
  function Dumps(o: Object): (r: Option<string>)
    ensures r.Some? <==> |o.Keys| == 1 && forall k | k in o :: PlainKey(k) && o[k].JBool?
    ensures r.Some? ==> forall k | k in o ::
              r.value == "{\"" + k + "\": " + (if o[k].b then "true" else "false") + "}"
  {
    if |o.Keys| == 1 && forall k | k in o :: PlainKey(k) && o[k].JBool? then
      SingletonSet(o.Keys);
      var k :| k in o;
      Some("{\"" + k + "\": " + (if o[k].b then "true" else "false") + "}")
    else None
  }

  /** The text a device receives for a command. */
  function Payload(c: Command): string {
    "{\"" + Key(c.setting) + "\": " + (if c.value then "true" else "false") + "}"
  }

  /** Reads `{"<key>": true}` or `{"<key>": false}` for the key of `s`. */
  function ParseField(p: string, s: Setting): Option<bool> {
    var head := "{\"" + Key(s) + "\": ";
    if |head| <= |p| && p[..|head|] == head then
      var rest := p[|head|..];
      if rest == "true}" then Some(true)
      else if rest == "false}" then Some(false)
      else None
    else None
  }

  /** What a device decodes from a command payload: the partner of Payload. */
  function ParsePayload(p: string): Option<Command> {
    match ParseField(p, FanSetting)
    case Some(b) => Some(Command(FanSetting, b))
    case None =>
      match ParseField(p, ModeSetting)
      case Some(b) => Some(Command(ModeSetting, b))
      case None => None
  }

  lemma PayloadRoundTrip(c: Command)
    ensures ParsePayload(Payload(c)) == Some(c)
  {
    var p := Payload(c);
    var head := "{\"" + Key(c.setting) + "\": ";
    var tail := if c.value then "true}" else "false}";
    assert p == head + tail;
    assert p[..|head|] == head;
    assert p[|head|..] == tail;
    if c.setting == ModeSetting {
      // the payload starts `{"a`, so it is not a fan command
      assert p[2] == 'a';
      assert ("{\"" + Key(FanSetting) + "\": ")[2] == 'f';
    }
  }

  /** The payload is the `json.dumps` text of the command's dictionary. */
  lemma PayloadIsDumps(c: Command)
    ensures Dumps(CommandObject(c)) == Some(Payload(c))
  {
    var o := CommandObject(c);
    assert |o.Keys| == 1;
    assert PlainKey(Key(c.setting));
  }

  /** Distinct commands are published as distinct payloads. */
  lemma PayloadInjective(c: Command, d: Command)
    ensures Payload(c) == Payload(d) ==> c == d
  {
    PayloadRoundTrip(c);
    PayloadRoundTrip(d);
  }

  /** A message handed to the broker. */
  datatype Message = Message(topic: string, payload: string)

  /** What the client's `publish` did: returned a result code, or raised. */
  datatype PublishOutcome = Returned(rc: int) | Raised

  /** The broker client. `sent` holds the messages it accepted for sending,
      in order. */
  class Broker {
    var sent: seq<Message>

    constructor()
      ensures sent == []
    {
      sent := [];
    }
  }

  /** The message `publish_control_command` builds for a device and a command. */
  function ControlMessage(deviceId: string, c: Command): Message {
    Message(ControlTopic(deviceId), Payload(c))
  }

  /** Publishes the `json.dumps` text of `command` on the device's control
      topic. It reports success exactly when the client returned result
      code 0; an exception becomes `false` and is not propagated. */
  method PublishControlCommand(broker: Broker, deviceId: string, command: Object,
                               outcome: PublishOutcome) returns (ok: bool)
    modifies broker
    ensures ok <==> Dumps(command).Some? && outcome == Returned(0)
    ensures broker.sent == if ok then old(broker.sent) + [Message(ControlTopic(deviceId), Dumps(command).value)]
                           else old(broker.sent)
  {
    var payload := Dumps(command);
    if payload.None? {
      // a dictionary whose text is outside the model
      return false;
    }
    var topic := ControlTopic(deviceId);
    match outcome
    case Raised =>
      ok := false;
    case Returned(rc) =>
      ok := rc == 0;
      if ok {
        broker.sent := broker.sent + [Message(topic, payload.value)];
      }
  }
}
