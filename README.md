# Exhaust fan backend: device state pipeline in Dafny

This project models the Python backend of the exhaust fan IoT system:
- how telemetry arriving over MQTT updates the stored devices and the sensor log;
- how fan and mode commands are published and recorded in the control history;
- how the HTTP routes validate requests and pick their status codes;
- the "most recent N, newest first" queries on both logs;
- the database script that seeds the two default fans and purges the tables.

The database is a class `Database.Store` with three tables:
- `devices`, in insertion order;
- `sensorData`, append-only;
- `controlHistory`, append-only.

Its invariant `Valid()` says two things: a device id occurs at most once, which is the primary key, and the records of each log are numbered 1, 2, 3, … in insertion order.

Each operation that writes to the database is a method with a `modifies` clause. Its `ensures` ties the new tables to a pure function of the old ones: `Ingest` for an incoming message, `Dispatch` for a control command, `Seeded` for initialisation. Lemmas then prove what the source promises about those functions.

Pure lookups and queries are functions. Dictionaries (`to_dict`) are JSON objects `map<string, Value>`. Each has a `FromDict` partner, and a round-trip lemma shows that nothing is lost.

Inputs the program gets from outside the model become parameters:
- **The clock.** Every writing operation takes `now: int`, which stands for `datetime.utcnow()`.
- **The MQTT publish result.** It is a `PublishOutcome`: either `Returned(rc)` or `Raised`.
- **The decoded message or request body.** It is `Option<Object>`.
  - For an MQTT message, `None` is a payload that does not decode as UTF-8 JSON. `json.loads` raises there, and the service returns False.
  - For an HTTP request, `None` is the body that the `not data` test rejects: `get_json()` gave None, or the JSON was `null`.

Temperatures are `real`. The program only copies them, and a JSON number `1` equals `1.0` and `True` under Python's `==`, which `ControlRoutes.EqualsInt` models.

`Scenario` replays one end-to-end exchange. A first message on `device/exhaust_fan_1` creates the fan with the reported values and one reading. The route `POST /control/exhaust_fan_1/fan` with `{"status": "off", "source": "app"}` then publishes `{"fan": false}` on `control/exhaust_fan_1` and records `fan_control`/`off`/`app`. Every step follows from the operations' contracts.

Behaviour of the code that the model keeps on purpose:
- **Ingestion commits twice.** The device update is committed before the reading is inserted. A message whose `temperature` is JSON `null` therefore leaves the device updated, with a null temperature, while the reading insert fails on the non-null column and the call returns False. `Merge` models this.
- **Device creation reads the last character of the id.** An empty id raises before anything is inserted, so the message fails and no device is created.
- **A null `source` in a control request.** The command is published first, then the history insert fails on the non-null column, so the route answers 500 even though the device received the command. `Dispatch` and `ControlRoutes.Control` model this.
- **Query limits.** A negative `limit` returns every record, as SQLite's `LIMIT -1` does.
- **Ties in the ordering.** `order_by(timestamp.desc())` leaves records with equal timestamps in no defined order. The model's choice is to put the later insertion first, which is what SQLite's reverse scan of the timestamp index gives.
- **Null or numeric `fan` and `auto`.** The device's `fan_status` and `auto_mode` columns are nullable. SQLAlchemy's `Boolean` type stores None, True and False, and also 0 and 1 because Python finds them equal to False and True. So a message with `"fan": null` commits the device with a NULL fan. If the message also has a `temperature`, the reading insert then fails on its non-null `fan_status` and the call returns False. Any other value fails the device commit. `DeviceModel.BooleanBind` and `Merge` model this.
- **`updated_at` is refreshed only when a row actually changes**, as SQLAlchemy's `onupdate` behaves.

## Model

| member | source | states |
|---|---|---|
| Mqtt.CommandObject | backend/services/device_service.py:86-88 | the dictionary the service builds has the setting's one key, `fan` or `auto`, mapped to the requested boolean |
| Mqtt.Dumps | backend/mqtt_client.py:26 | `json.dumps` of a dictionary with one plain key mapped to a boolean is `{"<key>": true}` or `{"<key>": false}`; other shapes are outside the model |
| Mqtt.PayloadIsDumps | backend/mqtt_client.py:26 | the payload published for a command is the `json.dumps` text of the command's dictionary |
| Mqtt.ControlTopicRoundTrip | backend/mqtt_client.py:29 | the device id is recovered from the topic `control/<id>` |
| Mqtt.ControlTopicInjective | backend/mqtt_client.py:29 | two devices never share a control topic |
| Mqtt.PayloadRoundTrip | backend/mqtt_client.py:26 | the JSON text of a command, as `json.dumps` writes it, parses back to the same setting and value |
| Mqtt.PayloadInjective | backend/mqtt_client.py:26 | different commands give different payloads |
| Mqtt.PublishControlCommand | backend/mqtt_client.py:11-38 | returns True exactly when the client's return code is 0; an exception gives False; the message `(control/<id>, json.dumps(command))` is sent only on success |
| Recent.Select | backend/models/sensor_data.py:72 | the filter keeps every occurrence of each wanted record and nothing else |
| Recent.Insert | backend/models/sensor_data.py:73 | inserting into a newest-first list keeps it newest first and one longer, with the new record or the old head in front |
| Recent.InsertPermutes | backend/models/sensor_data.py:73 | inserting adds exactly that record: the new multiset is the old one plus it |
| Recent.Sort | backend/models/sensor_data.py:73 | the result is newest first and a permutation of the input |
| Recent.Take | backend/models/sensor_data.py:74 | `limit` keeps a prefix of length min(limit, n); a negative limit keeps everything |
| Recent.Query | backend/models/sensor_data.py:72-75 | only wanted records, newest first, length min(limit, count), drawn from the log, and no omitted wanted record is newer than the last one returned |
| Recent.SelectAll | backend/models/sensor_data.py:72 | when every record is wanted the filter returns the whole log |
| Recent.SortChronological | backend/models/sensor_data.py:73 | a log kept in time order sorts to its reverse, so ties go to the later insertion |
| Recent.QueryChronological | backend/models/sensor_data.py:72-75 | on a time-ordered log the query is the `limit` latest wanted records, latest first |
| SensorDataModel.NewReading | backend/models/sensor_data.py:48-58 | a new reading carries the next id and keeps the log numbered 1..n |
| SensorDataModel.RecentDataProperties | backend/models/sensor_data.py:61-75 | readings of the device only, non-increasing timestamps, length min(limit, count), and none of the device's omitted readings is newer than the last returned |
| SensorDataModel.RecentDataChronological | backend/models/sensor_data.py:61-75 | readings stored in time order come back as the `limit` latest, newest first |
| SensorDataModel.ToDict | backend/models/sensor_data.py:23-32 | the dictionary has exactly the six keys of `to_dict` |
| SensorDataModel.DictRoundTrip | backend/models/sensor_data.py:23-32 | a reading is recovered from its dictionary |
| SensorDataModel.ToDicts | backend/routes/device_routes.py:112 | the listing has one dictionary per reading, in order, each decoding to that reading |
| ControlHistoryModel.NewRecord | backend/models/control_history.py:48-58 | a new record carries the next id and keeps the log numbered 1..n |
| ControlHistoryModel.RecentHistoryProperties | backend/models/control_history.py:61-75 | records of the device only, non-increasing timestamps, length min(limit, count), and none of the device's omitted records is newer than the last returned |
| ControlHistoryModel.RecentHistoryChronological | backend/models/control_history.py:61-75 | records stored in time order come back as the `limit` latest, newest first |
| ControlHistoryModel.ToDict | backend/models/control_history.py:23-32 | the dictionary has exactly the six keys of `to_dict` |
| ControlHistoryModel.DictRoundTrip | backend/models/control_history.py:23-32 | a record is recovered from its dictionary |
| ControlHistoryModel.ToDicts | backend/routes/device_routes.py:143 | the listing has one dictionary per record, in order, each decoding to that record |
| DeviceModel.IndexOf | backend/models/device.py:55 | the position of the first row with the id, or none exactly when no row has it |
| DeviceModel.Find | backend/models/device.py:55 | `query.get` returns a stored device with that id, or nothing when no stored device has it |
| DeviceModel.UniqueCount | backend/models/device.py:13 | with ids unique, an id occurs once if found and otherwise not at all |
| DeviceModel.AppendNew | backend/models/device.py:64-65 | inserting a device under a new id keeps ids unique, finds the new device and changes no other lookup |
| DeviceModel.ReplaceRow | backend/services/device_service.py:54 | committing a changed row keeps ids unique and changes the lookup of that id only |
| DeviceModel.GetOrCreateRows | backend/models/device.py:55-67 | an existing device is returned with the table unchanged; otherwise one device is appended with name `Exhaust Fan ` + last character of the id, location `Unknown`, no temperature, fan off, auto on; an empty id fails |
| DeviceModel.BooleanBind | backend/models/device.py:17-18 | a `Boolean` column stores null as NULL, a boolean as itself and 0 or 1 as False or True; any other value fails |
| DeviceModel.BooleanBindRoundTrip | backend/models/device.py:17-18 | a stored boolean or NULL written back is stored unchanged |
| DeviceModel.GetOrCreateOnePerId | backend/models/device.py:55-65 | after `get_or_create` exactly one device has the id and every other id finds what it found before |
| DeviceModel.Touch | backend/models/device.py:20-21 | `updated_at` becomes the current time exactly when the row changed; `created_at` and all other fields are as written |
| DeviceModel.ToDict | backend/models/device.py:30-42 | the nine keys of `to_dict`; `last_seen`, `last_temperature`, `fan_status` and `auto_mode` are null exactly when NULL |
| DeviceModel.DictRoundTrip | backend/models/device.py:30-42 | a device is recovered from its dictionary |
| Database.Store.InsertDevice | backend/models/device.py:64-65 | appends the device to the table and leaves both logs alone |
| Database.Store.GetOrCreate | backend/models/device.py:55-67 | the devices table and the result follow `GetOrCreateRows`; the logs are unchanged |
| Database.Store.SaveDevice | backend/services/device_service.py:54 | the row with the device's id is replaced by the written device, with `updated_at` set as `Touch` says |
| Database.Store.AddSensorReading | backend/models/sensor_data.py:48-58 | appends exactly one reading with the given fields and the current time; nothing else changes |
| Database.Store.AddControlRecord | backend/models/control_history.py:48-58 | appends exactly one record with the given fields and the current time; nothing else changes |
| DeviceService.LastSegment | backend/services/device_service.py:37 | the text after the last `/`: a suffix of the topic with no `/`, preceded by `/` when shorter than the topic |
| DeviceService.LastSegmentAfterSlash | backend/services/device_service.py:37 | for `prefix/id` with no `/` in id, the last segment is id |
| DeviceService.ResolveDeviceId | backend/services/device_service.py:33-37 | the payload's `device_id` when that key is present (a non-string fails), otherwise the last segment of the topic |
| DeviceService.ResolveFromTopic | backend/services/device_service.py:33-37 | a payload without `device_id` on `device/<id>` resolves to id |
| DeviceService.ApplyTelemetry | backend/services/device_service.py:43-51 | the row can be committed exactly when each present field fits its column (a number or null temperature; a boolean, null, 0 or 1 for fan and auto); then each present field is overwritten with what its column stores, `last_seen` becomes now, and nothing else changes |
| DeviceService.MergeFields | backend/services/device_service.py:43-51 | the step-by-step assignments give exactly `ApplyTelemetry`: present keys overwritten, including with null, a value the column refuses fails, `last_seen` stamped |
| DeviceService.ProcessDeviceMessage | backend/services/device_service.py:14-70 | result and new tables are those of `Ingest` on the old tables |
| DeviceService.MergeTelemetry | backend/services/device_service.py:43-63 | result and new tables are those of `Merge`: device committed first, with nulls kept; then a reading when temperature is a number and the fan and mode it gets are non-null, otherwise False with the device already updated |
| DeviceService.IngestSucceeds | backend/services/device_service.py:14-70 | a message succeeds exactly when it parses, its id resolves to a stored device or a non-empty string, its fields fit the device columns, and, when it has `temperature`, that is a number and the reading's fan and mode, from the payload or else the stored row, are non-null |
| DeviceService.IngestKeepsTablesValid | backend/services/device_service.py:39-63 | ingestion keeps at most one device per id and both logs numbered |
| DeviceService.IngestMergesFields | backend/services/device_service.py:43-54 | after a successful message the device exists once; present fields are overwritten, absent ones kept; name, location and created_at kept; last_seen is now; other devices and the history are unchanged |
| DeviceService.IngestReadingIffTemperature | backend/services/device_service.py:57-63 | a successful message appends exactly one reading iff it has `temperature`, carrying the merged device's fan and auto values, which are then non-null; otherwise the log is unchanged |
| DeviceService.IngestFailureAppendsNothing | backend/services/device_service.py:24-70 | a failed message appends no reading or record, and an unparsable payload or bad `device_id` changes nothing |
| DeviceService.DispatchRecordsIffSuccess | backend/services/device_service.py:84-108 | exactly one message `{"fan"/"auto": value}` is sent iff publish returns 0; exactly one history record (type, on/off or auto/manual, source) is appended iff that happened and the source is a string; the devices and readings never change |
| DeviceService.SendControl | backend/services/device_service.py:84-108 | result, tables and sent messages are those of `Dispatch` |
| DeviceService.SendFanControl | backend/services/device_service.py:72-108 | `Dispatch` with the fan command |
| DeviceService.SendModeControl | backend/services/device_service.py:110-146 | `Dispatch` with the mode command |
| DeviceService.GetDeviceStatus | backend/services/device_service.py:148-163 | none exactly when the device is absent; otherwise a dictionary decoding to the stored device |
| DeviceService.GetAllDevices | backend/services/device_service.py:165-173 | one dictionary per stored device, in table order, each decoding to that device |
| DeviceService.EditInfo | backend/services/device_service.py:192-196 | name and location are overwritten only when given; nothing else changes; a non-string value cannot be stored |
| DeviceService.UpdateDeviceInfo | backend/services/device_service.py:175-200 | an absent device gives NotFound and no change; otherwise only the given name/location change, `updated_at` as `Touch` says, and the returned dictionary decodes to the new row |
| ControlRoutes.ParseValue | backend/routes/control_routes.py:30-40 | a value is accepted iff it is a bool, the on/off (auto/manual) word, or equal to 0 or 1; true iff it is True, the on (auto) word or 1 |
| ControlRoutes.ParseValueRoundTrip | backend/routes/control_routes.py:37-40 | each word and each bool parses to the value it names |
| ControlRoutes.Decide | backend/routes/control_routes.py:14-53 | 400 for a missing body, key or invalid value, else 404 for an unknown device, else dispatch with source defaulting to `app` |
| ControlRoutes.Control | backend/routes/control_routes.py:14-73 | a rejected request changes nothing and publishes nothing; otherwise the tables and messages follow `Dispatch`, and the reply is 200 echoing the value or 500 |
| ControlRoutes.ControlFan | backend/routes/control_routes.py:14-73 | `control_fan`: `status`, `fan_status`, 500 text `Failed to send control command` |
| ControlRoutes.ControlMode | backend/routes/control_routes.py:75-134 | `control_mode`: `mode`, `auto_mode`, 500 text `Failed to send mode command` |
| DeviceRoutes.GetDevices | backend/routes/device_routes.py:17-25 | 200 with one dictionary per stored device, in order |
| DeviceRoutes.GetDevice | backend/routes/device_routes.py:33-48 | 404 exactly when the device is absent; otherwise 200 with its dictionary |
| DeviceRoutes.UpdateDevice | backend/routes/device_routes.py:56-88 | 400 and no change for a missing or empty body; 404 for an unknown device; 500 when a value cannot be stored; otherwise 200 with the updated device |
| DeviceRoutes.GetDeviceSensorData | backend/routes/device_routes.py:90-113 | 404 exactly when the device is absent; otherwise the readings of `RecentData` with limit defaulting to 100 |
| DeviceRoutes.GetDeviceControlHistory | backend/routes/device_routes.py:121-144 | 404 exactly when the device is absent; otherwise the records of `RecentHistory` with limit defaulting to 50 |
| InitDb.SeedIfAbsentFinds | backend/scripts/init_db.py:33-44 | adding a default device only when its id is absent keeps ids unique and touches no other id |
| InitDb.SeededProperties | backend/scripts/init_db.py:23-62 | both default fans exist afterwards; a fan already stored is kept as it was; a new one has the default name, room, temperature 0, fan off, auto on; other ids are untouched; rows are only appended |
| InitDb.SeededIdempotent | backend/scripts/init_db.py:23-62 | initialising twice gives the same devices as initialising once |
| InitDb.InitializeDatabase | backend/scripts/init_db.py:23-62 | the devices table becomes `Seeded` of the old one; the logs are unchanged |
| InitDb.PurgeDatabase | backend/scripts/init_db.py:64-76 | all three tables are empty |
| Scenario.FirstTelemetryCreates | backend/services/device_service.py:33-40 | a first message on `device/exhaust_fan_1` creates `Exhaust Fan 1` in room `Unknown` |
| Scenario.FirstTelemetryMerges | backend/services/device_service.py:43-63 | that message leaves temperature 36.5, fan on, auto on and one reading |
| Scenario.FanOnlyMessage | backend/services/device_service.py:43-54 | `{"fan": true}` on a fan at 30 degrees, fan off, auto on turns the fan on and keeps the rest, with no reading |
| Scenario.FanOffAccepted | backend/routes/control_routes.py:14-53 | `{"status": "off", "source": "app"}` for a stored device is accepted as a fan-off command from `app` |
| Scenario.FanCommand | backend/services/device_service.py:84-104 | `{"status": "off", "source": "app"}` publishes `{"fan": false}` on `control/exhaust_fan_1` and records `fan_control`/`off`/`app` |
| Scenario.NullFanStored | backend/services/device_service.py:45-54 | `{"fan": null}` stores a NULL fan and succeeds |
| Scenario.NullFanWithTemperature | backend/services/device_service.py:43-63 | with a temperature too, the device is committed with the NULL fan and the new temperature, but no reading is added and the message fails |
| Scenario.TwoMostRecent | backend/models/sensor_data.py:61-75 | of readings at times 1, 2, 3, a limit of 2 returns those at 3 and 2, in that order |

## Left out

- Timestamps are integers from an injected clock. `to_dict` renders them with `isoformat`, and the model renders them as JSON numbers.
- DeviceService.ProcessDeviceMessage: reads the clock once. The source calls `utcnow()` separately for `last_seen`, `updated_at` and the reading's timestamp, so those can differ by microseconds there.
- SQLite type affinity is not modelled. A value of the wrong JSON type makes the commit fail. SQLite would instead coerce some of these values, for example a number given as a `name` or a `source`, or a non-string `device_id`. The model keeps the error path and not the coercion.
- The 50- and 100-character limits on string columns are not modelled. SQLite does not enforce them either.
- Messages and request bodies whose JSON text is not an object are not part of this model: the parsed input is an object or nothing. In the source a number fails at the `in` test, while a list is searched for the keys among its items.
- DeviceRoutes.GetDeviceSensorData: the limit arrives already converted (`Option<int>`). Flask's conversion of the query string, where a non-integer falls back to the default, is not modelled.
- The routes' catch-all `except` branches that answer 500 are modelled only where an error is in the model: a failed publish or a record that cannot be stored. Database outages and other library errors are not in the model.
- The publish's own input checks (paho's topic validation, payload size) are folded into the `PublishOutcome` parameter.
- Mqtt.Dumps: writes only a dictionary with one key mapped to a boolean, where the key needs no JSON escaping. That is the only shape the backend publishes. For any other dictionary, `PublishControlCommand` reports failure where the source would publish its text.
- A request body that is not valid JSON is not modelled. `request.get_json()` raises for it, and the routes' catch-all answers 500 (`Failed to control fan`, `Failed to control mode`, `Failed to update device`). The model's `None` body is the one that `not data` rejects with 400.
- Logging, the Flask application setup, `db.create_all` and the MQTT subscription callbacks are not part of this model.
- The concurrency between the MQTT callback thread and the HTTP handlers is not modelled: every operation runs to completion on its own.
- The Android app, the ESP32 firmware configuration and the MQTT test simulator are not part of this model.
