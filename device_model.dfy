/** The `devices` table (backend/models/device.py): the Device row, its
    defaults, its dictionary form, and the primary-key lookup and
    check-then-insert that `get_or_create` performs. */
module DeviceModel {
  import opened Json

  /** One row of the `devices` table. Timestamps are readings of the injected
      clock; `lastTemperature`, `fanStatus`, `autoMode` and `lastSeen` are
      nullable columns (None is SQL NULL). */
  datatype Device = Device(
    id: string,
    name: string,
    location: string,
    lastTemperature: Option<real>,
    fanStatus: Option<bool>,
    autoMode: Option<bool>,
    lastSeen: Option<int>,
    createdAt: int,
    updatedAt: int)

  // ---------------------------------------------------------------------
  // The table as a sequence of rows, in insertion order

  /** `id` is a primary key: no two rows share it. */
  predicate UniqueIds(rows: seq<Device>) {
    forall i, j | 0 <= i < j < |rows| :: rows[i].id != rows[j].id
  }

  /** Where the row with primary key `id` is (`Device.query.get(id)`). */
  function IndexOf(rows: seq<Device>, id: string): (r: Option<nat>)
    ensures r.None? <==> forall i | 0 <= i < |rows| :: rows[i].id != id
    ensures r.Some? ==> r.value < |rows| && rows[r.value].id == id
    ensures r.Some? ==> forall i | 0 <= i < r.value :: rows[i].id != id
  {
    if rows == [] then None
    else if rows[0].id == id then Some(0)
    else
      match IndexOf(rows[1..], id)
      case None => None
      case Some(k) => Some(k + 1)
  }

  /** The row with primary key `id`, if any. */
  function Find(rows: seq<Device>, id: string): (r: Option<Device>)
    ensures r.Some? ==> r.value in rows && r.value.id == id
    ensures r.None? ==> forall d | d in rows :: d.id != id
  {
    match IndexOf(rows, id)
    case None => None
    case Some(i) => Some(rows[i])
  }

  /** How many rows carry `id`. */
  function CountId(rows: seq<Device>, id: string): nat {
    if rows == [] then 0
    else (if rows[0].id == id then 1 else 0) + CountId(rows[1..], id)
  }

  /** Under the primary key, a present id is carried by exactly one row and
      an absent one by none. */
  lemma {:induction false} UniqueCount(rows: seq<Device>, id: string)
    requires UniqueIds(rows)
    ensures CountId(rows, id) == if Find(rows, id).Some? then 1 else 0
  {
    if rows != [] {
      assert UniqueIds(rows[1..]) by {
        forall i, j | 0 <= i < j < |rows[1..]| ensures rows[1..][i].id != rows[1..][j].id {
          assert rows[1..][i] == rows[i + 1] && rows[1..][j] == rows[j + 1];
        }
      }
      UniqueCount(rows[1..], id);
      if rows[0].id == id {
        forall d | d in rows[1..] ensures d.id != id {
          var j :| 0 <= j < |rows[1..]| && rows[1..][j] == d;
          assert rows[j + 1] == d;
        }
      } else {
        assert Find(rows, id).Some? ==> Find(rows[1..], id).Some? by {
          if Find(rows, id).Some? {
            var d := Find(rows, id).value;
            assert d in rows[1..] by {
              var k :| 0 <= k < |rows| && rows[k] == d;
              assert k != 0 && rows[1..][k - 1] == d;
            }
          }
        }
      }
    }
  }

  /** Inserting a row whose id is new keeps ids unique and is seen by Find. */
  lemma AppendNew(rows: seq<Device>, d: Device)
    requires UniqueIds(rows) && Find(rows, d.id).None?
    ensures UniqueIds(rows + [d])
    ensures forall id | id != d.id :: Find(rows + [d], id) == Find(rows, id)
    ensures Find(rows + [d], d.id) == Some(d)
  {
    var rs := rows + [d];
    forall i | 0 <= i < |rows| ensures rs[i].id != d.id {
      assert rows[i] in rows;
    }
    forall id | id != d.id ensures Find(rs, id) == Find(rows, id) {
      IndexOfAppend(rows, d, id);
    }
    IndexOfAppend(rows, d, d.id);
  }

  lemma {:induction false} IndexOfAppend(rows: seq<Device>, d: Device, id: string)
    ensures IndexOf(rows + [d], id) ==
      if IndexOf(rows, id).Some? then IndexOf(rows, id)
      else if d.id == id then Some(|rows|) else None
  {
    if rows != [] {
      assert (rows + [d])[1..] == rows[1..] + [d];
      IndexOfAppend(rows[1..], d, id);
    }
  }

  /** The table after the row with `d`'s id is written back as `d`. */
  function Replace(rows: seq<Device>, d: Device): seq<Device> {
    match IndexOf(rows, d.id)
    case None => rows
    case Some(i) => rows[i := d]
  }

  /** Writing back one row changes that row only and keeps ids unique. */
  lemma ReplaceRow(rows: seq<Device>, d: Device)
    requires UniqueIds(rows) && Find(rows, d.id).Some?
    ensures |Replace(rows, d)| == |rows|
    ensures UniqueIds(Replace(rows, d))
    ensures Find(Replace(rows, d), d.id) == Some(d)
    ensures forall id | id != d.id :: Find(Replace(rows, d), id) == Find(rows, id)
  {
    var i := IndexOf(rows, d.id).value;
    var rs := rows[i := d];
    forall id | id != d.id ensures Find(rs, id) == Find(rows, id) {
      SameIdsSameIndex(rows, rs, id);
    }
    SameIdsSameIndex(rows, rs, d.id);
  }

  lemma {:induction false} SameIdsSameIndex(rows: seq<Device>, rs: seq<Device>, id: string)
    requires |rows| == |rs| && forall i | 0 <= i < |rows| :: rows[i].id == rs[i].id
    ensures IndexOf(rows, id) == IndexOf(rs, id)
  {
    if rows != [] {
      SameIdsSameIndex(rows[1..], rs[1..], id);
    }
  }

  // ---------------------------------------------------------------------
  // Creating a device

  const DefaultLocation: string := "Unknown"

  /** The row `get_or_create` inserts for an unseen id: the name ends with
      the id's last character (`device_id[-1]`), the location is "Unknown",
      and the column defaults apply (fan off, auto mode on, no temperature,
      every timestamp the insertion time). */
  function NewDevice(id: string, now: int): (d: Device)
    requires id != ""
  {
    Device(id, "Exhaust Fan " + [id[|id| - 1]], DefaultLocation, None, Some(false), Some(true),
           Some(now), now, now)
  }

  /** `Device.get_or_create`: the device found, and the table afterwards; None
      when the id is empty, since `device_id[-1]` raises before any insert. */
  function GetOrCreateRows(rows: seq<Device>, id: string, now: int): (r: Option<(Device, seq<Device>)>)
    ensures Find(rows, id).Some? ==> r == Some((Find(rows, id).value, rows))
    ensures r.None? <==> Find(rows, id).None? && id == ""
    ensures Find(rows, id).None? && r.Some? ==>
      && r.value.1 == rows + [r.value.0]
      && r.value.0.id == id
      && r.value.0.name == "Exhaust Fan " + [id[|id| - 1]]
      && r.value.0.location == "Unknown"
      && r.value.0.lastTemperature.None? && r.value.0.fanStatus == Some(false)
      && r.value.0.autoMode == Some(true)
      && r.value.0.lastSeen == Some(now) && r.value.0.createdAt == now == r.value.0.updatedAt
  {
    match Find(rows, id)
    case Some(d) => Some((d, rows))
    case None =>
      if id == "" then None
      else
        var d := NewDevice(id, now);
        Some((d, rows + [d]))
  }

  /** After `get_or_create`, exactly one row carries the id and every other
      id finds what it found before. */
  lemma GetOrCreateOnePerId(rows: seq<Device>, id: string, now: int)
    requires UniqueIds(rows)
    requires GetOrCreateRows(rows, id, now).Some?
    ensures var (d, rows') := GetOrCreateRows(rows, id, now).value;
      && UniqueIds(rows') && CountId(rows', id) == 1 && Find(rows', id) == Some(d)
      && forall other | other != id :: Find(rows', other) == Find(rows, other)
  {
    var (d, rows') := GetOrCreateRows(rows, id, now).value;
    if Find(rows, id).None? {
      AppendNew(rows, d);
    }
    UniqueCount(rows', id);
  }

  // ---------------------------------------------------------------------
  // Updating a row

  /** The row a commit stores when `after` is written over `before`:
      `updated_at` is refreshed to the commit time when some column changed,
      and nothing is written otherwise (SQLAlchemy's `onupdate`). */
  function Touch(before: Device, after: Device, now: int): (r: Device)
    requires after.updatedAt == before.updatedAt
    ensures r.(updatedAt := before.updatedAt) == after
    ensures r.updatedAt == if after == before then before.updatedAt else now
    ensures r.createdAt == after.createdAt
  {
    if after == before then before else after.(updatedAt := now)
  }

  // ---------------------------------------------------------------------
  // The dictionary form

  /** A nullable number column as a JSON value. */
  function NumOrNull(n: Option<real>): Value {
    match n
    case Some(x) => JNum(x)
    case None => JNull
  }

  /** A nullable boolean column as a JSON value. */
  function BoolOrNull(b: Option<bool>): Value {
    match b
    case Some(v) => JBool(v)
    case None => JNull
  }

  /** What SQLAlchemy's `Boolean` column type does with a value written to
      it: None, True and False are stored as they are, and so is anything
      Python finds equal to one of them (the numbers 0 and 1); any other value
      makes the statement fail (None here). The stored value reads back as a
      boolean or NULL. */
  function BooleanBind(v: Value): (r: Option<Option<bool>>)
    ensures r == Some(None) <==> v == JNull
    ensures v.JBool? ==> r == Some(Some(v.b))
    ensures v.JNum? ==> r == (if v.x == 1.0 then Some(Some(true)) else if v.x == 0.0 then Some(Some(false)) else None)
    ensures v.JStr? || v == JCompound ==> r.None?
  {
    match v
    case JNull => Some(None)
    case JBool(b) => Some(Some(b))
    case JNum(x) => if x == 1.0 then Some(Some(true)) else if x == 0.0 then Some(Some(false)) else None
    case _ => None
  }

  /** A stored boolean column written back unchanged is stored again as it was. */
  lemma BooleanBindRoundTrip(b: Option<bool>)
    ensures BooleanBind(BoolOrNull(b)) == Some(b)
  {
  }

  /** A timestamp in a dictionary (the source writes ISO-8601 text). */
  function TimeValue(t: int): Value {
    JNum(t as real)
  }

  /** `Device.to_dict`. */
  function ToDict(d: Device): (o: Object)
    ensures o.Keys == {"id", "name", "location", "last_temperature", "fan_status",
                       "auto_mode", "last_seen", "created_at", "updated_at"}
    ensures o["last_seen"] == JNull <==> d.lastSeen.None?
    ensures o["last_temperature"] == JNull <==> d.lastTemperature.None?
    ensures o["fan_status"] == JNull <==> d.fanStatus.None?
    ensures o["auto_mode"] == JNull <==> d.autoMode.None?
  {
    map[
      "id" := JStr(d.id),
      "name" := JStr(d.name),
      "location" := JStr(d.location),
      "last_temperature" := NumOrNull(d.lastTemperature),
      "fan_status" := BoolOrNull(d.fanStatus),
      "auto_mode" := BoolOrNull(d.autoMode),
      "last_seen" := (match d.lastSeen case Some(t) => TimeValue(t) case None => JNull),
      "created_at" := TimeValue(d.createdAt),
      "updated_at" := TimeValue(d.updatedAt)
    ]
  }

  function NullableNum(v: Value): Option<real> {
    if v.JNum? then Some(v.x) else None
  }

  function NullableBool(v: Value): Option<bool> {
    if v.JBool? then Some(v.b) else None
  }

  function NullableTime(v: Value): Option<int> {
    if v.JNum? then Some(v.x.Floor) else None
  }

  /** Reads a device back from its dictionary: the partner of ToDict. */
  function FromDict(o: Object): Option<Device> {
    if && "id" in o && o["id"].JStr? && "name" in o && o["name"].JStr?
       && "location" in o && o["location"].JStr? && "last_temperature" in o
       && "fan_status" in o && "auto_mode" in o
       && "last_seen" in o && "created_at" in o && o["created_at"].JNum?
       && "updated_at" in o && o["updated_at"].JNum?
    then Some(Device(o["id"].s, o["name"].s, o["location"].s, NullableNum(o["last_temperature"]),
                     NullableBool(o["fan_status"]), NullableBool(o["auto_mode"]), NullableTime(o["last_seen"]),
                     o["created_at"].x.Floor, o["updated_at"].x.Floor))
    else None
  }

  /** The dictionary loses nothing about the row. */
  lemma DictRoundTrip(d: Device)
    ensures FromDict(ToDict(d)) == Some(d)
  {
  }
}
