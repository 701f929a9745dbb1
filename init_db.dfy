/** The database script (backend/scripts/init_db.py): seeding the two
    default devices and purging every table. */
module InitDb {
  import opened Json
  import opened DeviceModel
  import opened Database

  /** A default device as the script builds it: temperature 0, fan off,
      auto mode on; the column defaults stamp it with the insertion time. */
  function DefaultDevice(id: string, name: string, location: string, now: int): Device {
    Device(id, name, location, Some(0.0), Some(false), Some(true), Some(now), now, now)
  }

  function FirstDefault(now: int): Device {
    DefaultDevice("exhaust_fan_1", "Exhaust Fan 1", "Room 1", now)
  }

  function SecondDefault(now: int): Device {
    DefaultDevice("exhaust_fan_2", "Exhaust Fan 2", "Room 2", now)
  }

  /** Adds `d` unless a device with its id is stored. */
  function SeedIfAbsent(rows: seq<Device>, d: Device): seq<Device> {
    if Find(rows, d.id).Some? then rows else rows + [d]
  }

  /** The devices table after `initialize_database`. */
  function Seeded(rows: seq<Device>, now: int): seq<Device> {
    SeedIfAbsent(SeedIfAbsent(rows, FirstDefault(now)), SecondDefault(now))
  }

  lemma {:induction false} SeedIfAbsentFinds(rows: seq<Device>, d: Device)
    requires UniqueIds(rows)
    ensures UniqueIds(SeedIfAbsent(rows, d))
    ensures Find(SeedIfAbsent(rows, d), d.id) == if Find(rows, d.id).Some? then Find(rows, d.id) else Some(d)
    ensures forall id | id != d.id :: Find(SeedIfAbsent(rows, d), id) == Find(rows, id)
    ensures SeedIfAbsent(rows, d)[..|rows|] == rows
  {
    if Find(rows, d.id).None? {
      AppendNew(rows, d);
    }
  }

  /** After seeding, both default devices exist; a device already stored
      under a default id is kept as it was; every other id finds what it
      found before; rows are only appended; one device per id still holds. */
  lemma SeededProperties(rows: seq<Device>, now: int)
    requires UniqueIds(rows)
    ensures var rows' := Seeded(rows, now);
      && UniqueIds(rows')
      && Find(rows', "exhaust_fan_1").Some? && Find(rows', "exhaust_fan_2").Some?
      && (forall id | Find(rows, id).Some? :: Find(rows', id) == Find(rows, id))
      && (forall id | id != "exhaust_fan_1" && id != "exhaust_fan_2" :: Find(rows', id) == Find(rows, id))
      && (Find(rows, "exhaust_fan_1").None? ==> Find(rows', "exhaust_fan_1") == Some(FirstDefault(now)))
      && (Find(rows, "exhaust_fan_2").None? ==> Find(rows', "exhaust_fan_2") == Some(SecondDefault(now)))
      && |rows| <= |rows'| && rows'[..|rows|] == rows
  {
    var once := SeedIfAbsent(rows, FirstDefault(now));
    SeedIfAbsentFinds(rows, FirstDefault(now));
    SeedIfAbsentFinds(once, SecondDefault(now));
    assert "exhaust_fan_1" != "exhaust_fan_2" by {
      assert "exhaust_fan_1"[12] != "exhaust_fan_2"[12];
    }
    var rows' := Seeded(rows, now);
    assert rows'[..|rows|] == once[..|rows|];
  }

  /** Seeding twice leaves the table as seeding once, whatever the clock
      says the second time. */
  lemma SeededIdempotent(rows: seq<Device>, now: int, later: int)
    requires UniqueIds(rows)
    ensures Seeded(Seeded(rows, now), later) == Seeded(rows, now)
  {
    SeededProperties(rows, now);
  }

  /** `initialize_database`: looks each default device up and adds the
      missing ones, then commits. */
  method InitializeDatabase(db: Store, now: int)
    requires db.Valid()
    modifies db
    ensures db.Valid()
    ensures db.devices == Seeded(old(db.devices), now)
    ensures db.sensorData == old(db.sensorData) && db.controlHistory == old(db.controlHistory)
  {
    var first := db.FindDevice("exhaust_fan_1");
    if first.None? {
      db.InsertDevice(FirstDefault(now));
    }
    var second := db.FindDevice("exhaust_fan_2");
    if second.None? {
      db.InsertDevice(SecondDefault(now));
    }
  }

  /** `purge_database`: deletes every control record, reading and device. */
  method PurgeDatabase(db: Store)
    modifies db
    ensures db.Valid()
    ensures db.Snapshot() == Tables([], [], [])
  {
    db.controlHistory := [];
    db.sensorData := [];
    db.devices := [];
  }
}
