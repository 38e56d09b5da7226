/** The Postgres store of db.py: the zkt_users and zkt_attendance tables and
    the DatabaseHandler operations on them. Every write runs in one
    transaction that is committed on success and rolled back on any
    exception, so each write is all-or-nothing. */
module Db {
  import opened Common
  import opened Records

  /** Column widths of the schema (VARCHAR(n)); a longer value makes the
      INSERT raise. */
  const UserIdWidth: nat := 50
  const UsernameWidth: nat := 100
  const DeviceSerialWidth: nat := 50

  /** A row of zkt_attendance as the code writes it. */
  datatype AttendanceRow = AttendanceRow(userId: string, timestamp: int, deviceSerial: string)

  /** The non-key columns of a row of zkt_users (the key is the map's key). */
  datatype UserRow = UserRow(username: string, createdAt: int, updatedAt: int)

  /** The methods db.py's DatabaseHandler class defines. */
  const HandlerMethods: set<string> := {
    "__init__", "connect", "disconnect", "ensure_tables", "is_attendance_empty",
    "sync_users", "get_latest_attendance_timestamp", "get_attendance_count",
    "clear_attendance_table", "save_attendance", "sync_device_records"
  }

  // ---------------------------------------------------------------------------
  // Attendance rows

  /** The row `INSERT INTO zkt_attendance (user_id, timestamp, device_serial)` stores for one record. */
  function RowOf(record: AttendanceLog, deviceSerial: string): AttendanceRow
  {
    AttendanceRow(record.userId, record.timestamp, deviceSerial)
  }

  /** The rows a batch of records becomes, in batch order. */
  function RowsOf(records: seq<AttendanceLog>, deviceSerial: string): seq<AttendanceRow>
  {
    seq(|records|, i requires 0 <= i < |records| => RowOf(records[i], deviceSerial))
  }

  /** An INSERT of `row` succeeds: its columns fit their widths and the
      foreign key to zkt_users holds. */
  predicate Insertable(row: AttendanceRow, users: map<string, UserRow>)
  {
    |row.userId| <= UserIdWidth && |row.deviceSerial| <= DeviceSerialWidth && row.userId in users
  }

  predicate AllInsertable(rows: seq<AttendanceRow>, users: map<string, UserRow>)
  {
    forall row :: row in rows ==> Insertable(row, users)
  }

  function OfDevice(d: string): AttendanceRow -> bool
  {
    (row: AttendanceRow) => row.deviceSerial == d
  }

  function NotOfDevice(d: string): AttendanceRow -> bool
  {
    (row: AttendanceRow) => row.deviceSerial != d
  }

  /** The partition of device `d`: its rows in table order. */
  function DeviceRows(rows: seq<AttendanceRow>, d: string): seq<AttendanceRow>
  {
    Filter(rows, OfDevice(d))
  }

  /** What `DELETE FROM zkt_attendance WHERE device_serial = d` leaves. */
  function OtherDeviceRows(rows: seq<AttendanceRow>, d: string): seq<AttendanceRow>
  {
    Filter(rows, NotOfDevice(d))
  }

  /** `SELECT MAX(timestamp)`: NULL on an empty table, otherwise the largest timestamp. */
  function MaxTimestamp(rows: seq<AttendanceRow>): (m: Option<int>)
    ensures m.None? <==> rows == []
    ensures m.Some? ==> exists i :: 0 <= i < |rows| && rows[i].timestamp == m.value
    ensures m.Some? ==> forall i :: 0 <= i < |rows| ==> rows[i].timestamp <= m.value
  {
    if rows == [] then None
    else
      var last := rows[|rows| - 1].timestamp;
      match MaxTimestamp(rows[..|rows| - 1])
      case None => Some(last)
      case Some(m) => Some(if m < last then last else m)
  }

  /** The count of the whole table is the size of one device's partition plus
      the rest, whichever device is chosen. */
  lemma CountCoversEveryDevice(rows: seq<AttendanceRow>, d: string)
    ensures |rows| == |DeviceRows(rows, d)| + |OtherDeviceRows(rows, d)|
  {
    FilterSplit(rows, OfDevice(d), NotOfDevice(d));
  }

  /** A batch saved for device `d` lands entirely in `d`'s partition. */
  lemma BatchIsOneDevice(records: seq<AttendanceLog>, d: string)
    ensures DeviceRows(RowsOf(records, d), d) == RowsOf(records, d)
    ensures forall e :: e != d ==> DeviceRows(RowsOf(records, d), e) == []
  {
    FilterKeepsAll(RowsOf(records, d), OfDevice(d));
    forall e | e != d
      ensures DeviceRows(RowsOf(records, d), e) == []
    {
      FilterKeepsNone(RowsOf(records, d), OfDevice(e));
    }
  }

  /** After the delete-then-insert of a full sync, the partition of the synced
      device is exactly the new batch, in batch order. */
  lemma ResyncReplacesPartition(rows: seq<AttendanceRow>, records: seq<AttendanceLog>, d: string)
    ensures DeviceRows(OtherDeviceRows(rows, d) + RowsOf(records, d), d) == RowsOf(records, d)
    ensures multiset(DeviceRows(OtherDeviceRows(rows, d) + RowsOf(records, d), d))
         == multiset(RowsOf(records, d))
  {
    FilterAppend(OtherDeviceRows(rows, d), RowsOf(records, d), OfDevice(d));
    FilterDisjoint(rows, NotOfDevice(d), OfDevice(d));
    BatchIsOneDevice(records, d);
  }

  /** A full sync of device `d` leaves every other device's partition as it was. */
  lemma ResyncKeepsOtherDevices(rows: seq<AttendanceRow>, records: seq<AttendanceLog>, d: string, e: string)
    requires e != d
    ensures DeviceRows(OtherDeviceRows(rows, d) + RowsOf(records, d), e) == DeviceRows(rows, e)
  {
    FilterAppend(OtherDeviceRows(rows, d), RowsOf(records, d), OfDevice(e));
    assert forall row :: OfDevice(e)(row) ==> NotOfDevice(d)(row);
    FilterNarrow(rows, NotOfDevice(d), OfDevice(e));
    BatchIsOneDevice(records, d);
    assert DeviceRows(RowsOf(records, d), e) == [];
  }

  /** The store has no uniqueness constraint: saving the same non-empty batch
      twice stores each of its rows twice as often as the batch holds it. */
  lemma ResavingDuplicatesRows(table: seq<AttendanceRow>, records: seq<AttendanceLog>, d: string, k: nat)
    requires k < |records|
    ensures var rows := RowsOf(records, d);
            multiset(table + rows + rows)[rows[k]] == multiset(table)[rows[k]] + 2 * multiset(rows)[rows[k]]
    ensures multiset(RowsOf(records, d))[RowOf(records[k], d)] >= 1
    ensures table + RowsOf(records, d) + RowsOf(records, d) != table + RowsOf(records, d)
  {
    var rows := RowsOf(records, d);
    assert rows[k] in multiset(rows);
    assert |table + rows + rows| == |table + rows| + |rows|;
  }

  // ---------------------------------------------------------------------------
  // Users

  /** The username and id fit their columns. */
  predicate UserFits(u: UserInfo)
  {
    |u.userId| <= UserIdWidth && |u.name| <= UsernameWidth
  }

  /** One `INSERT ... ON CONFLICT (user_id) DO UPDATE SET username = EXCLUDED.username,
      updated_at = CURRENT_TIMESTAMP`; a new row takes `now` for both timestamps. */
  function UpsertOne(table: map<string, UserRow>, u: UserInfo, now: int): map<string, UserRow>
  {
    if u.userId in table then table[u.userId := UserRow(u.name, table[u.userId].createdAt, now)]
    else table[u.userId := UserRow(u.name, now, now)]
  }

  /** The statements of a batch applied in order. */
  function Upsert(table: map<string, UserRow>, batch: seq<UserInfo>, now: int): map<string, UserRow>
  {
    if batch == [] then table
    else UpsertOne(Upsert(table, batch[..|batch| - 1], now), batch[|batch| - 1], now)
  }

  predicate InBatch(batch: seq<UserInfo>, id: string)
  {
    exists i :: 0 <= i < |batch| && batch[i].userId == id
  }

  /** The name the last entry of the batch with id `id` carries. */
  function LastName(batch: seq<UserInfo>, id: string): string
    requires InBatch(batch, id)
  {
    var u := batch[|batch| - 1];
    if u.userId == id then u.name
    else
      assert InBatch(batch[..|batch| - 1], id) by {
        var i :| 0 <= i < |batch| && batch[i].userId == id;
        assert batch[..|batch| - 1][i].userId == id;
      }
      LastName(batch[..|batch| - 1], id)
  }

  /** Every row of zkt_users fits its columns: the key in `user_id`, the name
      in `username`. */
  predicate UsersFit(users: map<string, UserRow>)
  {
    forall id :: id in users ==> |id| <= UserIdWidth && |users[id].username| <= UsernameWidth
  }

  /** When every user of the batch fits, so does the name an id ends up with. */
  lemma {:induction false} LastNameFits(batch: seq<UserInfo>, id: string)
    requires forall i :: 0 <= i < |batch| ==> UserFits(batch[i])
    requires InBatch(batch, id)
    ensures |id| <= UserIdWidth && |LastName(batch, id)| <= UsernameWidth
  {
    var u := batch[|batch| - 1];
    if u.userId != id {
      var init := batch[..|batch| - 1];
      assert InBatch(init, id) by {
        var i :| 0 <= i < |batch| && batch[i].userId == id;
        assert init[i].userId == id;
      }
      assert forall i :: 0 <= i < |init| ==> init[i] == batch[i];
      LastNameFits(init, id);
    }
  }

  /** Upsert by user id: ids in the batch are present afterwards, carrying the
      name of their last occurrence and `now` as update time, and keeping their
      creation time when they existed before; ids outside the batch are
      untouched; no id is removed. */
  lemma {:induction false} UpsertAt(table: map<string, UserRow>, batch: seq<UserInfo>, now: int, id: string)
    ensures id in Upsert(table, batch, now) <==> id in table || InBatch(batch, id)
    ensures !InBatch(batch, id) && id in table ==> Upsert(table, batch, now)[id] == table[id]
    ensures InBatch(batch, id) ==>
      Upsert(table, batch, now)[id]
        == UserRow(LastName(batch, id), if id in table then table[id].createdAt else now, now)
  {
    if batch != [] {
      var init, u := batch[..|batch| - 1], batch[|batch| - 1];
      UpsertAt(table, init, now, id);
      if InBatch(init, id) {
        assert InBatch(batch, id) by {
          var i :| 0 <= i < |init| && init[i].userId == id;
          assert batch[i].userId == id;
        }
      }
      if InBatch(batch, id) && u.userId != id {
        assert InBatch(init, id) by {
          var i :| 0 <= i < |batch| && batch[i].userId == id;
          assert init[i].userId == id;
        }
      }
    }
  }

  // ---------------------------------------------------------------------------
  // The handler

  /** A DatabaseHandler connected to the database, with the two tables it works on. */
  class DatabaseHandler {
    var attendance: seq<AttendanceRow>
    var users: map<string, UserRow>

    /** The constraints Postgres keeps on the tables: the column widths of
        both tables and the foreign key from zkt_attendance.user_id to zkt_users. */
    ghost predicate Valid()
      reads this
    {
      UsersFit(users) && AllInsertable(attendance, users)
    }

    /** A handler on freshly created tables. */
    constructor ()
      ensures Valid()
      ensures attendance == [] && users == map[]
    {
      attendance := [];
      users := map[];
    }

    /** `get_attendance_count`: the number of rows across all devices, 0 when the query raises. */
    function GetAttendanceCount(fault: bool): (n: nat)
      reads this
      ensures fault ==> n == 0
      ensures !fault ==> n == |attendance|
    {
      if fault then 0 else |attendance|
    }

    /** `is_attendance_empty`: true when the table holds no row, and also when the query raises. */
    function IsAttendanceEmpty(fault: bool): (empty: bool)
      reads this
      ensures empty <==> GetAttendanceCount(fault) == 0
      ensures empty <==> fault || attendance == []
    {
      fault || |attendance| == 0
    }

    /** `get_latest_attendance_timestamp`: the largest timestamp of any device,
        None for an empty table or when the query raises. */
    function GetLatestAttendanceTimestamp(fault: bool): (latest: Option<int>)
      reads this
      ensures latest.None? <==> fault || attendance == []
      ensures latest.Some? ==> exists i :: 0 <= i < |attendance| && attendance[i].timestamp == latest.value
      ensures latest.Some? ==> forall i :: 0 <= i < |attendance| ==> attendance[i].timestamp <= latest.value
    {
      if fault then None else MaxTimestamp(attendance)
    }

    /** `sync_users`: upserts the batch by user id in one transaction. `fault`
        says the driver raises for a reason outside this model. */
    method SyncUsers(batch: seq<UserInfo>, now: int, fault: bool) returns (ok: bool)
      requires Valid()
      modifies this
      ensures Valid()
      ensures ok <==> !fault && forall i :: 0 <= i < |batch| ==> UserFits(batch[i])
      ensures users == if ok then Upsert(old(users), batch, now) else old(users)
      ensures attendance == old(attendance)
    {
      var before := users;
      if fault || exists i :: 0 <= i < |batch| && !UserFits(batch[i]) {
        users := before;  // rollback
        return false;
      }
      users := Upsert(users, batch, now);
      ok := true;
      forall row | row in attendance
        ensures Insertable(row, users)
      {
        UpsertAt(before, batch, now, row.userId);
      }
      forall id | id in users
        ensures |id| <= UserIdWidth && |users[id].username| <= UsernameWidth
      {
        UpsertAt(before, batch, now, id);
        if InBatch(batch, id) {
          LastNameFits(batch, id);
        }
      }
    }

    /** `clear_attendance_table`: TRUNCATE in one transaction. */
    method ClearAttendanceTable(fault: bool) returns (ok: bool)
      requires Valid()
      modifies this
      ensures Valid()
      ensures ok == !fault
      ensures attendance == if ok then [] else old(attendance)
      ensures users == old(users)
    {
      var before := attendance;
      attendance := [];
      if fault {
        attendance := before;  // rollback
        return false;
      }
      ok := true;
    }

    /** `save_attendance`: one plain INSERT per record, in order, without any
        duplicate check, then commit. True iff the transaction committed and
        inserted at least one row. */
    method SaveAttendance(records: seq<AttendanceLog>, deviceSerial: string, fault: bool) returns (saved: bool)
      requires Valid()
      modifies this
      ensures Valid()
      ensures saved <==> !fault && AllInsertable(RowsOf(records, deviceSerial), old(users)) && records != []
      ensures attendance ==
        if !fault && AllInsertable(RowsOf(records, deviceSerial), old(users))
        then old(attendance) + RowsOf(records, deviceSerial)
        else old(attendance)
      ensures users == old(users)
    {
      var before := attendance;
      var successCount := 0;
      for i := 0 to |records|
        invariant attendance == before + RowsOf(records[..i], deviceSerial)
        invariant AllInsertable(RowsOf(records[..i], deviceSerial), users)
        invariant successCount == i
        invariant users == old(users)
      {
        var row := RowOf(records[i], deviceSerial);
        assert RowsOf(records[..i + 1], deviceSerial) == RowsOf(records[..i], deviceSerial) + [row];
        if !Insertable(row, users) {
          attendance := before;  // the INSERT raised: rollback
          assert RowsOf(records, deviceSerial)[i] == row;
          return false;
        }
        attendance := attendance + [row];
        successCount := successCount + 1;
      }
      assert records[..|records|] == records;
      if fault {
        attendance := before;  // rollback
        return false;
      }
      saved := successCount > 0;
    }

    /** `sync_device_records`: within one transaction, delete every row of the
        device and insert the batch in its place. */
    method SyncDeviceRecords(records: seq<AttendanceLog>, deviceSerial: string, fault: bool) returns (ok: bool)
      requires Valid()
      modifies this
      ensures Valid()
      ensures ok <==> !fault && AllInsertable(RowsOf(records, deviceSerial), old(users))
      ensures attendance ==
        if ok then OtherDeviceRows(old(attendance), deviceSerial) + RowsOf(records, deviceSerial)
        else old(attendance)
      ensures users == old(users)
    {
      var before := attendance;
      attendance := OtherDeviceRows(attendance, deviceSerial);
      var batch := RowsOf(records, deviceSerial);
      if fault || !AllInsertable(batch, users) {
        attendance := before;  // rollback
        return false;
      }
      forall row | row in attendance
        ensures row in before
      {
        FilterMembership(before, NotOfDevice(deviceSerial), row);
      }
      attendance := attendance + batch;
      ok := true;
    }
  }

  /** Saving the same batch a second time is accepted like the first save:
      both commit, and the table ends with the batch's rows appended twice, so
      each of its rows occurs twice as often as the batch holds it. */
  method SaveTwice(db: DatabaseHandler, records: seq<AttendanceLog>, d: string) returns (first: bool, second: bool)
    requires db.Valid()
    requires AllInsertable(RowsOf(records, d), db.users)
    modifies db
    ensures db.Valid()
    ensures first == (records != []) && second == (records != [])
    ensures db.attendance == old(db.attendance) + RowsOf(records, d) + RowsOf(records, d)
    ensures forall k :: 0 <= k < |records| ==>
              multiset(db.attendance)[RowOf(records[k], d)]
                == multiset(old(db.attendance))[RowOf(records[k], d)]
                   + 2 * multiset(RowsOf(records, d))[RowOf(records[k], d)]
    ensures db.users == old(db.users)
  {
    first := db.SaveAttendance(records, d, false);
    second := db.SaveAttendance(records, d, false);
    forall k | 0 <= k < |records|
      ensures multiset(db.attendance)[RowOf(records[k], d)]
                == multiset(old(db.attendance))[RowOf(records[k], d)]
                   + 2 * multiset(RowsOf(records, d))[RowOf(records[k], d)]
    {
      ResavingDuplicatesRows(old(db.attendance), records, d, k);
    }
  }
}
