# zkteco-data-pusher, modelled in Dafny

The program copies attendance punches from ZKTeco terminals into Postgres.
Two classes do the work:

- `ZKTecoReader` (zk_reader.py) talks to one terminal through the `zk` protocol library.
- `DatabaseHandler` (db.py) writes to two tables: `zkt_users` and `zkt_attendance`.

This project models both classes and proves what their operations do.

- `common.dfy` (module `Common`): `Option`, an order-preserving `Filter`, subsequences and occurrence counts, with their lemmas.
- `records.dfy` (module `Records`): the values passed between reader and store:
  - the raw attendance and user objects of the protocol library;
  - the dicts the reader builds from them;
  - Python's `str()` on a device user id, with a proof that it parses back.
- `db.dfy` (module `Db`): the store.
  - `DatabaseHandler` is a class with two fields: the attendance rows as a sequence, and the users as a map keyed by user id.
  - Each write method mirrors its SQL (INSERT loop, DELETE then batch INSERT, TRUNCATE, upsert).
  - Each write method is all-or-nothing. A rollback restores the state from before the call.
  - A statement fails when a value is wider than its VARCHAR column or a row's user id has no user (the foreign key).
  - Any other driver error is the `fault` parameter, taken at commit.
  - `Valid()` is the pair of constraints Postgres keeps: the column widths of both tables (user id and username of `zkt_users`, user id and device serial of `zkt_attendance`) and the foreign key. Every write preserves it.
- `zk_reader.dfy` (module `ZkReader`): the reader.
  - The terminal is an oracle. `attempt(k)` is the library's answer to connect attempt `k`. The replies of `get_attendance()` and `get_users()` are parameters.
  - The field `calls` records the reader's device I/O: connect attempts, sleeps and handle disconnects.
  - `disconnect` never clears `conn`. Once connected, the reader stays "connected" even after a failed read.
  - Functions and lemmas cover:
    - the retry loop of `connect` and the shape of its trace;
    - normalisation of raw records;
    - the count-based slice of `monitor_attendance`;
    - the watermark filter of `monitor_attendance_with_db`;
    - the device identity, which is always the IP.

The store has no uniqueness constraint. `zkt_attendance` has only a surrogate key, and `save_attendance` inserts without any duplicate check. There is no UNIQUE(user_id, timestamp, device_serial) constraint, so writes are not idempotent.

- `Db.SaveTwice` proves that saving the same batch a second time commits again and appends its rows again. `Db.ResavingDuplicatesRows` then shows that each row occurs twice as often.
- Per-device deduplication rests on the watermark filter alone (`ZkReader.PollAddsOnlyUnstoredRows`).

## Model

| member | source | states |
|---|---|---|
| Records.StrNumberRoundTrip | zk_reader.py:59 | `str()` of an integer user id parses back to the same integer |
| Records.StrNumberInjective | zk_reader.py:59 | two distinct integer user ids never become the same `user_id` text on attendance rows |
| Records.DigitsRoundTrip | zk_reader.py:59 | the decimal digits `str()` writes for a natural number denote that number |
| Db.MaxTimestamp | db.py:99-100 | `MAX(timestamp)` is NULL exactly on an empty table; otherwise it is a timestamp of some row and no row's timestamp exceeds it |
| Db.CountCoversEveryDevice | db.py:109-110 | for any device, the table's row count is that device's rows plus all other rows |
| Db.BatchIsOneDevice | db.py:136-139 | every row a batch saved under device `d` becomes lands in `d`'s partition and in no other device's |
| Db.ResyncReplacesPartition | db.py:165-176 | after delete-then-insert, device `d`'s rows are exactly the batch, in order and as a multiset |
| Db.ResyncKeepsOtherDevices | db.py:165-176 | delete-then-insert for device `d` leaves every other device's rows as they were, in order |
| Db.ResavingDuplicatesRows | db.py:133-141 | no duplicate check: saving a batch twice doubles the occurrences of each of its rows, and the table differs from saving once |
| Db.SaveTwice | db.py:128-155 | saving the same insertable batch twice: both calls return true iff the batch is non-empty, and the table ends as the old table followed by the batch's rows twice, each row occurring twice as often as in the batch |
| Db.UpsertAt | db.py:76-86 | upsert by user id: ids are present iff they were before or are in the batch; ids outside the batch keep their row; ids in the batch carry the name of their last occurrence, `updated_at = now`, and keep `created_at` when they already existed (`now` for new ones) |
| Db.DatabaseHandler.constructor | db.py:30-44 | a handler on freshly created tables: both empty, constraints hold |
| Db.DatabaseHandler.GetAttendanceCount | db.py:105-113 | the number of rows across all devices, 0 when the query raises |
| Db.DatabaseHandler.IsAttendanceEmpty | db.py:60-69 | true iff the count query gives 0, i.e. iff the table is empty or the query raises |
| Db.DatabaseHandler.GetLatestAttendanceTimestamp | db.py:95-103 | None iff the table is empty or the query raises; otherwise the maximum timestamp over all devices, attained by some row |
| Db.DatabaseHandler.SyncUsers | db.py:71-93 | succeeds iff no fault and every user fits its columns; then users become the upsert of the batch, otherwise unchanged; attendance unchanged; constraints kept |
| Db.DatabaseHandler.ClearAttendanceTable | db.py:115-126 | on success attendance is empty, otherwise unchanged; users unchanged |
| Db.DatabaseHandler.SaveAttendance | db.py:128-155 | when every row is insertable and there is no fault, exactly one row `(user_id, timestamp, device_serial)` per record is appended, in order; otherwise the table is rolled back; returns true iff it committed a non-empty batch; users unchanged; constraints kept |
| Db.DatabaseHandler.SyncDeviceRecords | db.py:157-185 | on success the table is the other devices' rows followed by the batch's rows; on any failure it is unchanged; users unchanged; constraints kept |
| ZkReader.FailedAttemptCounts | zk_reader.py:26-35 | a failed attempt makes one attempt and sleeps once exactly when another attempt follows |
| ZkReader.ConnectAttemptBounds | zk_reader.py:24-36 | `connect` makes at most three attempts and sleeps exactly once fewer than it attempts |
| ZkReader.ConnectSleepsBetweenAttempts | zk_reader.py:24-36 | `connect` starts with an attempt; every sleep is 5 seconds, right after an attempt, and followed by another attempt |
| ZkReader.ConnectsAt | zk_reader.py:25-29 | when attempt `k` is the first to succeed, `connect` makes `k` failed attempts and then the successful one |
| ZkReader.NeverConnects | zk_reader.py:25-36 | when no attempt succeeds, `connect` makes all three failed attempts |
| ZkReader.ZKTecoReader.constructor | zk_reader.py:9-13 | a reader for `ip` and `port` (4370 by default), not connected, with no I/O yet |
| ZkReader.ZKTecoReader.Disconnect | zk_reader.py:38-42 | calls the handle's disconnect only when there is a handle, and never changes `conn` |
| ZkReader.ZKTecoReader.Connect | zk_reader.py:22-36 | returns true iff one of the three attempts succeeds; `conn` becomes the first success, or stays as it was when all fail; the I/O is exactly the retry trace |
| ZkReader.NormalizeAppend | zk_reader.py:55-68 | normalisation works record by record, in input order |
| ZkReader.NormalizeLength | zk_reader.py:55-68 | the output is never longer than the input, and equally long iff every record has a user id and a timestamp |
| ZkReader.NormalizeMembership | zk_reader.py:56-66 | a dict is in the output iff some input record becomes it: `str()` of its user id, its timestamp, punch and status or None |
| ZkReader.NullUserIdIsKept | zk_reader.py:58-64 | a record whose `user_id` is present but None is kept, with user id text "None" |
| ZkReader.CollectLogs | zk_reader.py:55-68 | the loop that appends one dict per readable record and skips a record that raises AttributeError yields the normalised list |
| ZkReader.ZKTecoReader.GetAttendanceLogs | zk_reader.py:44-73 | connects first when there is no handle; [] when that fails, when the log is empty, or when the read raises (then it also disconnects); otherwise the normalised records |
| ZkReader.ZKTecoReader.GetUsers | zk_reader.py:75-98 | [] when not connected or when the read raises; otherwise one dict per device user, in order, with user_id, name, privilege and card copied |
| ZkReader.ZKTecoReader.GetDeviceInfo | zk_reader.py:184-199 | info exists iff connected, and its serial and ip are both the reader's IP |
| ZkReader.ZKTecoReader.DeviceIdentity | zk_reader.py:210-211 | the serial rows are stored under is always the IP |
| ZkReader.MonitorStep | zk_reader.py:162-177 | one poll never lowers `last_count`; it reports new records iff the log grew; what it reports is `current[last_count:]` |
| ZkReader.LastCountIsLongestLog | zk_reader.py:153-177 | `last_count` is the largest log length seen: at least the initial count and every poll's length, and equal to one of them |
| ZkReader.ReportsMatchGrowth | zk_reader.py:162-177 | the records reported add up to exactly how much `last_count` grew, and every report is non-empty |
| ZkReader.RotatedLogGoesUnreported | zk_reader.py:165-169 | after a cleared log, new records stay unreported until the log outgrows its old length: three seen, then two new ones, nothing reported |
| ZkReader.ZKTecoReader.MonitorAttendance | zk_reader.py:143-182 | nothing and no device I/O without a handle; otherwise the handle is kept, the reports and final `last_count` are those of the logs `get_attendance_logs` returns for the first read and each poll, and the I/O is the first read's disconnect if it raises, then per poll a 2 s sleep and that read's disconnect if it raises |
| ZkReader.NewerThanSpec | zk_reader.py:235-238 | the filter keeps exactly the records strictly newer than the watermark, in order and with their multiplicities, and keeps all of them when there is no watermark |
| ZkReader.PollAddsOnlyUnstoredRows | zk_reader.py:231-241 | with the device's stored maximum as the watermark, no row a poll saves is already in the table |
| ZkReader.ZKTecoReader.MonitorWithDbIteration | zk_reader.py:201-246 | a pass without a handle connects first and ends holding the first successful handle, or None when every attempt fails; a pass with a handle keeps it; the pass either fails to connect and sleeps 30 s, or calls a method DatabaseHandler does not have (`ensure_users_exist` when the device returns users, `has_device_records` otherwise), disconnects that handle and sleeps 30 s; the store is never changed |
| ZkReader.ZKTecoReader.PollOnce | zk_reader.py:225-241 | sleeps 5 s; without a handle it gives up and sleeps 30 s; otherwise it returns nothing-new exactly when no record is newer than the watermark, and otherwise saves exactly those records with `save_attendance`'s all-or-nothing outcome and reports whether that save committed |

## Left out

- The psycopg2 connection lifecycle (`DatabaseHandler.connect`, `disconnect`), the `ensure_tables` DDL and `config`. The schema is the row datatypes and the `Valid()` constraints. A handler whose `conn` is None is not modelled.
- Postgres VARCHAR silently truncates trailing spaces beyond the width. The model counts every character.
- The surrogate `id` and the `created_at` column of attendance rows are not modelled, since no operation reads them.
- `CURRENT_TIMESTAMP` is the parameter `now`. Device datetimes are integers, since only their order is used.
- Db.DatabaseHandler.SaveAttendance: a driver error other than a failing INSERT is modelled only at commit (`fault`). An error in the middle of the loop rolls back all the same, so the resulting state is identical.
- Db.DatabaseHandler.SyncDeviceRecords: the row counts fetched before and after the sync are not modelled as queries. The count after the commit only feeds a log line. The count before the DELETE catches its own error without a rollback. The transaction is then aborted, the DELETE raises, and the call returns false: that case is covered by `fault`.
- Logging and console output.
- The protocol library: connect, `get_attendance` and `get_users` are oracle parameters. A handle whose own `disconnect` raises is not modelled.
- ZkReader.ZKTecoReader.GetUsers: the device read it performs is not recorded in `calls`, which records connect attempts, sleeps and handle disconnects only.
- ZkReader.ToLog: a record whose `timestamp` attribute is present but None is dropped like one that lacks the attribute. The code keeps it with timestamp None; the comparison at zk_reader.py:237 would then raise TypeError, and `save_attendance` would store a NULL timestamp. The protocol library always sets a datetime there, and timestamps are integers here.
- A missing dict key (KeyError) cannot arise. The dicts are typed records whose fields are always present.
- `print_users`: it calls `pformat` inside its loop, and zk_reader.py never imports it. It raises NameError whenever the device has users, and returns [] otherwise.
- `clear_attendance` on the device and `enable_realtime` with its callback: device commands with no logic beyond the connected check.
- `main`, its threads and the busy wait, the infinite `while True` loops, and KeyboardInterrupt. Sleeps are recorded as calls, not as time passing.
- ZkReader.ZKTecoReader.MonitorAttendance: the device's reply to each read is a parameter, and the loop runs over finitely many polls rather than forever.
- ZkReader.ZKTecoReader.PollOnce: the watermark is a parameter. `get_latest_device_timestamp` does not exist in db.py, and its behaviour is not invented here.
- The cold-start load at zk_reader.py:218-222 is not modelled. It depends on `has_device_records`, which db.py does not define.

## Findings

| source | as written | input that shows it | evidently intended | confidence | as-written member | corrected member |
|---|---|---|---|---|---|---|
| zk_reader.py:216, 218, 231 | `monitor_attendance_with_db` calls `ensure_users_exist`, `has_device_records` and `get_latest_device_timestamp`; DatabaseHandler defines none of them, so every pass after a successful connect ends in the AttributeError handler, disconnects and sleeps 30 s, and nothing is ever stored | any connected terminal: with users, `ensure_users_exist` raises; with none, `has_device_records` raises | sync the users, then repeatedly save the records newer than the device's stored maximum timestamp | not executed | ZkReader.ZKTecoReader.MonitorWithDbIteration | ZkReader.ZKTecoReader.PollOnce |
