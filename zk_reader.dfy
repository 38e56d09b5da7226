/** The ZKTecoReader of zk_reader.py: one terminal connection with bounded
    connect retries, the attendance and user pulls, the count-based monitor
    and one pass of the database-backed monitor. The protocol library is an
    oracle: its answers are parameters. The device I/O the reader performs
    (connect attempts, sleeps, handle disconnects) is recorded in `calls`. */
module ZkReader {
  import opened Common
  import opened Records
  import Db

  /** The port a reader is created with when none is given. */
  const DefaultPort: int := 4370
  /** `connect` tries at most this many times. */
  const MaxConnectAttempts: nat := 3
  /** Seconds `connect` waits between two attempts. */
  const RetryDelaySeconds: nat := 5
  /** Seconds `monitor_attendance` waits before each poll. */
  const MonitorPollSeconds: nat := 2
  /** Seconds the database-backed monitor waits after a failure. */
  const ReconnectDelaySeconds: nat := 30
  /** Seconds the database-backed monitor waits before each poll. */
  const PollDelaySeconds: nat := 5

  /** A live session handle returned by the protocol library's connect. */
  datatype Handle = Handle(session: nat)

  /** Device I/O performed by the reader. */
  datatype DeviceCall = ConnectAttempt | Sleep(seconds: nat) | HandleDisconnect(h: Handle)

  /** What the handle's `get_attendance()` does. */
  datatype AttendanceReply = AttendanceRaises | AttendanceList(records: seq<RawAttendance>)

  /** What the handle's `get_users()` does. */
  datatype UsersReply = UsersRaise | UserList(users: seq<DeviceUser>)

  /** The dict `get_device_info` returns. */
  datatype DeviceInfo = DeviceInfo(ip: string, serial: string, model: string)

  /** How one pass of `monitor_attendance_with_db`'s outer loop ends. */
  datatype IterationOutcome = ConnectFailed | MissingStoreMethod(name: string)

  /** How one pass of `monitor_attendance_with_db`'s polling loop ends. */
  datatype PollOutcome = ConnectionLost | NothingNew | SaveAttempted(saved: bool)

  // ---------------------------------------------------------------------------
  // Connecting

  /** What `disconnect` does on the device: the handle's disconnect, when there is a handle. */
  function DisconnectCalls(conn: Option<Handle>): seq<DeviceCall>
  {
    if conn.Some? then [HandleDisconnect(conn.value)] else []
  }

  /** The I/O of failed attempt `k` (0-based): the attempt, a sleep when
      another attempt follows, then `disconnect` of whatever `conn` holds. */
  function FailedAttemptCalls(k: nat, conn: Option<Handle>): seq<DeviceCall>
  {
    [ConnectAttempt]
    + (if k + 1 < MaxConnectAttempts then [Sleep(RetryDelaySeconds)] else [])
    + DisconnectCalls(conn)
  }

  /** The I/O of the first `n` failed attempts. */
  function FailedAttemptsCalls(n: nat, conn: Option<Handle>): seq<DeviceCall>
  {
    if n == 0 then [] else FailedAttemptsCalls(n - 1, conn) + FailedAttemptCalls(n - 1, conn)
  }

  /** The I/O of a `connect` call: `failures` failed attempts, then one
      successful attempt when `succeeded`. */
  function ConnectCalls(failures: nat, succeeded: bool, conn: Option<Handle>): seq<DeviceCall>
  {
    FailedAttemptsCalls(failures, conn) + (if succeeded then [ConnectAttempt] else [])
  }

  /** One of the allowed attempts succeeds. */
  predicate SomeAttemptSucceeds(attempt: nat -> Option<Handle>)
  {
    exists k :: 0 <= k < MaxConnectAttempts && attempt(k).Some?
  }

  /** The first attempt from `k` on that succeeds. */
  function FirstSuccessFrom(attempt: nat -> Option<Handle>, k: nat): (j: nat)
    requires k <= MaxConnectAttempts
    requires exists i :: k <= i < MaxConnectAttempts && attempt(i).Some?
    ensures k <= j < MaxConnectAttempts && attempt(j).Some?
    ensures forall i :: k <= i < j ==> attempt(i).None?
    decreases MaxConnectAttempts - k
  {
    if attempt(k).Some? then k else FirstSuccessFrom(attempt, k + 1)
  }

  /** The index of the attempt that connects. */
  function FirstSuccess(attempt: nat -> Option<Handle>): (k: nat)
    requires SomeAttemptSucceeds(attempt)
    ensures k < MaxConnectAttempts && attempt(k).Some?
    ensures forall i :: 0 <= i < k ==> attempt(i).None?
  {
    FirstSuccessFrom(attempt, 0)
  }

  /** The I/O of `connect` for the given oracle. */
  function ConnectOutcomeCalls(attempt: nat -> Option<Handle>, conn: Option<Handle>): seq<DeviceCall>
  {
    if SomeAttemptSucceeds(attempt) then ConnectCalls(FirstSuccess(attempt), true, conn)
    else ConnectCalls(MaxConnectAttempts, false, conn)
  }

  /** When attempt `k` is the first to connect, `connect` makes `k` failed
      attempts and then the successful one. */
  lemma ConnectsAt(attempt: nat -> Option<Handle>, k: nat, conn: Option<Handle>)
    requires k < MaxConnectAttempts && attempt(k).Some?
    requires forall j :: 0 <= j < k ==> attempt(j).None?
    ensures SomeAttemptSucceeds(attempt) && FirstSuccess(attempt) == k
    ensures ConnectOutcomeCalls(attempt, conn) == FailedAttemptsCalls(k, conn) + [ConnectAttempt]
  {
    var f := FirstSuccess(attempt);
    assert !(f < k) && !(k < f);
  }

  /** Appending failed attempt `k` to the trace of the first `k` extends it
      to the trace of the first `k + 1`. */
  lemma FailedRoundAppends(prior: seq<DeviceCall>, k: nat, conn: Option<Handle>)
    ensures prior + FailedAttemptsCalls(k, conn)
              + ([ConnectAttempt]
                 + (if k + 1 < MaxConnectAttempts then [Sleep(RetryDelaySeconds)] else [])
                 + DisconnectCalls(conn))
         == prior + FailedAttemptsCalls(k + 1, conn)
  {
  }

  /** When no attempt connects, `connect` makes every attempt and fails. */
  lemma NeverConnects(attempt: nat -> Option<Handle>, conn: Option<Handle>)
    requires forall j :: 0 <= j < MaxConnectAttempts ==> attempt(j).None?
    ensures !SomeAttemptSucceeds(attempt)
    ensures ConnectOutcomeCalls(attempt, conn) == FailedAttemptsCalls(MaxConnectAttempts, conn)
  {
  }

  /** One failed attempt holds exactly one attempt, and one sleep exactly
      when another attempt follows. */
  lemma FailedAttemptCounts(k: nat, conn: Option<Handle>)
    ensures var r := FailedAttemptCalls(k, conn);
            && Count(r, ConnectAttempt) == 1
            && Count(r, Sleep(RetryDelaySeconds)) == (if k + 1 < MaxConnectAttempts then 1 else 0)
  {
    var sleeps: seq<DeviceCall> := if k + 1 < MaxConnectAttempts then [Sleep(RetryDelaySeconds)] else [];
    var d := DisconnectCalls(conn);
    CountAppend([ConnectAttempt], sleeps, ConnectAttempt);
    CountAppend([ConnectAttempt] + sleeps, d, ConnectAttempt);
    CountAppend([ConnectAttempt], sleeps, Sleep(RetryDelaySeconds));
    CountAppend([ConnectAttempt] + sleeps, d, Sleep(RetryDelaySeconds));
    assert Count([ConnectAttempt], ConnectAttempt) == 1 by {
      assert [ConnectAttempt][..0] == [];
    }
    assert Count([ConnectAttempt], Sleep(RetryDelaySeconds)) == 0 by {
      assert [ConnectAttempt][..0] == [];
    }
    if sleeps != [] {
      assert sleeps[..0] == [];
    }
    if d != [] {
      assert d[..0] == [];
    }
  }

  /** One failed attempt starts with the attempt, and its only possible sleep
      is the retry delay, right after the attempt, when another attempt follows. */
  lemma FailedAttemptSleepPosition(k: nat, conn: Option<Handle>)
    ensures var r := FailedAttemptCalls(k, conn);
            && r[0] == ConnectAttempt
            && forall i :: 0 <= i < |r| && r[i].Sleep? ==>
                 i == 1 && k + 1 < MaxConnectAttempts && r[i] == Sleep(RetryDelaySeconds)
  {
  }

  lemma {:induction false} FailedAttemptsAttemptCount(n: nat, conn: Option<Handle>)
    ensures Count(FailedAttemptsCalls(n, conn), ConnectAttempt) == n
  {
    if n > 0 {
      var prefix, round := FailedAttemptsCalls(n - 1, conn), FailedAttemptCalls(n - 1, conn);
      assert FailedAttemptsCalls(n, conn) == prefix + round;
      CountAppend(prefix, round, ConnectAttempt);
      FailedAttemptsAttemptCount(n - 1, conn);
      FailedAttemptCounts(n - 1, conn);
    }
  }

  lemma {:induction false} FailedAttemptsSleepCount(n: nat, conn: Option<Handle>)
    requires n <= MaxConnectAttempts
    ensures Count(FailedAttemptsCalls(n, conn), Sleep(RetryDelaySeconds))
         == if n < MaxConnectAttempts then n else MaxConnectAttempts - 1
  {
    if n > 0 {
      var prefix, round := FailedAttemptsCalls(n - 1, conn), FailedAttemptCalls(n - 1, conn);
      assert FailedAttemptsCalls(n, conn) == prefix + round;
      CountAppend(prefix, round, Sleep(RetryDelaySeconds));
      FailedAttemptsSleepCount(n - 1, conn);
      FailedAttemptCounts(n - 1, conn);
    }
  }

  /** Every sleep of the failed attempts is the retry delay, lies right after
      an attempt, and is followed by another attempt of the same `connect`
      call: the next failed one, or the one in `tail`. */
  lemma {:induction false} SleepsBetweenAttempts(n: nat, conn: Option<Handle>, tail: seq<DeviceCall>)
    requires n <= MaxConnectAttempts
    requires n < MaxConnectAttempts ==> tail != [] && tail[0] == ConnectAttempt
    ensures n > 0 ==> FailedAttemptsCalls(n, conn)[0] == ConnectAttempt
    ensures var t := FailedAttemptsCalls(n, conn) + tail;
            forall i :: 0 <= i < |FailedAttemptsCalls(n, conn)| && t[i].Sleep? ==>
              && t[i] == Sleep(RetryDelaySeconds)
              && 0 < i && t[i - 1] == ConnectAttempt
              && ConnectAttempt in t[i + 1..]
  {
    if n > 0 {
      var prefix, round := FailedAttemptsCalls(n - 1, conn), FailedAttemptCalls(n - 1, conn);
      var t := FailedAttemptsCalls(n, conn) + tail;
      assert t == prefix + (round + tail);
      FailedAttemptSleepPosition(n - 1, conn);
      SleepsBetweenAttempts(n - 1, conn, round + tail);
      if n == 1 {
        assert prefix == [];
      }
      forall i | |prefix| <= i < |prefix| + |round| && t[i].Sleep?
        ensures t[i] == Sleep(RetryDelaySeconds)
        ensures 0 < i && t[i - 1] == ConnectAttempt
        ensures ConnectAttempt in t[i + 1..]
      {
        assert t[i] == round[i - |prefix|];
        assert i == |prefix| + 1 && n < MaxConnectAttempts;
        assert t[i - 1] == round[0];
        assert t[|prefix| + |round|] == tail[0];
        assert t[i + 1..][|prefix| + |round| - i - 1] == tail[0];
      }
    }
  }

  /** `connect` makes at most three attempts and sleeps exactly once fewer
      than it attempts, so at most twice. */
  lemma ConnectAttemptBounds(failures: nat, succeeded: bool, conn: Option<Handle>)
    requires if succeeded then failures < MaxConnectAttempts else failures == MaxConnectAttempts
    ensures var t := ConnectCalls(failures, succeeded, conn);
            && Count(t, ConnectAttempt) == failures + (if succeeded then 1 else 0)
            && Count(t, ConnectAttempt) <= MaxConnectAttempts
            && Count(t, Sleep(RetryDelaySeconds)) == Count(t, ConnectAttempt) - 1
  {
    var tail: seq<DeviceCall> := if succeeded then [ConnectAttempt] else [];
    FailedAttemptsAttemptCount(failures, conn);
    FailedAttemptsSleepCount(failures, conn);
    CountAppend(FailedAttemptsCalls(failures, conn), tail, ConnectAttempt);
    CountAppend(FailedAttemptsCalls(failures, conn), tail, Sleep(RetryDelaySeconds));
    if succeeded {
      assert tail[..0] == [];
    }
  }

  /** `connect` starts with an attempt, and sleeps only between two attempts:
      each sleep is the retry delay, comes right after an attempt, and is
      followed by another attempt. */
  lemma ConnectSleepsBetweenAttempts(failures: nat, succeeded: bool, conn: Option<Handle>)
    requires if succeeded then failures < MaxConnectAttempts else failures == MaxConnectAttempts
    ensures var t := ConnectCalls(failures, succeeded, conn);
            && t[0] == ConnectAttempt
            && forall i :: 0 <= i < |t| && t[i].Sleep? ==>
                 && t[i] == Sleep(RetryDelaySeconds)
                 && 0 < i && t[i - 1] == ConnectAttempt
                 && ConnectAttempt in t[i + 1..]
  {
    var tail: seq<DeviceCall> := if succeeded then [ConnectAttempt] else [];
    SleepsBetweenAttempts(failures, conn, tail);
  }

  // ---------------------------------------------------------------------------
  // Attendance records

  /** The dict built from one raw record, or None when reading `user_id` or
      `timestamp` raises AttributeError; a missing punch or status is None. */
  function ToLog(record: RawAttendance): Option<AttendanceLog>
  {
    if record.userId.Some? && record.timestamp.Some? then
      Some(AttendanceLog(Str(record.userId.value), record.timestamp.value, record.punch, record.status))
    else
      None
  }

  /** A record whose `user_id` attribute holds None is kept, with the text
      "None" as its user id: only a missing attribute raises AttributeError. */
  lemma NullUserIdIsKept(timestamp: int, punch: Option<int>, status: Option<int>)
    ensures Normalize([RawAttendance(Some(Null), Some(timestamp), punch, status)])
         == [AttendanceLog("None", timestamp, punch, status)]
  {
    assert [RawAttendance(Some(Null), Some(timestamp), punch, status)][..0] == [];
  }

  /** The list `get_attendance_logs` builds: one dict per readable record, in order. */
  function Normalize(records: seq<RawAttendance>): seq<AttendanceLog>
  {
    if records == [] then []
    else
      Normalize(records[..|records| - 1])
      + match ToLog(records[|records| - 1]) case Some(log) => [log] case None => []
  }

  /** Normalizing distributes over concatenation: the output keeps the
      input's order, record by record. */
  lemma {:induction false} NormalizeAppend(a: seq<RawAttendance>, b: seq<RawAttendance>)
    ensures Normalize(a + b) == Normalize(a) + Normalize(b)
  {
    if b == [] {
      assert a + b == a;
    } else {
      var init, last := b[..|b| - 1], b[|b| - 1];
      NormalizeAppend(a, init);
      assert (a + b)[..|a + b| - 1] == a + init;
      assert (a + b)[|a + b| - 1] == last;
    }
  }

  /** The output is never longer than the input, and is as long exactly when
      every record is readable. */
  lemma {:induction false} NormalizeLength(records: seq<RawAttendance>)
    ensures |Normalize(records)| <= |records|
    ensures |Normalize(records)| == |records| <==> forall i :: 0 <= i < |records| ==> ToLog(records[i]).Some?
  {
    if records != [] {
      var init := records[..|records| - 1];
      NormalizeLength(init);
      assert forall i :: 0 <= i < |init| ==> init[i] == records[i];
    }
  }

  /** A dict is in the output exactly when some record of the input becomes it. */
  lemma {:induction false} NormalizeMembership(records: seq<RawAttendance>, log: AttendanceLog)
    ensures log in Normalize(records) <==> exists i :: 0 <= i < |records| && ToLog(records[i]) == Some(log)
  {
    if records != [] {
      var init := records[..|records| - 1];
      NormalizeMembership(init, log);
      assert forall i :: 0 <= i < |init| ==> init[i] == records[i];
      if ToLog(records[|records| - 1]) == Some(log) {
        assert log in Normalize(records);
      }
    }
  }

  /** The loop of `get_attendance_logs`: append the dict of each readable
      record, skip a record that raises AttributeError. */
  method CollectLogs(attendance: seq<RawAttendance>) returns (logs: seq<AttendanceLog>)
    ensures logs == Normalize(attendance)
  {
    logs := [];
    for i := 0 to |attendance|
      invariant logs == Normalize(attendance[..i])
    {
      assert attendance[..i + 1][..i] == attendance[..i];
      match ToLog(attendance[i])
      case None =>
        continue;
      case Some(log) =>
        logs := logs + [log];
    }
    assert attendance[..|attendance|] == attendance;
  }

  /** The dict `get_users` builds from one device user: its fields copied as they are. */
  function UserInfoOf(u: DeviceUser): UserInfo
  {
    UserInfo(u.userId, u.name, u.privilege, u.card)
  }

  // ---------------------------------------------------------------------------
  // The count-based monitor

  /** One poll of `monitor_attendance`: the records reported as new and the
      next `last_count`. */
  function MonitorStep(lastCount: nat, current: seq<AttendanceLog>): (step: (seq<AttendanceLog>, nat))
    ensures step.1 >= lastCount && step.1 >= |current|
    ensures step.1 == lastCount || step.1 == |current|
    ensures step.0 != [] <==> |current| > lastCount
    ensures |current| > lastCount ==> current == current[..lastCount] + step.0
  {
    if |current| > lastCount then (current[lastCount..], |current|) else ([], lastCount)
  }

  /** `last_count` after the given polls, starting from `initial`. */
  function LastCountAfter(initial: nat, polls: seq<seq<AttendanceLog>>): nat
  {
    if polls == [] then initial
    else MonitorStep(LastCountAfter(initial, polls[..|polls| - 1]), polls[|polls| - 1]).1
  }

  /** The batches of new records the monitor reports, one per poll that found any. */
  function Reports(initial: nat, polls: seq<seq<AttendanceLog>>): seq<seq<AttendanceLog>>
  {
    if polls == [] then []
    else
      var step := MonitorStep(LastCountAfter(initial, polls[..|polls| - 1]), polls[|polls| - 1]);
      Reports(initial, polls[..|polls| - 1]) + if step.0 != [] then [step.0] else []
  }

  /** What `get_attendance_logs` returns for a device reply once connected. */
  function ReplyLogs(reply: AttendanceReply): seq<AttendanceLog>
  {
    if reply.AttendanceRaises? then [] else Normalize(reply.records)
  }

  /** What `get_attendance_logs` returns for each of the replies, in order. */
  function PolledLogs(replies: seq<AttendanceReply>): seq<seq<AttendanceLog>>
  {
    if replies == [] then []
    else PolledLogs(replies[..|replies| - 1]) + [ReplyLogs(replies[|replies| - 1])]
  }

  /** The device I/O of one connected `get_attendance_logs` call: a
      disconnect when the read raises. */
  function ReadCalls(reply: AttendanceReply, h: Handle): seq<DeviceCall>
  {
    if reply.AttendanceRaises? then [HandleDisconnect(h)] else []
  }

  /** The device I/O of `monitor_attendance`'s polls: the sleep before each
      poll, then that poll's read. */
  function PollCalls(replies: seq<AttendanceReply>, h: Handle): seq<DeviceCall>
  {
    if replies == [] then []
    else
      PollCalls(replies[..|replies| - 1], h)
      + [Sleep(MonitorPollSeconds)] + ReadCalls(replies[|replies| - 1], h)
  }

  function TotalLength(batches: seq<seq<AttendanceLog>>): nat
  {
    if batches == [] then 0 else TotalLength(batches[..|batches| - 1]) + |batches[|batches| - 1]|
  }

  lemma {:induction false} TotalLengthAppend(a: seq<seq<AttendanceLog>>, b: seq<seq<AttendanceLog>>)
    ensures TotalLength(a + b) == TotalLength(a) + TotalLength(b)
  {
    if b != [] {
      TotalLengthAppend(a, b[..|b| - 1]);
      assert (a + b)[..|a + b| - 1] == a + b[..|b| - 1];
    } else {
      assert a + b == a;
    }
  }

  /** `last_count` is the largest log length seen: never below the initial
      count or any poll's length, and equal to one of them. */
  lemma {:induction false} LastCountIsLongestLog(initial: nat, polls: seq<seq<AttendanceLog>>)
    ensures LastCountAfter(initial, polls) >= initial
    ensures forall i :: 0 <= i < |polls| ==> LastCountAfter(initial, polls) >= |polls[i]|
    ensures LastCountAfter(initial, polls) == initial
         || exists i :: 0 <= i < |polls| && LastCountAfter(initial, polls) == |polls[i]|
  {
    if polls != [] {
      var init := polls[..|polls| - 1];
      LastCountIsLongestLog(initial, init);
      assert forall i :: 0 <= i < |init| ==> init[i] == polls[i];
    }
  }

  /** The monitor reports exactly as many records as `last_count` grew by. */
  lemma {:induction false} ReportsMatchGrowth(initial: nat, polls: seq<seq<AttendanceLog>>)
    ensures TotalLength(Reports(initial, polls)) == LastCountAfter(initial, polls) - initial
    ensures forall k :: 0 <= k < |Reports(initial, polls)| ==> Reports(initial, polls)[k] != []
  {
    if polls != [] {
      var init := polls[..|polls| - 1];
      ReportsMatchGrowth(initial, init);
      LastCountIsLongestLog(initial, init);
      var step := MonitorStep(LastCountAfter(initial, init), polls[|polls| - 1]);
      TotalLengthAppend(Reports(initial, init), if step.0 != [] then [step.0] else []);
      assert TotalLength([step.0]) == |step.0| by {
        assert [step.0][..0] == [];
      }
    }
  }

  /** Count-based detection misses records after the device log is cleared:
      three records seen, then the log holds two new ones, and nothing is reported. */
  lemma RotatedLogGoesUnreported(a: AttendanceLog, b: AttendanceLog)
    ensures Reports(3, [[a, b]]) == []
    ensures LastCountAfter(3, [[a, b]]) == 3
  {
    assert [[a, b]][..0] == [];
  }

  // ---------------------------------------------------------------------------
  // The watermark filter

  function IsNewer(watermark: Option<int>): AttendanceLog -> bool
  {
    (log: AttendanceLog) => watermark.None? || log.timestamp > watermark.value
  }

  /** `[record for record in current_records if latest_device_time is None or
      record['timestamp'] > latest_device_time]`. */
  function NewerThan(records: seq<AttendanceLog>, watermark: Option<int>): seq<AttendanceLog>
  {
    Filter(records, IsNewer(watermark))
  }

  /** The filter keeps exactly the records strictly newer than the watermark,
      in their order and with their multiplicities; with no watermark it keeps
      every record. */
  lemma NewerThanSpec(records: seq<AttendanceLog>, watermark: Option<int>)
    ensures IsSubsequence(NewerThan(records, watermark), records)
    ensures forall log :: log in NewerThan(records, watermark) <==>
              log in records && (watermark.None? || log.timestamp > watermark.value)
    ensures forall log :: multiset(NewerThan(records, watermark))[log] ==
              if watermark.None? || log.timestamp > watermark.value then multiset(records)[log] else 0
    ensures watermark.None? ==> NewerThan(records, watermark) == records
  {
    FilterSubsequence(records, IsNewer(watermark));
    forall log
      ensures multiset(NewerThan(records, watermark))[log] ==
              if watermark.None? || log.timestamp > watermark.value then multiset(records)[log] else 0
    {
      FilterMultiset(records, IsNewer(watermark), log);
    }
    if watermark.None? {
      FilterKeepsAll(records, IsNewer(watermark));
    }
  }

  /** With the device's stored maximum as watermark, a poll never stores a row
      that is already stored: every row it adds is newer than every stored row
      of the device, and rows of other devices carry another serial. */
  lemma PollAddsOnlyUnstoredRows(table: seq<Db.AttendanceRow>, current: seq<AttendanceLog>, d: string)
    ensures var batch := Db.RowsOf(NewerThan(current, Db.MaxTimestamp(Db.DeviceRows(table, d))), d);
            forall row :: row in batch ==> row !in table
  {
    var w := Db.MaxTimestamp(Db.DeviceRows(table, d));
    var newer := NewerThan(current, w);
    forall row | row in Db.RowsOf(newer, d)
      ensures row !in table
    {
      var k :| 0 <= k < |newer| && Db.RowsOf(newer, d)[k] == row;
      FilterMembership(current, IsNewer(w), newer[k]);
      FilterMembership(table, Db.OfDevice(d), row);
    }
  }

  // ---------------------------------------------------------------------------
  // The reader

  /** One more poll extends the reports and the count by that poll's step. */
  lemma MonitorExtends(initial: nat, polls: seq<seq<AttendanceLog>>, current: seq<AttendanceLog>)
    ensures var step := MonitorStep(LastCountAfter(initial, polls), current);
            && LastCountAfter(initial, polls + [current]) == step.1
            && Reports(initial, polls + [current])
               == Reports(initial, polls) + if step.0 != [] then [step.0] else []
  {
    assert (polls + [current])[..|polls|] == polls;
  }

  /** Polling one more reply extends the polled logs by that reply's logs
      and the I/O by its sleep and read. */
  lemma PollExtends(prior: seq<DeviceCall>, replies: seq<AttendanceReply>, i: nat, h: Handle)
    requires i < |replies|
    ensures PolledLogs(replies[..i + 1]) == PolledLogs(replies[..i]) + [ReplyLogs(replies[i])]
    ensures prior + PollCalls(replies[..i], h) + [Sleep(MonitorPollSeconds)] + ReadCalls(replies[i], h)
            == prior + PollCalls(replies[..i + 1], h)
  {
    assert replies[..i + 1][..i] == replies[..i];
  }

  class ZKTecoReader {
    const ip: string
    const port: int
    var conn: Option<Handle>
    /** The device I/O performed so far, oldest first. */
    var calls: seq<DeviceCall>

    constructor (ip: string, port: int := DefaultPort)
      ensures this.ip == ip && this.port == port
      ensures conn == None && calls == []
    {
      this.ip := ip;
      this.port := port;
      conn := None;
      calls := [];
    }

    /** `disconnect`: the handle's disconnect when there is a handle. `conn`
        itself is never reset. */
    method Disconnect()
      modifies this`calls
      ensures conn == old(conn)
      ensures calls == old(calls) + DisconnectCalls(conn)
    {
      if conn.Some? {
        calls := calls + [HandleDisconnect(conn.value)];
      }
    }

    /** `connect`: up to three attempts; `attempt(k)` is the library's answer
        to attempt k (None: it raises). The first success sets `conn`; a failed
        attempt leaves `conn` as it was. */
    method Connect(attempt: nat -> Option<Handle>) returns (ok: bool)
      modifies this`conn, this`calls
      ensures ok <==> SomeAttemptSucceeds(attempt)
      ensures conn == if ok then attempt(FirstSuccess(attempt)) else old(conn)
      ensures calls == old(calls) + ConnectOutcomeCalls(attempt, old(conn))
    {
      var retryCount := MaxConnectAttempts;
      ghost var failures := 0;
      while retryCount > 0
        invariant failures + retryCount == MaxConnectAttempts
        invariant conn == old(conn)
        invariant forall j :: 0 <= j < failures ==> attempt(j).None?
        invariant calls == old(calls) + FailedAttemptsCalls(failures, old(conn))
      {
        calls := calls + [ConnectAttempt];
        var reply := attempt(MaxConnectAttempts - retryCount);
        if reply.Some? {
          conn := reply;
          ConnectsAt(attempt, failures, old(conn));
          return true;
        }
        retryCount := retryCount - 1;
        if retryCount > 0 {
          calls := calls + [Sleep(RetryDelaySeconds)];
        }
        Disconnect();
        FailedRoundAppends(old(calls), failures, old(conn));
        failures := failures + 1;
      }
      NeverConnects(attempt, old(conn));
      ok := false;
    }

    /** `get_attendance_logs`: connect first when there is no handle (an empty
        list if that fails), read the log, and build one dict per readable
        record; a read that raises gives an empty list and a disconnect. */
    method GetAttendanceLogs(attempt: nat -> Option<Handle>, reply: AttendanceReply)
      returns (logs: seq<AttendanceLog>)
      modifies this`conn, this`calls
      ensures old(conn).Some? ==> conn == old(conn)
      ensures old(conn).None? ==>
        conn == if SomeAttemptSucceeds(attempt) then attempt(FirstSuccess(attempt)) else None
      ensures logs ==
        if conn.None? || reply.AttendanceRaises? then [] else Normalize(reply.records)
      ensures calls == old(calls)
        + (if old(conn).None? then ConnectOutcomeCalls(attempt, None) else [])
        + (if conn.Some? && reply.AttendanceRaises? then DisconnectCalls(conn) else [])
    {
      if conn.None? {
        var ok := Connect(attempt);
        if !ok {
          return [];
        }
      }
      match reply
      case AttendanceRaises =>
        Disconnect();
        logs := [];
      case AttendanceList(attendance) =>
        if attendance == [] {
          logs := [];
        } else {
          logs := CollectLogs(attendance);
        }
    }

    /** `get_users`: an empty list when there is no handle or the read raises,
        otherwise one dict per device user, in order. */
    method GetUsers(reply: UsersReply) returns (users: seq<UserInfo>)
      ensures conn.None? || reply.UsersRaise? ==> users == []
      ensures conn.Some? && reply.UserList? ==>
        |users| == |reply.users| &&
        forall i :: 0 <= i < |users| ==> users[i] == UserInfoOf(reply.users[i])
    {
      if conn.None? {
        return [];  // "Device not connected" is raised and caught
      }
      match reply
      case UsersRaise =>
        users := [];
      case UserList(deviceUsers) =>
        var userList := [];
        for i := 0 to |deviceUsers|
          invariant |userList| == i
          invariant forall j :: 0 <= j < i ==> userList[j] == UserInfoOf(deviceUsers[j])
        {
          userList := userList + [UserInfoOf(deviceUsers[i])];
        }
        users := userList;
    }

    /** `get_device_info`: the IP doubles as serial; None without a handle. */
    function GetDeviceInfo(): (info: Option<DeviceInfo>)
      reads this
      ensures info.Some? <==> conn.Some?
      ensures info.Some? ==> info.value.serial == ip && info.value.ip == ip
    {
      if conn.None? then None else Some(DeviceInfo(ip, ip, "Unknown"))
    }

    /** The device serial the database-backed monitor stores rows under:
        the info's serial, or the IP when there is no info. Either way the IP. */
    function DeviceIdentity(): (serial: string)
      reads this
      ensures serial == ip
    {
      match GetDeviceInfo()
      case Some(info) => info.serial
      case None => ip
    }

    /** `get_attendance_logs` on a reader that already holds a handle: no
        connect, and a disconnect only when the read raises. */
    method ReadConnected(reply: AttendanceReply) returns (logs: seq<AttendanceLog>)
      requires conn.Some?
      modifies this`conn, this`calls
      ensures conn == old(conn)
      ensures logs == ReplyLogs(reply)
      ensures calls == old(calls) + ReadCalls(reply, conn.value)
    {
      logs := GetAttendanceLogs(_ => None, reply);
    }

    /** `monitor_attendance` over finitely many polls: `initial` is the
        device's answer to the first read and `replies` its answers to the
        polls. Returns the batches reported as new and the final
        `last_count`; nothing, and no I/O, without a handle. */
    method MonitorAttendance(initial: AttendanceReply, replies: seq<AttendanceReply>)
      returns (reported: seq<seq<AttendanceLog>>, lastCount: nat)
      modifies this`conn, this`calls
      ensures conn == old(conn)
      ensures conn.None? ==> reported == [] && lastCount == 0 && calls == old(calls)
      ensures conn.Some? ==> reported == Reports(|ReplyLogs(initial)|, PolledLogs(replies))
      ensures conn.Some? ==> lastCount == LastCountAfter(|ReplyLogs(initial)|, PolledLogs(replies))
      ensures conn.Some? ==>
        calls == old(calls) + ReadCalls(initial, conn.value) + PollCalls(replies, conn.value)
    {
      if conn.None? {
        return [], 0;  // "Device not connected" is raised and logged
      }
      var lastRecords := ReadConnected(initial);
      lastCount := |lastRecords|;
      reported := [];
      ghost var h := conn.value;
      ghost var start := calls;
      for i := 0 to |replies|
        invariant conn == old(conn) == Some(h)
        invariant lastCount == LastCountAfter(|ReplyLogs(initial)|, PolledLogs(replies[..i]))
        invariant reported == Reports(|ReplyLogs(initial)|, PolledLogs(replies[..i]))
        invariant calls == start + PollCalls(replies[..i], h)
      {
        PollExtends(start, replies, i, h);
        MonitorExtends(|ReplyLogs(initial)|, PolledLogs(replies[..i]), ReplyLogs(replies[i]));
        calls := calls + [Sleep(MonitorPollSeconds)];
        var currentRecords := ReadConnected(replies[i]);
        var currentCount := |currentRecords|;
        if currentCount > lastCount {
          var newRecords := currentRecords[lastCount..];
          reported := reported + [newRecords];
          lastCount := currentCount;
        }
      }
      assert replies[..|replies|] == replies;
    }

    /** One pass of `monitor_attendance_with_db`'s outer loop as written: after
        connecting, it calls `ensure_users_exist` or `has_device_records` on the
        handler, neither of which DatabaseHandler defines, so the pass ends in
        the AttributeError handler and the store is never touched. */
    method MonitorWithDbIteration(db: Db.DatabaseHandler, attempt: nat -> Option<Handle>, usersReply: UsersReply)
      returns (outcome: IterationOutcome)
      modifies this`conn, this`calls
      ensures unchanged(db)
      ensures old(conn).Some? ==> conn == old(conn)
      ensures old(conn).None? ==>
        conn == if SomeAttemptSucceeds(attempt) then attempt(FirstSuccess(attempt)) else None
      ensures outcome == ConnectFailed <==> old(conn).None? && !SomeAttemptSucceeds(attempt)
      ensures outcome.MissingStoreMethod? ==> outcome.name !in Db.HandlerMethods
      ensures outcome.MissingStoreMethod? ==>
        outcome.name == if usersReply.UserList? && usersReply.users != [] then "ensure_users_exist"
                        else "has_device_records"
      ensures calls == old(calls)
        + (if old(conn).None? then ConnectOutcomeCalls(attempt, None) else [])
        + (if outcome == ConnectFailed then [] else DisconnectCalls(conn))
        + [Sleep(ReconnectDelaySeconds)]
    {
      if conn.None? {
        var ok := Connect(attempt);
        if !ok {
          calls := calls + [Sleep(ReconnectDelaySeconds)];
          return ConnectFailed;
        }
      }
      var deviceSerial := DeviceIdentity();
      var users := GetUsers(usersReply);
      var name := if users != [] then "ensure_users_exist" else "has_device_records";
      assert name !in Db.HandlerMethods;
      // AttributeError: caught by the loop's handler
      Disconnect();
      calls := calls + [Sleep(ReconnectDelaySeconds)];
      outcome := MissingStoreMethod(name);
    }

    /** One pass of `monitor_attendance_with_db`'s polling loop, with the
        watermark `get_latest_device_timestamp` is meant to give passed in:
        wait, give up when there is no handle, read the log, and save the
        records newer than the watermark when there are any. `fault` says the
        database raises during the save. */
    method PollOnce(db: Db.DatabaseHandler, deviceSerial: string, watermark: Option<int>,
                    reply: AttendanceReply, fault: bool)
      returns (outcome: PollOutcome)
      requires db.Valid()
      modifies this`conn, this`calls, db
      ensures db.Valid()
      ensures conn == old(conn)
      ensures conn.None? ==> outcome == ConnectionLost && db.attendance == old(db.attendance)
      ensures conn.Some? ==>
        var batch := if reply.AttendanceRaises? then [] else NewerThan(Normalize(reply.records), watermark);
        && outcome == (if batch == [] then NothingNew
                       else SaveAttempted(!fault && Db.AllInsertable(Db.RowsOf(batch, deviceSerial), old(db.users))))
        && db.attendance ==
             if batch != [] && !fault && Db.AllInsertable(Db.RowsOf(batch, deviceSerial), old(db.users))
             then old(db.attendance) + Db.RowsOf(batch, deviceSerial)
             else old(db.attendance)
      ensures db.users == old(db.users)
      ensures calls == old(calls) + [Sleep(PollDelaySeconds)]
        + if conn.None? then [Sleep(ReconnectDelaySeconds)]
          else if reply.AttendanceRaises? then DisconnectCalls(conn)
          else []
    {
      calls := calls + [Sleep(PollDelaySeconds)];
      if conn.None? {
        // "Device connection lost" is raised and caught
        Disconnect();
        calls := calls + [Sleep(ReconnectDelaySeconds)];
        return ConnectionLost;
      }
      var currentRecords := GetAttendanceLogs(_ => None, reply);
      outcome := NothingNew;
      if currentRecords != [] {
        var newRecords := NewerThan(currentRecords, watermark);
        if newRecords != [] {
          var saved := db.SaveAttendance(newRecords, deviceSerial, fault);
          outcome := SaveAttempted(saved);
        }
      }
    }
  }
}
