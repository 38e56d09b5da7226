/** The dictionaries the device reader hands to the store, the raw objects the
    device protocol library returns, and Python's `str()` on a device user id. */
module Records {
  import opened Common

  /** A device-reported user id before `str()`: the protocol library may hand
      back text, an integer, or Python's None. */
  datatype DeviceValue = Text(s: string) | Number(n: int) | Null

  /** A raw attendance object from the protocol library. An attribute the
      object lacks is `None` here; reading `user_id` or `timestamp` from an
      object that lacks it raises AttributeError. A `user_id` attribute that is
      present but holds Python's None is `Some(Null)`. Device datetimes are
      integers: only their order is used. */
  datatype RawAttendance = RawAttendance(
    userId: Option<DeviceValue>,
    timestamp: Option<int>,
    punch: Option<int>,
    status: Option<int>)

  /** The dict `get_attendance_logs` builds per record:
      user_id, timestamp, punch, status. */
  datatype AttendanceLog = AttendanceLog(
    userId: string,
    timestamp: int,
    punch: Option<int>,
    status: Option<int>)

  /** A raw user object from the protocol library, with every attribute it carries. */
  datatype DeviceUser = DeviceUser(
    uid: int,
    userId: string,
    name: string,
    privilege: int,
    password: string,
    groupId: string,
    card: int)

  /** The dict `get_users` builds per user: user_id, name, privilege, card. */
  datatype UserInfo = UserInfo(userId: string, name: string, privilege: int, card: int)

  // ---------------------------------------------------------------------------
  // Python's str() on a device user id

  function DigitChar(d: nat): char
    requires d < 10
  {
    "0123456789"[d]
  }

  predicate IsDigit(c: char)
  {
    '0' <= c <= '9'
  }

  /** The decimal digits of `n`, most significant first, without leading zeros. */
  function Digits(n: nat): (s: string)
    ensures s != [] && forall i :: 0 <= i < |s| ==> IsDigit(s[i])
  {
    if n < 10 then [DigitChar(n)] else Digits(n / 10) + [DigitChar(n % 10)]
  }

  /** `str(v)`: text is kept as is, an integer is written in decimal with a
      leading '-' when negative, and None becomes the text "None". */
  function Str(v: DeviceValue): string
  {
    match v
    case Text(s) => s
    case Number(n) => if n < 0 then "-" + Digits(-n) else Digits(n)
    case Null => "None"
  }

  /** The value of a string of decimal digits. */
  function DigitsValue(s: string): nat
    requires forall i :: 0 <= i < |s| ==> IsDigit(s[i])
  {
    if s == [] then 0
    else
      assert IsDigit(s[|s| - 1]);
      DigitsValue(s[..|s| - 1]) * 10 + (s[|s| - 1] as int - '0' as int)
  }

  /** Python's `int(s)` restricted to what `Str` produces: an optional '-'
      followed by decimal digits. */
  function ParseInt(s: string): Option<int>
  {
    if |s| > 1 && s[0] == '-' && forall i :: 1 <= i < |s| ==> IsDigit(s[i]) then
      Some(0 - DigitsValue(s[1..]) as int)
    else if s != [] && forall i :: 0 <= i < |s| ==> IsDigit(s[i]) then
      Some(DigitsValue(s))
    else
      None
  }

  lemma {:induction false} DigitsRoundTrip(n: nat)
    ensures DigitsValue(Digits(n)) == n
  {
    var s := Digits(n);
    if n >= 10 {
      DigitsRoundTrip(n / 10);
      assert s[..|s| - 1] == Digits(n / 10);
    }
  }

  /** A '-' followed by the digits of `m` parses to `-m`. */
  lemma ParseNegative(d: string, m: nat)
    requires d != [] && forall i :: 0 <= i < |d| ==> IsDigit(d[i])
    requires DigitsValue(d) == m
    ensures ParseInt("-" + d) == Some(0 - m as int)
  {
    var s := "-" + d;
    assert s[1..] == d;
    assert forall i :: 1 <= i < |s| ==> s[i] == d[i - 1];
  }

  /** The digits of `m` parse to `m`. */
  lemma ParseDigits(d: string, m: nat)
    requires d != [] && forall i :: 0 <= i < |d| ==> IsDigit(d[i])
    requires DigitsValue(d) == m
    ensures ParseInt(d) == Some(m)
  {
    assert IsDigit(d[0]);
  }

  /** `str()` of an integer user id parses back to the same integer. */
  lemma StrNumberRoundTrip(n: int)
    ensures ParseInt(Str(Number(n))) == Some(n)
  {
    if n < 0 {
      DigitsRoundTrip(-n);
      ParseNegative(Digits(-n), -n);
    } else {
      DigitsRoundTrip(n);
      ParseDigits(Digits(n), n);
    }
  }

  /** Distinct integer user ids stay distinct once converted to text, so two
      attendance records with different integer ids never carry the same
      `user_id` text. */
  lemma StrNumberInjective(m: int, n: int)
    requires Str(Number(m)) == Str(Number(n))
    ensures m == n
  {
    StrNumberRoundTrip(m);
    StrNumberRoundTrip(n);
  }
}
