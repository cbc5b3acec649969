// The error category of myapps::utility (utility/src/error.cpp): the
// numbering of `ErrorE`, the texts `ErrorCategory::message` renders, and
// the named error conditions.

module Errors {
  import opened Wrappers
  import opened Wire

  // ---------------------------------------------------------------------
  // Rendering shared by both error categories
  // ---------------------------------------------------------------------

  /** The decimal digits of a natural number, as `operator<<` prints it. */
  function Digits(n: nat): (s: string)
    ensures |s| > 0
    ensures forall j :: 0 <= j < |s| ==> '0' <= s[j] <= '9'
    decreases n
  {
    if n < 10 then [(48 + n) as char] else Digits(n / 10) + [(48 + n % 10) as char]
  }

  /** An `int` inserted into an `ostream`: a '-' sign, then the digits. */
  function Decimal(n: int): (s: string)
    ensures |s| > 0 && ')' !in s
  {
    if n < 0 then "-" + Digits(-n) else Digits(n)
  }

  /** The value a string of decimal digits stands for. */
  function DigitsValue(s: string): int
    decreases |s|
  {
    if |s| == 0 then 0 else DigitsValue(s[..|s| - 1]) * 10 + (s[|s| - 1] as int - 48)
  }

  /** The value of an optionally signed decimal string. */
  function DecimalValue(s: string): int {
    if |s| > 0 && s[0] == '-' then -DigitsValue(s[1..]) else DigitsValue(s)
  }

  lemma {:induction false} DigitsRoundTrip(n: nat)
    ensures DigitsValue(Digits(n)) == n
    decreases n
  {
    if n >= 10 {
      DigitsRoundTrip(n / 10);
      var s := Digits(n);
      assert s[..|s| - 1] == Digits(n / 10);
    }
  }

  /** Printing then reading a decimal gives the number back. */
  lemma DecimalRoundTrip(n: int)
    ensures DecimalValue(Decimal(n)) == n
  {
    if n < 0 {
      DigitsRoundTrip(-n);
      assert ("-" + Digits(-n))[1..] == Digits(-n);
    } else {
      DigitsRoundTrip(n);
    }
  }

  /** `"(" << name() << ":" << _ev << "): "` followed by the code's text. */
  function Render(name: string, ev: int, text: string): string {
    "(" + name + ":" + Decimal(ev) + "): " + text
  }

  /** The part of `s` before the first `c`. */
  function Before(s: string, c: char): string
    decreases |s|
  {
    if |s| == 0 || s[0] == c then "" else [s[0]] + Before(s[1..], c)
  }

  lemma {:induction false} BeforeAppend(x: string, c: char, y: string)
    requires c !in x
    ensures Before(x + [c] + y, c) == x
    decreases |x|
  {
    if |x| > 0 {
      assert (x + [c] + y)[1..] == x[1..] + [c] + y;
      BeforeAppend(x[1..], c, y);
    }
  }

  lemma RenderSplit(name: string, ev: int, t: string)
    ensures Render(name, ev, t) == ("(" + name + ":") + (Decimal(ev) + [')'] + (": " + t))
  {
    var d := Decimal(ev);
    assert "): " + t == [')'] + (": " + t);
  }
  /** A rendered message determines both the code and the text. */
  lemma RenderInjective(name: string, a: int, ta: string, b: int, tb: string)
    requires Render(name, a, ta) == Render(name, b, tb)
    ensures a == b && ta == tb
  {
    var p := "(" + name + ":";
    RenderSplit(name, a, ta);
    RenderSplit(name, b, tb);
    var ra := Decimal(a) + [')'] + (": " + ta);
    var rb := Decimal(b) + [')'] + (": " + tb);
    assert p + ra == p + rb;
    assert ra == (p + ra)[|p|..];
    assert rb == (p + rb)[|p|..];
    BeforeAppend(Decimal(a), ')', ": " + ta);
    BeforeAppend(Decimal(b), ')', ": " + tb);
    assert Decimal(a) == Decimal(b);
    DecimalRoundTrip(a);
    DecimalRoundTrip(b);
    assert ta == ra[|Decimal(a)| + 3..];
    assert tb == rb[|Decimal(b)| + 3..];
  }

  // ---------------------------------------------------------------------
  // The myapps::common category
  // ---------------------------------------------------------------------

  /** `ErrorE`, in declaration order. */
  datatype ErrorE =
    | Generic | Exist | Backend | Pending | Version | State | RequestInvalid
    | AuthenticationInvalid | AuthenticationValidate | AuthenticationLocked
    | AuthenticationWait | AuthenticationRelogin | AuthenticationDemo
    | AuthenticationDemoInvalid | AuthenticationConnectionCount
    | AccountInvalid | AccountApplicationQuota | AccountStorageQuota
    | AccountNoReservation | Storage | StorageLimit | StorageSum | StorageZip
    | StorageSize | StorageInvalid | ApplicationInvalid | ApplicationReservation
    | ApplicationSystem | Retry | ArgumentInvalid | RequestCount

  /** `cast`: `Generic = 1`, each later enumerator one more. */
  function Cast(e: ErrorE): (c: u32)
    ensures 1 <= c <= 31
  {
    match e
    case Generic => 1
    case Exist => 2
    case Backend => 3
    case Pending => 4
    case Version => 5
    case State => 6
    case RequestInvalid => 7
    case AuthenticationInvalid => 8
    case AuthenticationValidate => 9
    case AuthenticationLocked => 10
    case AuthenticationWait => 11
    case AuthenticationRelogin => 12
    case AuthenticationDemo => 13
    case AuthenticationDemoInvalid => 14
    case AuthenticationConnectionCount => 15
    case AccountInvalid => 16
    case AccountApplicationQuota => 17
    case AccountStorageQuota => 18
    case AccountNoReservation => 19
    case Storage => 20
    case StorageLimit => 21
    case StorageSum => 22
    case StorageZip => 23
    case StorageSize => 24
    case StorageInvalid => 25
    case ApplicationInvalid => 26
    case ApplicationReservation => 27
    case ApplicationSystem => 28
    case Retry => 29
    case ArgumentInvalid => 30
    case RequestCount => 31
  }

  /** The `case cast(E):` label `ev` matches, if any. */
  function FromCode(ev: int): (r: Option<ErrorE>)
    ensures r.Some? <==> 1 <= ev <= 31
  {
    if ev == 1 then Some(Generic)
    else if ev == 2 then Some(Exist)
    else if ev == 3 then Some(Backend)
    else if ev == 4 then Some(Pending)
    else if ev == 5 then Some(Version)
    else if ev == 6 then Some(State)
    else if ev == 7 then Some(RequestInvalid)
    else if ev == 8 then Some(AuthenticationInvalid)
    else if ev == 9 then Some(AuthenticationValidate)
    else if ev == 10 then Some(AuthenticationLocked)
    else if ev == 11 then Some(AuthenticationWait)
    else if ev == 12 then Some(AuthenticationRelogin)
    else if ev == 13 then Some(AuthenticationDemo)
    else if ev == 14 then Some(AuthenticationDemoInvalid)
    else if ev == 15 then Some(AuthenticationConnectionCount)
    else if ev == 16 then Some(AccountInvalid)
    else if ev == 17 then Some(AccountApplicationQuota)
    else if ev == 18 then Some(AccountStorageQuota)
    else if ev == 19 then Some(AccountNoReservation)
    else if ev == 20 then Some(Storage)
    else if ev == 21 then Some(StorageLimit)
    else if ev == 22 then Some(StorageSum)
    else if ev == 23 then Some(StorageZip)
    else if ev == 24 then Some(StorageSize)
    else if ev == 25 then Some(StorageInvalid)
    else if ev == 26 then Some(ApplicationInvalid)
    else if ev == 27 then Some(ApplicationReservation)
    else if ev == 28 then Some(ApplicationSystem)
    else if ev == 29 then Some(Retry)
    else if ev == 30 then Some(ArgumentInvalid)
    else if ev == 31 then Some(RequestCount)
    else None
  }

  /**
   * Codes are consecutive from `Generic = 1` to `RequestCount = 31`:
   * the `case` labels 1 to 31 are exactly the enumerators' casts.
   */
  lemma CodesConsecutive(e: ErrorE, ev: int)
    ensures 1 <= Cast(e) <= 31 && FromCode(Cast(e) as int) == Some(e)
    ensures FromCode(ev).Some? <==> 1 <= ev <= 31
    ensures FromCode(ev).Some? ==> Cast(FromCode(ev).value) as int == ev
  {
    CastIsLabel(e);
    LabelIsCast(ev);
  }

  lemma CastIsLabel(e: ErrorE)
    ensures 1 <= Cast(e) <= 31 && FromCode(Cast(e) as int) == Some(e)
  {
  }

  lemma LabelIsCast(ev: int)
    ensures FromCode(ev).Some? <==> 1 <= ev <= 31
    ensures FromCode(ev).Some? ==> Cast(FromCode(ev).value) as int == ev
  {
  }

  /** The text of each enumerator's `case`. */
  function EnumText(e: ErrorE): (t: string)
    ensures t != "Success" && t != "Unknown"
  {
    match e
    case Generic => "Generic"
    case Exist => "Exist"
    case Backend => "Backend unavailable"
    case Pending => "Operation pending"
    case Version => "Version mismatch"
    case State => "Invalid state"
    case RequestInvalid => "Request Invalid"
    case AuthenticationInvalid => "Authentication: Invalid"
    case AuthenticationValidate => "Authentication: Validate Required"
    case AuthenticationLocked => "Authentication: Locked"
    case AuthenticationWait => "Authentication: Wait"
    case AuthenticationRelogin => "Authentication: Relogin"
    case AuthenticationDemo => "Authentication: No demo slot available"
    case AuthenticationDemoInvalid => "Authentication: Demo not supported"
    case AuthenticationConnectionCount => " Authentication: Connection Count"
    case AccountInvalid => "Account: Invalid"
    case AccountApplicationQuota => "Account: Application count quota exceeded"
    case AccountStorageQuota => "Account: Storage quota exceeded"
    case AccountNoReservation => "Account: No reservation"
    case Storage => "Storage"
    case StorageLimit => "Storage: Limit"
    case StorageSum => "Storage: Sum"
    case StorageZip => "Storage: Zip"
    case StorageSize => "Storage: Size"
    case StorageInvalid => "Storage: Invalid"
    case ApplicationInvalid => "Application: Invalid"
    case ApplicationReservation => "Application: Reservation"
    case ApplicationSystem => "Application: System"
    case Retry => "Retry"
    case ArgumentInvalid => "Invalid Argument"
    case RequestCount => "Request Count"
  }

  /** The text the `switch` of `ErrorCategory::message` selects. */
  function Text(ev: int): (t: string)
    ensures t == "Success" <==> ev == 0
    ensures t == "Unknown" <==> (ev < 0 || ev > 31)
  {
    if ev == 0 then "Success"
    else match FromCode(ev)
      case Some(e) => EnumText(e)
      case None => "Unknown"
  }

  /** `ErrorCategory::name`. */
  const Name: string := "myapps::common"

  /** `ErrorCategory::message`. */
  function Message(ev: int): (m: string)
    ensures "(myapps::common:" <= m
    ensures |Text(ev)| <= |m| && m[|m| - |Text(ev)|..] == Text(ev)
  {
    var t := Text(ev);
    var m := Render(Name, ev, t);
    NamePrefix();
    assert m == "(myapps::common:" + (Decimal(ev) + "): " + t);
    m
  }

  /** Success, the enumerators' texts, and "Unknown" for every other code. */
  lemma TextCases(ev: int, e: ErrorE)
    ensures ev == 0 ==> Text(ev) == "Success"
    ensures (ev < 0 || ev > 31) ==> Text(ev) == "Unknown"
    ensures Text(Cast(e) as int) == EnumText(e)
    ensures Text(15) == " Authentication: Connection Count" && Text(15)[0] == ' '
  {
    CodesConsecutive(e, ev);
  }

  /** The texts of codes 0 to 31 are pairwise distinct, and none is "Unknown". */
  lemma TextsDistinct(a: int, b: int)
    requires 0 <= a <= 31 && 0 <= b <= 31
    ensures Text(a) == Text(b) ==> a == b
    ensures Text(a) != "Unknown"
  {
    CodeOfTextInverts(a);
    CodeOfTextInverts(b);
  }

  /**
   * Proof device, not part of the category: the code whose text is `t`,
   * read off its length and, where two texts share a length, one character.
   * It shows the texts are distinct.
   */
  function CodeOfText(t: string): int {
    if |t| == 5 then if t[0] == 'E' then 2 else 29
    else if |t| == 7 then if t[1] == 'u' then 0 else if t[1] == 'e' then 1 else 20
    else if |t| == 12 then if t[9] == 'S' then 22 else 23
    else if |t| == 13 then if t[0] == 'I' then 6 else if t[0] == 'S' then 24 else 31
    else if |t| == 14 then 21
    else if |t| == 15 then 7
    else if |t| == 16 then if t[0] == 'V' then 5 else if t[0] == 'A' then 16 else if t[0] == 'S' then 25 else 30
    else if |t| == 17 then 4
    else if |t| == 19 then if t[0] == 'B' then 3 else 28
    else if |t| == 20 then if t[1] == 'u' then 11 else 26
    else if |t| == 22 then 10
    else if |t| == 23 then if t[16] == 'I' then 8 else if t[16] == 'R' then 12 else 19
    else if |t| == 24 then 27
    else if |t| == 31 then 18
    else if |t| == 33 then if t[0] == 'A' then 9 else 15
    else if |t| == 34 then 14
    else if |t| == 38 then 13
    else if |t| == 41 then 17
    else -1
  }

  lemma CodeOfTextInverts(a: int)
    requires 0 <= a <= 31
    ensures CodeOfText(Text(a)) == a
  {
    if a != 0 {
      LabelIsCast(a);
      CodeOfEnumText(FromCode(a).value);
    }
  }

  /** Each enumerator's text is mapped back to its code (split into four groups of enumerators). */
  lemma CodeOfEnumText(e: ErrorE)
    ensures CodeOfText(EnumText(e)) == Cast(e) as int
  {
    if e.Generic? || e.Exist? || e.Backend? || e.Pending? || e.Version? || e.State? || e.RequestInvalid? || e.AuthenticationInvalid? || e.AuthenticationValidate? || e.AuthenticationLocked? || e.AuthenticationWait? {
      CodeOfEnumTextA(e);
    } else if e.AuthenticationRelogin? || e.AuthenticationDemo? || e.AuthenticationDemoInvalid? || e.AuthenticationConnectionCount? || e.AccountInvalid? || e.AccountApplicationQuota? || e.AccountStorageQuota? {
      CodeOfEnumTextB(e);
    } else if e.AccountNoReservation? || e.Storage? || e.StorageLimit? || e.StorageSum? || e.StorageZip? || e.StorageSize? || e.StorageInvalid? {
      CodeOfEnumTextC(e);
    } else {
      CodeOfEnumTextD(e);
    }
  }

  lemma CodeOfEnumTextA(e: ErrorE)
    requires e.Generic? || e.Exist? || e.Backend? || e.Pending? || e.Version? || e.State? || e.RequestInvalid? || e.AuthenticationInvalid? || e.AuthenticationValidate? || e.AuthenticationLocked? || e.AuthenticationWait?
    ensures CodeOfText(EnumText(e)) == Cast(e) as int
  {
  }

  lemma CodeOfEnumTextB(e: ErrorE)
    requires e.AuthenticationRelogin? || e.AuthenticationDemo? || e.AuthenticationDemoInvalid? || e.AuthenticationConnectionCount? || e.AccountInvalid? || e.AccountApplicationQuota? || e.AccountStorageQuota?
    ensures CodeOfText(EnumText(e)) == Cast(e) as int
  {
  }

  lemma CodeOfEnumTextC(e: ErrorE)
    requires e.AccountNoReservation? || e.Storage? || e.StorageLimit? || e.StorageSum? || e.StorageZip? || e.StorageSize? || e.StorageInvalid?
    ensures CodeOfText(EnumText(e)) == Cast(e) as int
  {
  }

  lemma CodeOfEnumTextD(e: ErrorE)
    requires e.ApplicationInvalid? || e.ApplicationReservation? || e.ApplicationSystem? || e.Retry? || e.ArgumentInvalid? || e.RequestCount?
    ensures CodeOfText(EnumText(e)) == Cast(e) as int
  {
  }

  /** The message is prefixed by category and decimal code, and determines the code. */
  lemma MessageShape(ev: int, other: int)
    ensures Message(ev) == "(myapps::common:" + Decimal(ev) + "): " + Text(ev)
    ensures DecimalValue(Decimal(ev)) == ev
    ensures Message(ev) == Message(other) ==> ev == other
  {
    NamePrefix();
    assert Message(ev) == "(" + Name + ":" + Decimal(ev) + "): " + Text(ev);
    DecimalRoundTrip(ev);
    if Message(ev) == Message(other) {
      RenderInjective(Name, ev, Text(ev), other, Text(other));
    }
  }

  lemma NamePrefix()
    ensures "(" + Name + ":" == "(myapps::common:"
  {
  }

  // ---------------------------------------------------------------------
  // Error conditions
  // ---------------------------------------------------------------------

  /** A `solid::ErrorConditionT`: an `int` value and the name of its category. */
  datatype Condition = Condition(value: int, category: string)

  /**
   * A `uint32_t` converted to the condition's `int`: the value congruent to
   * it modulo 2^32 in the 32-bit two's-complement range.
   */
  function AsInt32(n: u32): (v: int)
    ensures -0x8000_0000 <= v < 0x8000_0000 && v % 0x1_0000_0000 == n
  {
    if n < 0x8000_0000 then n else n - 0x1_0000_0000
  }

  /**
   * `make_error`: a condition of this category whose value is `err` narrowed
   * to `int`, so codes from 2^31 up become negative.
   */
  function MakeError(err: u32): (c: Condition)
    ensures c.category == "myapps::common"
    ensures -0x8000_0000 <= c.value < 0x8000_0000 && c.value % 0x1_0000_0000 == err
    ensures err < 0x8000_0000 ==> c.value == err
  {
    Condition(AsInt32(err), Name)
  }

  /**
   * A response's default `error_`, `uint32_t(-1)`, made into a condition is
   * the code -1, which renders as "Unknown".
   */
  lemma DefaultErrorIsMinusOne()
    ensures MakeError(U32_MAX).value == -1
    ensures Message(MakeError(U32_MAX).value) == "(myapps::common:-1): Unknown"
  {
    assert Decimal(-1) == "-1";
    NamePrefix();
  }

  /** The name of each enumerator's constant; every enumerator has one. */
  function ConstantName(e: ErrorE): string {
    match e
    case Generic => "error_generic"
    case Exist => "error_exist"
    case Retry => "error_retry"
    case Backend => "error_backend"
    case Pending => "error_pending"
    case Version => "error_version"
    case State => "error_state"
    case RequestCount => "error_request_count"
    case RequestInvalid => "error_request_invalid"
    case AuthenticationInvalid => "error_authentication_invalid"
    case AuthenticationValidate => "error_authentication_validate"
    case AuthenticationLocked => "error_authentication_locked"
    case AuthenticationWait => "error_authentication_wait"
    case AuthenticationRelogin => "error_authentication_relogin"
    case AuthenticationDemo => "error_authentication_demo"
    case AuthenticationDemoInvalid => "error_authentication_demo_invalid"
    case AuthenticationConnectionCount => "error_authentication_connection_count"
    case ArgumentInvalid => "error_argument_invalid"
    case AccountInvalid => "error_account_invalid"
    case AccountApplicationQuota => "error_account_application_quota"
    case AccountStorageQuota => "error_account_storage_quota"
    case AccountNoReservation => "error_account_no_reservation"
    case Storage => "error_storage"
    case StorageLimit => "error_storage_limit"
    case StorageSum => "error_storage_sum"
    case StorageZip => "error_storage_zip"
    case StorageSize => "error_storage_size"
    case StorageInvalid => "error_storage_invalid"
    case ApplicationInvalid => "error_application_invalid"
    case ApplicationReservation => "error_application_reservation"
    case ApplicationSystem => "error_application_system"
  }

  /** Each constant is built directly as `ErrorConditionT(cast(E), category)`. */
  function Constant(e: ErrorE): (c: Condition)
    ensures c == MakeError(Cast(e)) && 1 <= c.value <= 31
  {
    Condition(Cast(e) as int, Name)
  }

  /**
   * Every named constant equals `make_error(cast(E))` for its enumerator;
   * distinct enumerators give distinct conditions, none of them success,
   * and each renders its enumerator's text.
   */
  lemma NamedConstants(e: ErrorE, f: ErrorE)
    ensures Constant(e) == MakeError(Cast(e))
    ensures Constant(e) == Constant(f) ==> e == f
    ensures Constant(e).value != 0
    ensures Text(Constant(e).value as int) == EnumText(e)
  {
    CastIsLabel(e);
    CastIsLabel(f);
    ConstantText(e);
  }

  lemma ConstantText(e: ErrorE)
    requires FromCode(Cast(e) as int) == Some(e)
    ensures Text(Constant(e).value as int) == EnumText(e)
  {
  }
}
