// The older error category (utility/src/ola_error.cpp): its own `ErrorE`
// numbering, the texts its `ErrorCategory::message` renders, and its
// named error conditions. Rendering is shared with `Errors`.

module OlaErrors {
  import opened Wrappers
  import opened Wire
  import Errors

  /** `ErrorE`, in declaration order. */
  datatype ErrorE =
    | Generic | Exist | Backend | Pending | Version | State | RequestInvalid
    | AuthenticationInvalid | AuthenticationValidate | AccountInvalid
    | AccountApplicationQuota | AccountStorageQuota | AccountNoReservation
    | Storage | StorageLimit | StorageSum | StorageZip | StorageSize
    | StorageInvalid | ApplicationInvalid | ApplicationReservation
    | ApplicationSystem | Retry | ArgumentInvalid

  /** `cast`: `Generic = 1`, each later enumerator one more. */
  function Cast(e: ErrorE): (c: u32)
    ensures 1 <= c <= 24
  {
    match e
    case Generic => 1
    case Exist => 2
    case Backend => 3
    case Pending => 4
    case Version => 5
    case State => 6
    case RequestInvalid => 7
    case AuthenticationInvalid => 8
    case AuthenticationValidate => 9
    case AccountInvalid => 10
    case AccountApplicationQuota => 11
    case AccountStorageQuota => 12
    case AccountNoReservation => 13
    case Storage => 14
    case StorageLimit => 15
    case StorageSum => 16
    case StorageZip => 17
    case StorageSize => 18
    case StorageInvalid => 19
    case ApplicationInvalid => 20
    case ApplicationReservation => 21
    case ApplicationSystem => 22
    case Retry => 23
    case ArgumentInvalid => 24
  }

  /** The `case cast(E):` label `ev` matches, if any. */
  function FromCode(ev: int): (r: Option<ErrorE>)
    ensures r.Some? <==> 1 <= ev <= 24
  {
    if ev == 1 then Some(Generic)
    else if ev == 2 then Some(Exist)
    else if ev == 3 then Some(Backend)
    else if ev == 4 then Some(Pending)
    else if ev == 5 then Some(Version)
    else if ev == 6 then Some(State)
    else if ev == 7 then Some(RequestInvalid)
    else if ev == 8 then Some(AuthenticationInvalid)
    else if ev == 9 then Some(AuthenticationValidate)
    else if ev == 10 then Some(AccountInvalid)
    else if ev == 11 then Some(AccountApplicationQuota)
    else if ev == 12 then Some(AccountStorageQuota)
    else if ev == 13 then Some(AccountNoReservation)
    else if ev == 14 then Some(Storage)
    else if ev == 15 then Some(StorageLimit)
    else if ev == 16 then Some(StorageSum)
    else if ev == 17 then Some(StorageZip)
    else if ev == 18 then Some(StorageSize)
    else if ev == 19 then Some(StorageInvalid)
    else if ev == 20 then Some(ApplicationInvalid)
    else if ev == 21 then Some(ApplicationReservation)
    else if ev == 22 then Some(ApplicationSystem)
    else if ev == 23 then Some(Retry)
    else if ev == 24 then Some(ArgumentInvalid)
    else None
  }

  /**
   * Codes are consecutive from `Generic = 1` to `ArgumentInvalid = 24`:
   * the `case` labels 1 to 24 are exactly the enumerators' casts.
   */
  lemma CodesConsecutive(e: ErrorE, ev: int)
    ensures 1 <= Cast(e) <= 24 && FromCode(Cast(e) as int) == Some(e)
    ensures FromCode(ev).Some? <==> 1 <= ev <= 24
    ensures FromCode(ev).Some? ==> Cast(FromCode(ev).value) as int == ev
  {
    CastIsLabel(e);
    LabelIsCast(ev);
  }

  lemma CastIsLabel(e: ErrorE)
    ensures 1 <= Cast(e) <= 24 && FromCode(Cast(e) as int) == Some(e)
  {
  }

  lemma LabelIsCast(ev: int)
    ensures FromCode(ev).Some? <==> 1 <= ev <= 24
    ensures FromCode(ev).Some? ==> Cast(FromCode(ev).value) as int == ev
  {
  }

  /** The text of each enumerator's `case`. */
  function EnumText(e: ErrorE): (t: string)
    ensures t != "Success" && t != "Unknown"
  {
    match e
    case Generic => "Generic"
    case Exist => "Exist"
    case Backend => "Backend unavailable"
    case Pending => "Operation pending"
    case Version => "Version mismatch"
    case State => "Invalid state"
    case RequestInvalid => "Request Invalid"
    case AuthenticationInvalid => "Authentication Invalid"
    case AuthenticationValidate => "Authentication Validate Required"
    case AccountInvalid => "Account: Invalid"
    case AccountApplicationQuota => "Account: Application count quota exceeded"
    case AccountStorageQuota => "Account: Storage quota exceeded"
    case AccountNoReservation => "Account: No reservation"
    case Storage => "Storage"
    case StorageLimit => "Storage: Limit"
    case StorageSum => "Storage: Sum"
    case StorageZip => "Storage: Zip"
    case StorageSize => "Storage: Size"
    case StorageInvalid => "Storage: Invalid"
    case ApplicationInvalid => "Application: Invalid"
    case ApplicationReservation => "Application: Reservation"
    case ApplicationSystem => "Application: System"
    case Retry => "Retry"
    case ArgumentInvalid => "Argument Invalid"
  }

  /** The text the `switch` of `ErrorCategory::message` selects. */
  function Text(ev: int): (t: string)
    ensures t == "Success" <==> ev == 0
    ensures t == "Unknown" <==> (ev < 0 || ev > 24)
  {
    if ev == 0 then "Success"
    else match FromCode(ev)
      case Some(e) => EnumText(e)
      case None => "Unknown"
  }

  /** `ErrorCategory::name`. */
  const Name: string := "solid::frame::mprpc"

  /** `ErrorCategory::message`. */
  function Message(ev: int): (m: string)
    ensures "(solid::frame::mprpc:" <= m
    ensures |Text(ev)| <= |m| && m[|m| - |Text(ev)|..] == Text(ev)
  {
    var t := Text(ev);
    var m := Errors.Render(Name, ev, t);
    NamePrefix();
    assert m == "(solid::frame::mprpc:" + (Errors.Decimal(ev) + "): " + t);
    m
  }

  /** Success, the enumerators' texts, and "Unknown" for every other code. */
  lemma TextCases(ev: int, e: ErrorE)
    ensures ev == 0 ==> Text(ev) == "Success"
    ensures (ev < 0 || ev > 24) ==> Text(ev) == "Unknown"
    ensures Text(Cast(e) as int) == EnumText(e)
  {
    CodesConsecutive(e, ev);
  }

  /** The texts of codes 0 to 24 are pairwise distinct, and none is "Unknown". */
  lemma TextsDistinct(a: int, b: int)
    requires 0 <= a <= 24 && 0 <= b <= 24
    ensures Text(a) == Text(b) ==> a == b
    ensures Text(a) != "Unknown"
  {
    CodeOfTextInverts(a);
    CodeOfTextInverts(b);
  }

  /**
   * Proof device, not part of the category: the code whose text is `t`,
   * read off its length and, where two texts share a length, one character.
   * It shows the texts are distinct.
   */
  function CodeOfText(t: string): int {
    if |t| == 5 then if t[0] == 'E' then 2 else 23
    else if |t| == 7 then if t[1] == 'u' then 0 else if t[1] == 'e' then 1 else 14
    else if |t| == 12 then if t[9] == 'S' then 16 else 17
    else if |t| == 13 then if t[0] == 'I' then 6 else 18
    else if |t| == 14 then 15
    else if |t| == 15 then 7
    else if |t| == 16 then if t[1] == 'e' then 5 else if t[1] == 'c' then 10 else if t[1] == 't' then 19 else 24
    else if |t| == 17 then 4
    else if |t| == 19 then if t[0] == 'B' then 3 else 22
    else if |t| == 20 then 20
    else if |t| == 22 then 8
    else if |t| == 23 then 13
    else if |t| == 24 then 21
    else if |t| == 31 then 12
    else if |t| == 32 then 9
    else if |t| == 41 then 11
    else -1
  }

  lemma CodeOfTextInverts(a: int)
    requires 0 <= a <= 24
    ensures CodeOfText(Text(a)) == a
  {
    if a != 0 {
      LabelIsCast(a);
      CodeOfEnumText(FromCode(a).value);
    }
  }

  lemma CodeOfEnumText(e: ErrorE)
    ensures CodeOfText(EnumText(e)) == Cast(e) as int
  {
  }

  /** The message is prefixed by category and decimal code, and determines the code. */
  lemma MessageShape(ev: int, other: int)
    ensures Message(ev) == "(solid::frame::mprpc:" + Errors.Decimal(ev) + "): " + Text(ev)
    ensures Errors.DecimalValue(Errors.Decimal(ev)) == ev
    ensures Message(ev) == Message(other) ==> ev == other
  {
    NamePrefix();
    assert Message(ev) == "(" + Name + ":" + Errors.Decimal(ev) + "): " + Text(ev);
    Errors.DecimalRoundTrip(ev);
    if Message(ev) == Message(other) {
      Errors.RenderInjective(Name, ev, Text(ev), other, Text(other));
    }
  }

  lemma NamePrefix()
    ensures "(" + Name + ":" == "(solid::frame::mprpc:"
  {
  }

  /**
   * `make_error`: a condition of this category whose value is `err`
   * narrowed to `int`, so codes from 2^31 up become negative.
   */
  function MakeError(err: u32): (c: Errors.Condition)
    ensures c.category == "solid::frame::mprpc"
    ensures -0x8000_0000 <= c.value < 0x8000_0000 && c.value % 0x1_0000_0000 == err
    ensures err < 0x8000_0000 ==> c.value == err
    ensures c != Errors.MakeError(err)
  {
    Errors.Condition(Errors.AsInt32(err), Name)
  }

  /**
   * A response's default `error_`, `uint32_t(-1)`, made into a condition of
   * this category is the code -1, which renders as "Unknown".
   */
  lemma DefaultErrorIsMinusOne()
    ensures MakeError(U32_MAX).value == -1
    ensures Message(MakeError(U32_MAX).value) == "(solid::frame::mprpc:-1): Unknown"
  {
    assert Errors.Decimal(-1) == "-1";
    NamePrefix();
  }

  /** The name of each enumerator's constant; every enumerator has one. */
  function ConstantName(e: ErrorE): string {
    match e
    case Generic => "error_generic"
    case Exist => "error_exist"
    case Retry => "error_retry"
    case Backend => "error_backend"
    case Pending => "error_pending"
    case Version => "error_version"
    case State => "error_state"
    case RequestInvalid => "error_request_invalid"
    case AuthenticationInvalid => "error_authentication_invalid"
    case AuthenticationValidate => "error_authentication_validate"
    case ArgumentInvalid => "error_argument_invalid"
    case AccountInvalid => "error_account_invalid"
    case AccountApplicationQuota => "error_account_application_quota"
    case AccountStorageQuota => "error_account_storage_quota"
    case AccountNoReservation => "error_account_no_reservation"
    case Storage => "error_storage"
    case StorageLimit => "error_storage_limit"
    case StorageSum => "error_storage_sum"
    case StorageZip => "error_storage_zip"
    case StorageSize => "error_storage_size"
    case StorageInvalid => "error_storage_invalid"
    case ApplicationInvalid => "error_application_invalid"
    case ApplicationReservation => "error_application_reservation"
    case ApplicationSystem => "error_application_system"
  }

  /** Each constant is built directly as `ErrorConditionT(cast(E), category)`. */
  function Constant(e: ErrorE): (c: Errors.Condition)
    ensures c == MakeError(Cast(e)) && 1 <= c.value <= 24
  {
    Errors.Condition(Cast(e) as int, Name)
  }

  /**
   * Every named constant equals `make_error(cast(E))` for its enumerator;
   * distinct enumerators give distinct conditions, none of them success,
   * and each renders its enumerator's text.
   */
  lemma NamedConstants(e: ErrorE, f: ErrorE)
    ensures Constant(e) == MakeError(Cast(e))
    ensures Constant(e) == Constant(f) ==> e == f
    ensures Constant(e).value != 0
    ensures Text(Constant(e).value as int) == EnumText(e)
  {
    CastIsLabel(e);
    CastIsLabel(f);
    ConstantText(e);
  }

  lemma ConstantText(e: ErrorE)
    requires FromCode(Cast(e) as int) == Some(e)
    ensures Text(Constant(e).value as int) == EnumText(e)
  {
  }

  /** The two categories differ in name, so their conditions never compare equal. */
  lemma CategoriesDiffer(e: ErrorE, f: Errors.ErrorE)
    ensures Constant(e) != Errors.Constant(f)
  {
  }
}
