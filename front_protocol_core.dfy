/**
 * The core protocol family of the `myapps::front` protocol
 * (front_protocol_core.hpp): the per-connection `Version` record, the core
 * messages and their registration.
 */
module FrontCore {
  import opened Wrappers
  import opened Wire
  import opened Registry
  import opened Reflect

  const ProtocolId: u8 := 0

  /** The static members of `Version`: the version this build speaks. */
  const VERSION: u32 := 1
  const AUTH_REQUEST: u32 := 1
  const AUTH_RESPONSE: u32 := 1
  const INIT_RESPONSE: u32 := 1
  const RESPONSE: u32 := 1

  /** The data members of a `Version`. */
  datatype VersionFields = VersionFields(
    version_: u32, auth_request_: u32, auth_response_: u32, init_response_: u32, response_: u32)
  {
    /**
     * `operator<=` as written: its second term compares the static
     * `auth_request` constant, not this record's `auth_request_`.
     */
    predicate LessEq(that: VersionFields)
    {
      && version_ <= that.version_
      && AUTH_REQUEST <= that.auth_request_
      && auth_response_ <= that.auth_response_
      && init_response_ <= that.init_response_
      && response_ <= that.response_
    }

    /** What `clear()` leaves: three counters poisoned, `version_` and `init_response_` kept. */
    function Cleared(): VersionFields
    {
      this.(auth_request_ := U32_MAX, auth_response_ := U32_MAX, response_ := U32_MAX)
    }
  }

  /** `constexpr Version version`: a default-constructed record. */
  const LocalVersion := VersionFields(VERSION, AUTH_REQUEST, AUTH_RESPONSE, INIT_RESPONSE, RESPONSE)

  /** The const reflector's walk, which has no clamp branch. */
  function EncodeVersion(v: VersionFields): seq<Entry>
  {
    [Tagged(1, "version", Num(v.version_))]
    + if v.version_ == VERSION then
        [ Tagged(3, "auth_request", Num(v.auth_request_)),
          Tagged(4, "auth_response", Num(v.auth_response_)),
          Tagged(5, "init_response", Num(v.init_response_)),
          Tagged(6, "response", Num(v.response_)) ]
      else []
  }

  datatype VersionDecoded = VersionDecoded(fields: VersionFields, error: Option<Error>)

  /**
   * The decoding walk. `seen` is the static `version` as the clamp branch reads
   * it through the object (`_rthis.version`), which it then compares with
   * `Version::version`, the same constant.
   */
  function DecodeVersion(v: VersionFields, es: seq<Entry>, seen: u32): VersionDecoded
  {
    match ReadU32(es, 0, 1, "version")
    case Err(e) => VersionDecoded(v, Some(e))
    case Ok(x) =>
      var v := v.(version_ := x);
      if seen > VERSION then VersionDecoded(v.Cleared(), None)
      else DecodeCounters(v, es)
  }

  /** The part of the lambda after the clamp branch: tags 3 to 6 when `version_` is this build's. */
  function DecodeCounters(v: VersionFields, es: seq<Entry>): VersionDecoded
  {
    if v.version_ != VERSION then VersionDecoded(v, None)
    else
      match ReadU32(es, 1, 3, "auth_request")
      case Err(e) => VersionDecoded(v, Some(e))
      case Ok(a) =>
        var v := v.(auth_request_ := a);
        match ReadU32(es, 2, 4, "auth_response")
        case Err(e) => VersionDecoded(v, Some(e))
        case Ok(b) =>
          var v := v.(auth_response_ := b);
          match ReadU32(es, 3, 5, "init_response")
          case Err(e) => VersionDecoded(v, Some(e))
          case Ok(c) =>
            var v := v.(init_response_ := c);
            match ReadU32(es, 4, 6, "response")
            case Err(e) => VersionDecoded(v, Some(e))
            case Ok(d) => VersionDecoded(v.(response_ := d), None)
  }

  class Version {
    /** The static `version` reached through the object; every constructor sets it to `VERSION`. */
    const version: u32
    var version_: u32
    var auth_request_: u32
    var auth_response_: u32
    var init_response_: u32
    var response_: u32

    constructor ()
      ensures version == VERSION && Fields() == LocalVersion
    {
      version := VERSION;
      version_, auth_request_, auth_response_ := VERSION, AUTH_REQUEST, AUTH_RESPONSE;
      init_response_, response_ := INIT_RESPONSE, RESPONSE;
    }

    function Fields(): VersionFields
      reads this
    {
      VersionFields(version_, auth_request_, auth_response_, init_response_, response_)
    }

    /** `clear()`. */
    method Clear()
      modifies this
      ensures auth_request_ == U32_MAX && auth_response_ == U32_MAX && response_ == U32_MAX
      ensures version_ == old(version_) && init_response_ == old(init_response_)
    {
      auth_request_ := U32_MAX;
      auth_response_ := U32_MAX;
      response_ := U32_MAX;
    }

    function Encode(): seq<Entry>
      reads this
    {
      EncodeVersion(Fields())
    }

    /** The non-const reflector's walk, writing each field in turn. */
    method Decode(es: seq<Entry>) returns (error: Option<Error>)
      modifies this
      ensures VersionDecoded(Fields(), error) == DecodeVersion(old(Fields()), es, version)
    {
      var r := ReadU32(es, 0, 1, "version");
      if r.Err? {
        return Some(r.error);
      }
      version_ := r.value;
      if version > VERSION {
        Clear();
        return None;
      }
      if version_ == VERSION {
        r := ReadU32(es, 1, 3, "auth_request");
        if r.Err? {
          return Some(r.error);
        }
        auth_request_ := r.value;
        r := ReadU32(es, 2, 4, "auth_response");
        if r.Err? {
          return Some(r.error);
        }
        auth_response_ := r.value;
        r := ReadU32(es, 3, 5, "init_response");
        if r.Err? {
          return Some(r.error);
        }
        init_response_ := r.value;
        r := ReadU32(es, 4, 6, "response");
        if r.Err? {
          return Some(r.error);
        }
        response_ := r.value;
      }
      return None;
    }
  }

  /** A record of this build's version encodes tags 1, 3, 4, 5, 6; any other encodes tag 1 alone. */
  lemma VersionEncodingTags(v: VersionFields)
    ensures TagsOf(EncodeVersion(v))
         == if v.version_ == VERSION then [Some(1), Some(3), Some(4), Some(5), Some(6)] else [Some(1)]
    ensures forall i :: 0 <= i < |EncodeVersion(v)| ==> EncodeVersion(v)[i].tag != Some(2)
  {
  }

  /**
   * The clamp branch never fires: decoding with the static constant reads
   * `version_` and then at most the four counters, and never clears.
   */
  lemma ClampNeverFires(v: VersionFields, es: seq<Entry>)
    requires ReadU32(es, 0, 1, "version").Ok?
    ensures DecodeVersion(v, es, VERSION)
         == DecodeCounters(v.(version_ := ReadU32(es, 0, 1, "version").value), es)
  {
  }

  /**
   * A decoded `version_` other than this build's reads nothing after tag 1:
   * the counters keep their pre-decode values, whatever entries follow.
   */
  lemma ForeignVersionKeepsCounters(v: VersionFields, es: seq<Entry>)
    requires ReadU32(es, 0, 1, "version").Ok? && ReadU32(es, 0, 1, "version").value != VERSION
    ensures DecodeVersion(v, es, VERSION)
         == VersionDecoded(v.(version_ := ReadU32(es, 0, 1, "version").value), None)
  {
  }

  /**
   * Round trip: decoding what a record encoded restores it when its
   * `version_` is this build's, and otherwise sets only `version_`.
   * Entries after the walk are skipped.
   */
  lemma VersionRoundTrip(dst: VersionFields, src: VersionFields, extra: seq<Entry>)
    ensures DecodeVersion(dst, EncodeVersion(src) + extra, VERSION)
         == VersionDecoded(if src.version_ == VERSION then src else dst.(version_ := src.version_), None)
  {
    var es := EncodeVersion(src) + extra;
    assert es[0] == Tagged(1, "version", Num(src.version_));
    if src.version_ == VERSION {
      assert es[1] == Tagged(3, "auth_request", Num(src.auth_request_));
      assert es[2] == Tagged(4, "auth_response", Num(src.auth_response_));
      assert es[3] == Tagged(5, "init_response", Num(src.init_response_));
      assert es[4] == Tagged(6, "response", Num(src.response_));
    }
  }

  /** `clear()` poisons exactly the three counters it names. */
  lemma ClearedFields(v: VersionFields)
    ensures v.Cleared().auth_request_ == U32_MAX && v.Cleared().auth_response_ == U32_MAX
    ensures v.Cleared().response_ == U32_MAX
    ensures v.Cleared().version_ == v.version_ && v.Cleared().init_response_ == v.init_response_
  {
  }

  /** `a <= b` does not depend on `a.auth_request_`. */
  lemma LessEqIgnoresOwnAuthRequest(a: VersionFields, b: VersionFields, x: u32)
    ensures a.(auth_request_ := x).LessEq(b) == a.LessEq(b)
  {
  }

  /** ... so a record with a larger `auth_request_` still compares below one with a smaller. */
  lemma LessEqAdmitsLargerAuthRequest()
    ensures LocalVersion.(auth_request_ := 7).LessEq(LocalVersion)
    ensures !LocalVersion.(auth_request_ := 0).LessEq(LocalVersion.(auth_request_ := 0))
  {
  }

  /** The evidently intended `operator<=`: every field of `a` at most the same field of `b`. */
  predicate FieldwiseLessEq(a: VersionFields, b: VersionFields)
  {
    && a.version_ <= b.version_
    && a.auth_request_ <= b.auth_request_
    && a.auth_response_ <= b.auth_response_
    && a.init_response_ <= b.init_response_
    && a.response_ <= b.response_
  }

  /** The field-wise comparison is a partial order, which the written one is not. */
  lemma FieldwiseLessEqIsPartialOrder(a: VersionFields, b: VersionFields, c: VersionFields)
    ensures FieldwiseLessEq(a, a)
    ensures FieldwiseLessEq(a, b) && FieldwiseLessEq(b, a) ==> a == b
    ensures FieldwiseLessEq(a, b) && FieldwiseLessEq(b, c) ==> FieldwiseLessEq(a, c)
  {
  }

  /**
   * The evidently intended decoding walk: a `version_` newer than this
   * build's clears the counters, so that no feature gate passes on them.
   */
  function DecodeVersionIntended(v: VersionFields, es: seq<Entry>): VersionDecoded
  {
    match ReadU32(es, 0, 1, "version")
    case Err(e) => VersionDecoded(v, Some(e))
    case Ok(x) =>
      var v := v.(version_ := x);
      if v.version_ > VERSION then VersionDecoded(v.Cleared(), None)
      else DecodeCounters(v, es)
  }

  /** With the intended walk, a newer peer's record always comes out cleared. */
  lemma IntendedClearsNewerPeer(v: VersionFields, es: seq<Entry>)
    requires ReadU32(es, 0, 1, "version").Ok? && ReadU32(es, 0, 1, "version").value > VERSION
    ensures DecodeVersionIntended(v, es).error == None
    ensures var d := DecodeVersionIntended(v, es).fields;
      d.version_ > VERSION && d.auth_request_ == U32_MAX && d.auth_response_ == U32_MAX && d.response_ == U32_MAX
  {
  }

  /** As written, a newer peer's record keeps the pre-decode counters instead. */
  lemma AsWrittenKeepsCountersOfNewerPeer()
    ensures DecodeVersion(LocalVersion, [Tagged(1, "version", Num(2))], VERSION).fields.auth_request_ == AUTH_REQUEST
    ensures DecodeVersionIntended(LocalVersion, [Tagged(1, "version", Num(2))]).fields.auth_request_ == U32_MAX
  {
  }

  // ---------------------------------------------------------------------------
  // Messages

  const AuthRequestSchema: Schema := TextMessage("AuthRequest", ["pass", "user", "captcha_text", "captcha_token"])

  /** A message of `error_` (initially `-1` as `uint32_t`) and `message_`, walked under tags 1 and 2. */
  function ErrorMessage(typeName: string): Schema
  {
    Schema(typeName,
      [U32Member("error_", U32_MAX), StrMember("message_")],
      [TaggedField(1, "error", 0), TaggedField(2, "message", 1)])
  }

  const AuthResponseSchema: Schema := ErrorMessage("AuthResponse")

  /** The two fields `InitResponse` walks when its gate holds. */
  const InitResponseSchema: Schema := ErrorMessage("InitResponse")

  const ResponseSchema: Schema := ErrorMessage("Response")

  function WalkTags(s: Schema): seq<Option<nat>>
  {
    seq(|s.walk|, i requires 0 <= i < |s.walk| => s.walk[i].tag)
  }

  /** `AuthRequest` walks its four strings in declaration order under tags 1 to 4, unbounded. */
  lemma AuthRequestIsPlain()
    ensures Plain(AuthRequestSchema)
    ensures WalkTags(AuthRequestSchema) == [Some(1), Some(2), Some(3), Some(4)]
  {
    TextMessageIsPlain("AuthRequest", ["pass", "user", "captcha_text", "captcha_token"]);
  }

  /** The error-and-message messages walk their two fields under tags 1 and 2, unbounded. */
  lemma ErrorMessagesArePlain()
    ensures Plain(AuthResponseSchema) && Plain(InitResponseSchema) && Plain(ResponseSchema)
    ensures WalkTags(AuthResponseSchema) == WalkTags(InitResponseSchema) == WalkTags(ResponseSchema) == [Some(1), Some(2)]
  {
    ErrorMessageIsPlain("AuthResponse");
    ErrorMessageIsPlain("InitResponse");
    ErrorMessageIsPlain("Response");
  }

  lemma ErrorMessageIsPlain(typeName: string)
    ensures Plain(ErrorMessage(typeName)) && WalkTags(ErrorMessage(typeName)) == [Some(1), Some(2)]
  {
    var s := ErrorMessage(typeName);
    forall f | f in s.walk
      ensures f.src < |s.members| && f.dst < |s.members| && s.members[f.src].kind == s.members[f.dst].kind
    {
      var k :| 0 <= k < |s.walk| && s.walk[k] == f;
    }
    assert WalkTags(s) == [Some(1), Some(2)];
  }

  /** Whether the context holds a `Version` whose `init_response_` is this build's. */
  predicate InitResponseGate(ctx: Option<VersionFields>)
  {
    ctx.Some? && ctx.value.init_response_ == INIT_RESPONSE
  }

  /**
   * `InitResponse`, whose only fields are walked under the connection's
   * stored `Version` (`_rctx.any().get_if<Version>()`, here `ctx`).
   */
  class InitResponse {
    const body: Message

    predicate Valid()
      reads this, body
    {
      body.schema == InitResponseSchema && body.Valid()
    }

    constructor ()
      ensures Valid() && fresh(body) && body.fields == [Num(U32_MAX), Text("")]
    {
      body := new Message(InitResponseSchema);
    }

    function Encode(ctx: Option<VersionFields>): Result<seq<Entry>, Error>
      reads this, body
      requires Valid()
    {
      if InitResponseGate(ctx) then body.Encode() else Ok([])
    }

    method Decode(es: seq<Entry>, ctx: Option<VersionFields>) returns (error: Option<Error>)
      requires Valid()
      modifies body
      ensures Valid()
      ensures InitResponseGate(ctx) ==>
        Decoded(body.fields, error) == DecodeWalk(InitResponseSchema.members, InitResponseSchema.walk, old(body.fields), es)
      ensures !InitResponseGate(ctx) ==> error == None && body.fields == old(body.fields)
    {
      if InitResponseGate(ctx) {
        error := body.Decode(es);
      } else {
        error := None;
      }
    }
  }

  /**
   * Round trip of `InitResponse` between two connections: with both gates
   * open every field arrives; with the receiver's closed nothing is read and
   * the defaults stay; with only the sender's closed the receiver misses
   * `error`.
   */
  lemma InitResponseRoundTrip(vals: seq<Value>, sender: Option<VersionFields>, receiver: Option<VersionFields>)
    requires IsInstance(InitResponseSchema, vals)
    ensures var es := if InitResponseGate(sender) then EncodeWalk(InitResponseSchema.walk, vals).value else [];
      var d := if InitResponseGate(receiver)
               then DecodeWalk(InitResponseSchema.members, InitResponseSchema.walk, Defaults(InitResponseSchema), es)
               else Decoded(Defaults(InitResponseSchema), None);
      && (InitResponseGate(sender) && InitResponseGate(receiver) ==> d == Decoded(vals, None))
      && (!InitResponseGate(receiver) ==> d.fields == [Num(U32_MAX), Text("")] && d.error == None)
      && (!InitResponseGate(sender) && InitResponseGate(receiver) ==> d.error == Some(Missing("error")))
  {
    ErrorMessagesArePlain();
    PlainRestores(InitResponseSchema, vals);
  }

  // ---------------------------------------------------------------------------
  // Registration

  /** The registrations in call order; the calls pass the ids 1, 2, ... */
  const Registrations: seq<Registration> := [
    Registration(Some("InitResponse"), "InitResponse"),
    Registration(Some("AuthRequest"), "AuthRequest"),
    Registration(Some("AuthResponse"), "AuthResponse"),
    Registration(Some("Response"), "Response")
  ]

  const Table: Registry.Table := Consecutive(ProtocolId, 1, Registrations)

  /** Ids 1 to 4 of family 0, each registration named after its type. */
  lemma TableIsSound()
    ensures |Table| == 4 && DistinctIds(Table) && DistinctNames(Table) && DistinctTypes(Table)
    ensures InFamily(Table, ProtocolId) && AvoidsNull(Table)
    ensures forall i :: 0 <= i < |Table| ==> Table[i].0.id == i + 1
  {
    ConsecutiveIsSound(ProtocolId, 1, Registrations);
  }

  /** `configure_protocol`: four successive registrations. */
  method ConfigureProtocol(reg: Registrar)
    requires Free(reg, Table)
    modifies reg
    ensures Installed(reg.table, old(reg.table), Table)
    ensures forall i :: 0 <= i < |Table| ==> reg.Resolve(Table[i].0) == Found(Table[i].1)
    ensures reg.version == old(reg.version) && reg.nullId == old(reg.nullId)
  {
    TableIsSound();
    RegisterAll(reg, Table);
  }
}
