/**
 * The authentication protocol family of the `myapps::front` protocol
 * (front_protocol_auth.hpp): the `auth::Version` record, `InitRequest`,
 * whose second field is gated on its first, the account messages and their
 * registration.
 */
module FrontAuth {
  import opened Wrappers
  import opened Wire
  import opened Registry
  import opened Reflect
  import FrontCore

  const ProtocolId: u8 := 1

  const VERSION: u32 := 1
  const INIT_REQUEST: u32 := 1

  datatype VersionFields = VersionFields(version_: u32, init_request_: u32)
  {
    /** `operator<=`: both fields compared. */
    predicate LessEq(that: VersionFields)
    {
      version_ <= that.version_ && init_request_ <= that.init_request_
    }

    /** What `clear()` leaves: `init_request_` poisoned, `version_` kept. */
    function Cleared(): VersionFields
    {
      this.(init_request_ := U32_MAX)
    }
  }

  const LocalVersion := VersionFields(VERSION, INIT_REQUEST)

  function EncodeVersion(v: VersionFields): seq<Entry>
  {
    [Tagged(1, "version", Num(v.version_))]
    + if v.version_ == VERSION then [Tagged(3, "init_request", Num(v.init_request_))] else []
  }

  datatype VersionDecoded = VersionDecoded(fields: VersionFields, error: Option<Error>)

  /** The decoding walk; `seen` is the static `version` read through the object. */
  function DecodeVersion(v: VersionFields, es: seq<Entry>, seen: u32): VersionDecoded
  {
    match ReadU32(es, 0, 1, "version")
    case Err(e) => VersionDecoded(v, Some(e))
    case Ok(x) =>
      var v := v.(version_ := x);
      if seen > VERSION then VersionDecoded(v.Cleared(), None)
      else DecodeInitRequestCounter(v, es)
  }

  /** The lambda after the clamp branch: tag 3 when `version_` is this build's. */
  function DecodeInitRequestCounter(v: VersionFields, es: seq<Entry>): VersionDecoded
  {
    if v.version_ != VERSION then VersionDecoded(v, None)
    else
      match ReadU32(es, 1, 3, "init_request")
      case Err(e) => VersionDecoded(v, Some(e))
      case Ok(a) => VersionDecoded(v.(init_request_ := a), None)
  }

  class Version {
    /** The static `version` reached through the object; always `VERSION`. */
    const version: u32
    var version_: u32
    var init_request_: u32

    constructor ()
      ensures version == VERSION && Fields() == LocalVersion
    {
      version := VERSION;
      version_, init_request_ := VERSION, INIT_REQUEST;
    }

    function Fields(): VersionFields
      reads this
    {
      VersionFields(version_, init_request_)
    }

    /** `clear()`. */
    method Clear()
      modifies this
      ensures init_request_ == U32_MAX && version_ == old(version_)
    {
      init_request_ := U32_MAX;
    }

    function Encode(): seq<Entry>
      reads this
    {
      EncodeVersion(Fields())
    }

    method Decode(es: seq<Entry>) returns (error: Option<Error>)
      modifies this
      ensures VersionDecoded(Fields(), error) == DecodeVersion(old(Fields()), es, version)
    {
      var r := ReadU32(es, 0, 1, "version");
      if r.Err? {
        return Some(r.error);
      }
      version_ := r.value;
      if version > VERSION {
        Clear();
        return None;
      }
      if version_ == VERSION {
        r := ReadU32(es, 1, 3, "init_request");
        if r.Err? {
          return Some(r.error);
        }
        init_request_ := r.value;
      }
      return None;
    }
  }

  /** A record of this build's version encodes tags 1 and 3; any other encodes tag 1 alone. */
  lemma VersionEncodingTags(v: VersionFields)
    ensures TagsOf(EncodeVersion(v)) == if v.version_ == VERSION then [Some(1), Some(3)] else [Some(1)]
  {
  }

  /** The clamp branch never fires: with the static constant, `init_request` is read exactly when `version_` is 1. */
  lemma ClampNeverFires(v: VersionFields, es: seq<Entry>)
    requires ReadU32(es, 0, 1, "version").Ok?
    ensures var x := ReadU32(es, 0, 1, "version").value;
      DecodeVersion(v, es, VERSION)
      == if x != VERSION then VersionDecoded(v.(version_ := x), None)
         else match ReadU32(es, 1, 3, "init_request")
              case Err(e) => VersionDecoded(v.(version_ := x), Some(e))
              case Ok(a) => VersionDecoded(VersionFields(x, a), None)
  {
  }

  /** Round trip: a record of this build's version is restored; any other sets only `version_`. */
  lemma VersionRoundTrip(dst: VersionFields, src: VersionFields, extra: seq<Entry>)
    ensures DecodeVersion(dst, EncodeVersion(src) + extra, VERSION)
         == VersionDecoded(if src.version_ == VERSION then src else dst.(version_ := src.version_), None)
  {
    var es := EncodeVersion(src) + extra;
    assert es[0] == Tagged(1, "version", Num(src.version_));
    if src.version_ == VERSION {
      assert es[1] == Tagged(3, "init_request", Num(src.init_request_));
    }
  }

  /** `<=` is a partial order on the two fields. */
  lemma LessEqIsPartialOrder(a: VersionFields, b: VersionFields, c: VersionFields)
    ensures a.LessEq(a)
    ensures a.LessEq(b) && b.LessEq(a) ==> a == b
    ensures a.LessEq(b) && b.LessEq(c) ==> a.LessEq(c)
  {
  }

  /** The evidently intended walk: a `version_` newer than this build's clears the counter. */
  function DecodeVersionIntended(v: VersionFields, es: seq<Entry>): VersionDecoded
  {
    match ReadU32(es, 0, 1, "version")
    case Err(e) => VersionDecoded(v, Some(e))
    case Ok(x) =>
      var v := v.(version_ := x);
      if v.version_ > VERSION then VersionDecoded(v.Cleared(), None)
      else DecodeInitRequestCounter(v, es)
  }

  // ---------------------------------------------------------------------------
  // InitRequest

  datatype InitRequestFields = InitRequestFields(auth_version_: VersionFields, core_version_: FrontCore.VersionFields)

  /** The const walk: `core_version` (tag 3) follows only when the sender's `init_request_` is 1. */
  function EncodeInitRequest(r: InitRequestFields): seq<Entry>
  {
    [Tagged(1, "auth_version", Nested(EncodeVersion(r.auth_version_)))]
    + if r.auth_version_.init_request_ == INIT_REQUEST
      then [Tagged(3, "core_version", Nested(FrontCore.EncodeVersion(r.core_version_)))]
      else []
  }

  datatype InitRequestDecoded = InitRequestDecoded(fields: InitRequestFields, error: Option<Error>)

  /**
   * The decoding walk: `auth_version_` is decoded first, and the gate reads
   * the value just decoded, so what follows depends on the peer's record.
   */
  function DecodeInitRequest(r: InitRequestFields, es: seq<Entry>): InitRequestDecoded
  {
    match ReadNested(es, 0, 1, "auth_version")
    case Err(e) => InitRequestDecoded(r, Some(e))
    case Ok(aes) =>
      var a := DecodeVersion(r.auth_version_, aes, VERSION);
      var r := r.(auth_version_ := a.fields);
      if a.error.Some? then InitRequestDecoded(r, a.error)
      else if r.auth_version_.init_request_ != INIT_REQUEST then InitRequestDecoded(r, None)
      else
        match ReadNested(es, 1, 3, "core_version")
        case Err(e) => InitRequestDecoded(r, Some(e))
        case Ok(ces) =>
          var c := FrontCore.DecodeVersion(r.core_version_, ces, FrontCore.VERSION);
          InitRequestDecoded(r.(core_version_ := c.fields), c.error)
  }

  class InitRequest {
    const auth_version_: Version
    const core_version_: FrontCore.Version

    predicate Valid()
      reads this
    {
      auth_version_.version == VERSION && core_version_.version == FrontCore.VERSION
    }

    constructor ()
      ensures Valid() && fresh(auth_version_) && fresh(core_version_)
      ensures Fields() == InitRequestFields(LocalVersion, FrontCore.LocalVersion)
    {
      auth_version_ := new Version();
      core_version_ := new FrontCore.Version();
    }

    function Fields(): InitRequestFields
      reads this, auth_version_, core_version_
    {
      InitRequestFields(auth_version_.Fields(), core_version_.Fields())
    }

    function Encode(): seq<Entry>
      reads this, auth_version_, core_version_
    {
      EncodeInitRequest(Fields())
    }

    method Decode(es: seq<Entry>) returns (error: Option<Error>)
      requires Valid()
      modifies auth_version_, core_version_
      ensures InitRequestDecoded(Fields(), error) == DecodeInitRequest(old(Fields()), es)
    {
      var n := ReadNested(es, 0, 1, "auth_version");
      if n.Err? {
        return Some(n.error);
      }
      error := auth_version_.Decode(n.value);
      if error.Some? || auth_version_.init_request_ != INIT_REQUEST {
        return;
      }
      n := ReadNested(es, 1, 3, "core_version");
      if n.Err? {
        return Some(n.error);
      }
      error := core_version_.Decode(n.value);
    }
  }

  /** What decoding restores of a core record on the receiving side. */
  function CoreReceived(dst: FrontCore.VersionFields, src: FrontCore.VersionFields): FrontCore.VersionFields
  {
    if src.version_ == FrontCore.VERSION then src else dst.(version_ := src.version_)
  }

  /**
   * When the sender speaks this build's `auth::Version`, both sides evaluate
   * the gate on the same `init_request_`: the auth record is restored, and
   * `core_version` is carried and decoded exactly when that counter is 1.
   */
  lemma InitRequestRoundTrip(dst: InitRequestFields, src: InitRequestFields)
    requires src.auth_version_.version_ == VERSION
    ensures |EncodeInitRequest(src)| == if src.auth_version_.init_request_ == INIT_REQUEST then 2 else 1
    ensures DecodeInitRequest(dst, EncodeInitRequest(src))
         == InitRequestDecoded(
              InitRequestFields(src.auth_version_,
                if src.auth_version_.init_request_ == INIT_REQUEST
                then CoreReceived(dst.core_version_, src.core_version_)
                else dst.core_version_),
              None)
  {
    VersionRoundTrip(dst.auth_version_, src.auth_version_, []);
    assert EncodeVersion(src.auth_version_) + [] == EncodeVersion(src.auth_version_);
    if src.auth_version_.init_request_ == INIT_REQUEST {
      FrontCore.VersionRoundTrip(dst.core_version_, src.core_version_, []);
      assert FrontCore.EncodeVersion(src.core_version_) + [] == FrontCore.EncodeVersion(src.core_version_);
    }
  }

  /** A newer peer's `InitRequest` that leaves out `core_version`. */
  const NewerPeerRequest := InitRequestFields(VersionFields(2, 0), FrontCore.LocalVersion)

  /**
   * As written, the receiver keeps its own `init_request_` for a newer peer,
   * so it expects `core_version` that the peer did not send and the request
   * fails to decode.
   */
  lemma AsWrittenRejectsNewerPeer()
    ensures DecodeInitRequest(InitRequestFields(LocalVersion, FrontCore.LocalVersion), EncodeInitRequest(NewerPeerRequest)).error
         == Some(Missing("core_version"))
  {
    assert EncodeVersion(NewerPeerRequest.auth_version_) == [Tagged(1, "version", Num(2))];
    assert EncodeInitRequest(NewerPeerRequest) == [Tagged(1, "auth_version", Nested([Tagged(1, "version", Num(2))]))];
  }

  /** The intended walk of `InitRequest`, using the intended clamp for `auth_version_`. */
  function DecodeInitRequestIntended(r: InitRequestFields, es: seq<Entry>): InitRequestDecoded
  {
    match ReadNested(es, 0, 1, "auth_version")
    case Err(e) => InitRequestDecoded(r, Some(e))
    case Ok(aes) =>
      var a := DecodeVersionIntended(r.auth_version_, aes);
      var r := r.(auth_version_ := a.fields);
      if a.error.Some? then InitRequestDecoded(r, a.error)
      else if r.auth_version_.init_request_ != INIT_REQUEST then InitRequestDecoded(r, None)
      else
        match ReadNested(es, 1, 3, "core_version")
        case Err(e) => InitRequestDecoded(r, Some(e))
        case Ok(ces) =>
          var c := FrontCore.DecodeVersionIntended(r.core_version_, ces);
          InitRequestDecoded(r.(core_version_ := c.fields), c.error)
  }

  /**
   * With the intended clamp, any request from a newer peer decodes without
   * error: every counter of its `auth::Version` is cleared and nothing after
   * it is read.
   */
  lemma IntendedAcceptsNewerPeer(dst: InitRequestFields, src: InitRequestFields)
    requires src.auth_version_.version_ > VERSION
    ensures var d := DecodeInitRequestIntended(dst, EncodeInitRequest(src));
      d.error == None && d.fields == dst.(auth_version_ := VersionFields(src.auth_version_.version_, U32_MAX))
  {
    var es := EncodeInitRequest(src);
    assert es[0] == Tagged(1, "auth_version", Nested(EncodeVersion(src.auth_version_)));
  }

  // ---------------------------------------------------------------------------
  // Account messages

  const CaptchaRequestSchema: Schema := TextMessage("CaptchaRequest", [])

  /** `captcha_image` is bounded at 1 MiB; `captcha_audio` is not bounded. */
  const CaptchaImageLimit: nat := 1024 * 1024

  const CaptchaResponseSchema: Schema := Schema("CaptchaResponse",
    [StrMember("captcha_token_"), Member("captcha_image_", Blob, Bytes([])), Member("captcha_audio_", Blob, Bytes([]))],
    [ TaggedField(1, "captcha_token", 0),
      Field(Some(2), "captcha_image", 1, 1, Some(CaptchaImageLimit)),
      TaggedField(3, "captcha_audio", 2) ])

  const CreateRequestSchema: Schema := TextMessage("CreateRequest", ["pass", "user", "email", "captcha_text", "captcha_token"])

  const FetchRequestSchema: Schema := TextMessage("FetchRequest", [])

  const FetchResponseSchema: Schema := TextMessage("FetchResponse", ["user", "email"])

  const AmendRequestSchema: Schema := TextMessage("AmendRequest", ["ticket", "new_pass", "new_user", "new_email", "pass", "captcha_text", "captcha_token"])

  const DeleteRequestSchema: Schema := TextMessage("DeleteRequest", ["ticket", "pass", "reason"])

  const ValidateRequestSchema: Schema := TextMessage("ValidateRequest", ["ticket", "text", "captcha_text", "captcha_token"])

  const ResetRequestSchema: Schema := TextMessage("ResetRequest", ["login", "pass", "captcha_text", "captcha_token"])

  /**
   * Every account message other than `CaptchaResponse` holds only strings,
   * walked in declaration order under tags 1..n, so encode-then-decode
   * restores it.
   */
  lemma AccountMessagesRestore(s: Schema, vals: seq<Value>)
    requires s in [CaptchaRequestSchema, CreateRequestSchema, FetchRequestSchema, FetchResponseSchema,
                   AmendRequestSchema, DeleteRequestSchema, ValidateRequestSchema, ResetRequestSchema]
    requires IsInstance(s, vals)
    ensures Plain(s) && TaggedFromOne(s)
    ensures EncodeWalk(s.walk, vals).Ok?
    ensures DecodeWalk(s.members, s.walk, Defaults(s), EncodeWalk(s.walk, vals).value) == Decoded(vals, None)
  {
    var names :| s == TextMessage(s.typeName, names);
    TextMessageIsPlain(s.typeName, names);
    PlainRestores(s, vals);
  }

  /**
   * `CaptchaResponse` walks its fields in order under tags 1..3; an image
   * within the bound makes it round-trip, and an image over it is rejected
   * by the receiver once the token has been read.
   */
  lemma CaptchaResponseBounds(vals: seq<Value>, es: seq<Entry>)
    requires IsInstance(CaptchaResponseSchema, vals)
    ensures WellFormed(CaptchaResponseSchema) && InDeclarationOrder(CaptchaResponseSchema)
    ensures TaggedFromOne(CaptchaResponseSchema)
    ensures |vals[1].b| <= CaptchaImageLimit ==>
      DecodeWalk(CaptchaResponseSchema.members, CaptchaResponseSchema.walk, Defaults(CaptchaResponseSchema),
                 EncodeWalk(CaptchaResponseSchema.walk, vals).value) == Decoded(vals, None)
    ensures |vals[1].b| > CaptchaImageLimit ==> EncodeWalk(CaptchaResponseSchema.walk, vals).Err?
    ensures |es| >= 2 && es[0].tag == Some(1) && es[0].value.Text? && es[1].tag == Some(2)
            && es[1].value.Bytes? && |es[1].value.b| > CaptchaImageLimit ==>
      DecodeWalk(CaptchaResponseSchema.members, CaptchaResponseSchema.walk, vals, es).error
      == Some(LimitExceeded("captcha_image"))
  {
    CaptchaResponseShape();
    if |vals[1].b| <= CaptchaImageLimit {
      CaptchaImageFits(vals);
    } else {
      CaptchaImageTooLarge(vals);
    }
    if |es| >= 2 && es[0].tag == Some(1) && es[0].value.Text? && es[1].tag == Some(2)
       && es[1].value.Bytes? && |es[1].value.b| > CaptchaImageLimit {
      CaptchaEntryTooLarge(vals, es);
    }
  }

  lemma CaptchaResponseShape()
    ensures var s := CaptchaResponseSchema;
      && WellFormed(s) && InDeclarationOrder(s) && TaggedFromOne(s) && |s.walk| == 3
      && s.walk[0] == TaggedField(1, "captcha_token", 0)
      && s.walk[1] == Field(Some(2), "captcha_image", 1, 1, Some(CaptchaImageLimit))
      && s.walk[2] == TaggedField(3, "captcha_audio", 2)
      && s.members[0].kind == Str && s.members[1].kind == Blob
  {
    CaptchaShaped(CaptchaResponseSchema);
  }

  /** The three fields one by one give the walk's shape, for any schema that has them. */
  lemma CaptchaShaped(s: Schema)
    requires |s.walk| == 3 && |s.members| == 3
    requires s.walk[0] == TaggedField(1, "captcha_token", 0)
    requires s.walk[1] == Field(Some(2), "captcha_image", 1, 1, Some(CaptchaImageLimit))
    requires s.walk[2] == TaggedField(3, "captcha_audio", 2)
    requires s.members[0] == StrMember("captcha_token_")
    requires s.members[1] == Member("captcha_image_", Blob, Bytes([]))
    requires s.members[2] == Member("captcha_audio_", Blob, Bytes([]))
    ensures WellFormed(s) && InDeclarationOrder(s) && TaggedFromOne(s)
  {
    forall f | f in s.walk
      ensures f.src < |s.members| && f.dst < |s.members| && s.members[f.src].kind == s.members[f.dst].kind
    {
      var k :| 0 <= k < 3 && s.walk[k] == f;
    }
  }

  lemma CaptchaImageFits(vals: seq<Value>)
    requires IsInstance(CaptchaResponseSchema, vals) && |vals[1].b| <= CaptchaImageLimit
    ensures DecodeWalk(CaptchaResponseSchema.members, CaptchaResponseSchema.walk, Defaults(CaptchaResponseSchema),
                       EncodeWalk(CaptchaResponseSchema.walk, vals).value) == Decoded(vals, None)
  {
    var s := CaptchaResponseSchema;
    CaptchaResponseShape();
    assert vals[1].Bytes? by {
      assert HasKind(vals[1], s.members[1].kind);
    }
    assert AllFit(s.walk, vals);
    RoundTripRestores(s, vals);
  }

  lemma CaptchaImageTooLarge(vals: seq<Value>)
    requires IsInstance(CaptchaResponseSchema, vals) && |vals[1].b| > CaptchaImageLimit
    ensures EncodeWalk(CaptchaResponseSchema.walk, vals).Err?
  {
    var s := CaptchaResponseSchema;
    CaptchaResponseShape();
    assert vals[1].Bytes? by {
      assert HasKind(vals[1], s.members[1].kind);
    }
    assert !Fits(vals[s.walk[1].src], s.walk[1].limit);
  }

  lemma CaptchaEntryTooLarge(vals: seq<Value>, es: seq<Entry>)
    requires IsInstance(CaptchaResponseSchema, vals)
    requires |es| >= 2 && es[0].tag == Some(1) && es[0].value.Text? && es[1].tag == Some(2)
    requires es[1].value.Bytes? && |es[1].value.b| > CaptchaImageLimit
    ensures DecodeWalk(CaptchaResponseSchema.members, CaptchaResponseSchema.walk, vals, es).error
      == Some(LimitExceeded("captcha_image"))
  {
    CaptchaResponseShape();
    OversizedEntryRejected(CaptchaResponseSchema, vals, es, 1);
  }

  // ---------------------------------------------------------------------------
  // Registration

  /** The registrations in call order; the calls pass the ids 1, 2, ... */
  const Registrations: seq<Registration> := [
    Registration(Some("InitRequest"), "InitRequest"),
    Registration(Some("CreateRequest"), "CreateRequest"),
    Registration(Some("ValidateRequest"), "ValidateRequest"),
    Registration(Some("AmendRequest"), "AmendRequest"),
    Registration(Some("FetchRequest"), "FetchRequest"),
    Registration(Some("FetchResponse"), "FetchResponse"),
    Registration(Some("ResetRequest"), "ResetRequest"),
    Registration(Some("CaptchaRequest"), "CaptchaRequest"),
    Registration(Some("CaptchaResponse"), "CaptchaResponse"),
    Registration(Some("DeleteRequest"), "DeleteRequest")
  ]

  const Table: Registry.Table := Consecutive(ProtocolId, 1, Registrations)

  /**
   * Proof device, not part of the protocol: where a type name sits in
   * `Registrations`. Its length and first letter tell the ten apart, which
   * shows the names are distinct.
   */
  function TypeNamePosition(s: string): int
  {
    if |s| == 11 then 0
    else if |s| == 14 then 7
    else if |s| == 15 then (if s[0] == 'V' then 2 else 8)
    else if |s| == 12 then (if s[0] == 'A' then 3 else if s[0] == 'F' then 4 else 6)
    else if |s| == 13 then (if s[0] == 'C' then 1 else if s[0] == 'F' then 5 else 9)
    else -1
  }

  /** Every registration is named after its type, and its type name gives back its position. */
  lemma PositionsRecovered()
    ensures forall i :: 0 <= i < |Registrations| ==>
      TypeNamePosition(Registrations[i].typeName) == i && Registrations[i].name == Some(Registrations[i].typeName)
  {
  }

  lemma TableIsSound()
    ensures |Table| == 10 && DistinctIds(Table) && DistinctNames(Table) && DistinctTypes(Table)
    ensures InFamily(Table, ProtocolId) && AvoidsNull(Table)
    ensures forall i :: 0 <= i < |Table| ==> Table[i].0.id == i + 1
  {
    ConsecutiveIsSound(ProtocolId, 1, Registrations);
    PositionsRecovered();
  }

  /** `configure_protocol`: ten successive registrations. */
  method ConfigureProtocol(reg: Registrar)
    requires Free(reg, Table)
    modifies reg
    ensures Installed(reg.table, old(reg.table), Table)
    ensures forall i :: 0 <= i < |Table| ==> reg.Resolve(Table[i].0) == Found(Table[i].1)
    ensures reg.version == old(reg.version) && reg.nullId == old(reg.nullId)
  {
    TableIsSound();
    RegisterAll(reg, Table);
  }

}
