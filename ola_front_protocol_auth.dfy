/**
 * The `ola` generation's authentication messages (ola_front_protocol_auth.hpp):
 * serialization-v2 walks, `version_` first, and their registration in
 * family 1 by `protocol_setup_auth`.
 */
module OlaAuth {
  import opened Wrappers
  import opened Wire
  import opened Registry
  import opened Reflect
  import OlaMain

  const ProtocolId: u8 := 1

  /** `limit(1024 * 1024)` on `captcha_image_`. */
  const CaptchaImageLimit: nat := 1024 * 1024

  const CaptchaRequestFields: seq<Declared> := [OlaMain.VersionDecl]
  const CaptchaResponseFields: seq<Declared> :=
    [OlaMain.VersionDecl, StrDecl("captcha_token"),
     Declared("captcha_image", Blob, Bytes([]), Some(CaptchaImageLimit)),
     Declared("captcha_audio", Blob, Bytes([]), None)]
  const AuthCreateRequestFields: seq<Declared> :=
    [OlaMain.VersionDecl, StrDecl("pass"), StrDecl("user"), StrDecl("email"), StrDecl("captcha_text"), StrDecl("captcha_token")]
  const AuthFetchRequestFields: seq<Declared> := [OlaMain.VersionDecl]
  const AuthFetchResponseFields: seq<Declared> := [OlaMain.VersionDecl, StrDecl("user"), StrDecl("email")]
  const AuthAmendRequestFields: seq<Declared> :=
    [OlaMain.VersionDecl, StrDecl("ticket"), StrDecl("new_pass"), StrDecl("new_user"), StrDecl("new_email"),
     StrDecl("pass"), StrDecl("captcha_text"), StrDecl("captcha_token")]
  const AuthValidateRequestFields: seq<Declared> :=
    [OlaMain.VersionDecl, StrDecl("ticket"), StrDecl("text"), StrDecl("captcha_text"), StrDecl("captcha_token")]
  const AuthResetRequestFields: seq<Declared> :=
    [OlaMain.VersionDecl, StrDecl("login"), StrDecl("pass"), StrDecl("captcha_text"), StrDecl("captcha_token")]

  /** The messages, in registration order. */
  const Declarations: seq<(string, seq<Declared>)> := [
    ("AuthCreateRequest", AuthCreateRequestFields),
    ("AuthValidateRequest", AuthValidateRequestFields),
    ("AuthAmendRequest", AuthAmendRequestFields),
    ("AuthFetchRequest", AuthFetchRequestFields),
    ("AuthFetchResponse", AuthFetchResponseFields),
    ("AuthResetRequest", AuthResetRequestFields),
    ("CaptchaRequest", CaptchaRequestFields),
    ("CaptchaResponse", CaptchaResponseFields)
  ]

  function MessageSchema(i: nat): Schema
    requires i < |Declarations|
  {
    V2Message(Declarations[i].0, Declarations[i].1)
  }

  lemma DeclarationsConform()
    ensures forall i :: 0 <= i < |Declarations| ==> InitsConform(Declarations[i].1)
  {
  }

  /**
   * Round trip of every authentication message: `version_` (initially 1)
   * is walked first; it encodes exactly when `captcha_image_` fits its
   * bound, and decoding restores every member.
   */
  lemma MessagesRestore(i: nat, vals: seq<Value>)
    requires i < |Declarations| && IsInstance(MessageSchema(i), vals)
    ensures var s := MessageSchema(i);
      && s.walk[0] == Field(None, "version", 0, 0, None) && s.members[0].default == Num(1)
      && (EncodeWalk(s.walk, vals).Ok? <==>
            forall k :: 0 <= k < |s.walk| ==> Fits(vals[k], Declarations[i].1[k].limit))
      && (EncodeWalk(s.walk, vals).Ok? ==>
            DecodeWalk(s.members, s.walk, Defaults(s), EncodeWalk(s.walk, vals).value) == Decoded(vals, None))
  {
    DeclarationsConform();
    assert Declarations[i].1[0] == OlaMain.VersionDecl;
    V2MessageShape(Declarations[i].0, Declarations[i].1);
    V2MessageRestores(Declarations[i].0, Declarations[i].1, vals);
  }

  /**
   * The type named by each message's `addVersion<T>`, in the order of
   * `Declarations`: `AuthAmendRequest`, `AuthFetchRequest` and
   * `AuthFetchResponse` name `AuthCreateRequest` instead of themselves.
   */
  const VersionOwners: seq<string> := [
    "AuthCreateRequest", "AuthValidateRequest", "AuthCreateRequest", "AuthCreateRequest",
    "AuthCreateRequest", "AuthResetRequest", "CaptchaRequest", "CaptchaResponse"]

  /** Each message's `static constexpr uint32_t version`. */
  const StaticVersions: map<string, u32> := map[
    "AuthCreateRequest" := 1, "AuthValidateRequest" := 1, "AuthAmendRequest" := 1,
    "AuthFetchRequest" := 1, "AuthFetchResponse" := 1, "AuthResetRequest" := 1,
    "CaptchaRequest" := 1, "CaptchaResponse" := 1]

  /**
   * Exactly messages 2 to 4 borrow `AuthCreateRequest`'s version, and since
   * every static version is 1 the borrowed one equals the message's own, so
   * the walk is the one it would have with its own type named: `version_`
   * starting at that static version.
   */
  lemma BorrowedVersions(i: nat)
    requires i < |Declarations|
    ensures |VersionOwners| == |Declarations|
    ensures VersionOwners[i] != Declarations[i].0 <==> 2 <= i <= 4
    ensures VersionOwners[i] in StaticVersions && Declarations[i].0 in StaticVersions
    ensures StaticVersions[VersionOwners[i]] == StaticVersions[Declarations[i].0]
    ensures MessageSchema(i).members[0].default == Num(StaticVersions[VersionOwners[i]])
  {
    assert Declarations[i].1[0] == OlaMain.VersionDecl;
    V2MessageShape(Declarations[i].0, Declarations[i].1);
  }

  /** The only bounded member of the family is `captcha_image_`, member 2 of `CaptchaResponse`. */
  lemma OnlyCaptchaImageBounded()
    ensures forall i, k ::
      0 <= i < |Declarations| && 0 <= k < |Declarations[i].1| && Declarations[i].1[k].limit.Some? ==>
        i == 7 && k == 2 && Declarations[i].1[k].limit == Some(CaptchaImageLimit)
  {
  }

  /**
   * A `CaptchaResponse` whose image is over 1 MiB cannot be sent, and one
   * received stops decoding with a limit error after the token.
   */
  lemma CaptchaImageBounded(vals: seq<Value>, es: seq<Entry>)
    requires IsInstance(MessageSchema(7), vals)
    ensures EncodeWalk(MessageSchema(7).walk, vals).Ok? <==> |vals[2].b| <= CaptchaImageLimit
    ensures (|es| >= 3 && HasKind(es[0].value, UInt32) && es[1].value.Text? && es[2].value.Bytes?
             && |es[2].value.b| > CaptchaImageLimit) ==>
      DecodeWalk(MessageSchema(7).members, MessageSchema(7).walk, vals, es).error == Some(LimitExceeded("captcha_image"))
  {
    CaptchaEncodeBounded(vals);
    if |es| >= 3 && HasKind(es[0].value, UInt32) && es[1].value.Text? && es[2].value.Bytes?
       && |es[2].value.b| > CaptchaImageLimit {
      CaptchaDecodeBounded(vals, es);
    }
  }

  /** The walk of `CaptchaResponse`: version, token, then the bounded image and the audio. */
  lemma CaptchaWalk()
    ensures var s := MessageSchema(7);
      && WellFormed(s) && |s.walk| == 4 && |s.members| == 4
      && s.walk[0] == Field(None, "version", 0, 0, None)
      && s.walk[1] == Field(None, "captcha_token", 1, 1, None)
      && s.walk[2] == Field(None, "captcha_image", 2, 2, Some(CaptchaImageLimit))
      && s.walk[3].limit.None? && s.walk[3].src == 3
      && s.members[0].kind == UInt32 && s.members[1].kind == Str && s.members[2].kind == Blob
  {
    assert Declarations[7] == ("CaptchaResponse", CaptchaResponseFields);
    V2MessageShape("CaptchaResponse", CaptchaResponseFields);
  }

  lemma CaptchaEncodeBounded(vals: seq<Value>)
    requires IsInstance(MessageSchema(7), vals)
    ensures EncodeWalk(MessageSchema(7).walk, vals).Ok? <==> |vals[2].b| <= CaptchaImageLimit
  {
    var s := MessageSchema(7);
    CaptchaWalk();
    assert vals[2].Bytes? by {
      assert HasKind(vals[2], s.members[2].kind);
    }
    assert forall j :: 0 <= j < |s.walk| && j != 2 ==> s.walk[j].limit.None?;
    AllFitAt(s.walk, vals, 2);
  }

  lemma CaptchaDecodeBounded(vals: seq<Value>, es: seq<Entry>)
    requires IsInstance(MessageSchema(7), vals)
    requires |es| >= 3 && HasKind(es[0].value, UInt32) && es[1].value.Text? && es[2].value.Bytes?
    requires |es[2].value.b| > CaptchaImageLimit
    ensures DecodeWalk(MessageSchema(7).members, MessageSchema(7).walk, vals, es).error == Some(LimitExceeded("captcha_image"))
  {
    var s := MessageSchema(7);
    CaptchaWalk();
    assert Read(es, 0, None, "version", UInt32, None).Ok?;
    assert Read(es, 1, None, "captcha_token", Str, None).Ok?;
    OversizedEntryRejected(s, vals, es, 2);
  }

  /** `CaptchaResponse(req, v)` as written: `v` is accepted and dropped, so `version_` stays `version`. */
  function NewCaptchaResponse(v: u32): (vals: seq<Value>)
    ensures IsInstance(MessageSchema(7), vals)
  {
    V2MessageShape("CaptchaResponse", CaptchaResponseFields);
    Defaults(MessageSchema(7))
  }

  /** `CaptchaResponse(req, v)` as its signature suggests: `version_` is `v`. */
  function NewCaptchaResponseIntended(v: u32): (vals: seq<Value>)
    ensures IsInstance(MessageSchema(7), vals)
  {
    V2MessageShape("CaptchaResponse", CaptchaResponseFields);
    [Num(v), Text(""), Bytes([]), Bytes([])]
  }

  /**
   * The written constructor sends version 1 whatever `v` it is given; the
   * intended one carries `v` and agrees with it on every other member.
   */
  lemma CaptchaReplyVersion(v: u32)
    ensures NewCaptchaResponse(v) == [Num(1), Text(""), Bytes([]), Bytes([])]
    ensures NewCaptchaResponseIntended(v)[0] == Num(v)
    ensures NewCaptchaResponseIntended(v)[1..] == NewCaptchaResponse(v)[1..]
    ensures v != 1 ==> NewCaptchaResponse(v)[0] != NewCaptchaResponseIntended(v)[0]
  {
    V2MessageShape("CaptchaResponse", CaptchaResponseFields);
    assert Defaults(MessageSchema(7))[0] == Num(1);
  }

  /** The registrations in call order; the calls pass the ids 1, 2, ... */
  const Registrations: seq<Registration> := [
    Registration(None, "AuthCreateRequest"),
    Registration(None, "AuthValidateRequest"),
    Registration(None, "AuthAmendRequest"),
    Registration(None, "AuthFetchRequest"),
    Registration(None, "AuthFetchResponse"),
    Registration(None, "AuthResetRequest"),
    Registration(None, "CaptchaRequest"),
    Registration(None, "CaptchaResponse")
  ]

  const Table: Registry.Table := Consecutive(ProtocolId, 1, Registrations)

  /** Ids 1 to 8 of family 1, unnamed, registering the messages in declaration-list order. */
  lemma TableIsSound()
    ensures |Table| == |Declarations| == 8 && Ascending(Table) && DistinctIds(Table) && DistinctTypes(Table)
    ensures InFamily(Table, ProtocolId) && AvoidsNull(Table)
    ensures forall i :: 0 <= i < |Table| ==>
      Table[i].0.id == i + 1 && Table[i].1 == Registration(None, Declarations[i].0)
  {
    ConsecutiveIsSound(ProtocolId, 1, Registrations);
    RegistrationsDeclared();
    PositionsRecovered();
  }

  /** The calls register the declared messages, in declaration-list order, without names. */
  lemma RegistrationsDeclared()
    ensures |Registrations| == |Declarations|
    ensures forall i :: 0 <= i < |Registrations| ==> Registrations[i] == Registration(None, Declarations[i].0)
  {
  }

  /**
   * Proof device, not part of the protocol: where a type name sits in
   * `Registrations`. Its length and fifth letter tell the eight apart, which
   * shows the names are distinct.
   */
  function TypeNamePosition(s: string): int
  {
    if |s| == 19 then 1
    else if |s| == 14 then 6
    else if |s| == 15 then 7
    else if |s| == 17 then (if s[4] == 'C' then 0 else 4)
    else if |s| == 16 then (if s[4] == 'A' then 2 else if s[4] == 'F' then 3 else 5)
    else -1
  }

  lemma PositionsRecovered()
    ensures forall i :: 0 <= i < |Registrations| ==> TypeNamePosition(Registrations[i].typeName) == i
  {
  }

  /** `protocol_setup_auth`: eight successive registrations. */
  method ProtocolSetupAuth(reg: Registrar)
    requires Free(reg, Table)
    modifies reg
    ensures Installed(reg.table, old(reg.table), Table)
    ensures forall i :: 0 <= i < |Table| ==> reg.Resolve(Table[i].0) == Found(Table[i].1)
    ensures reg.version == old(reg.version) && reg.nullId == old(reg.nullId)
  {
    TableIsSound();
    RegisterAll(reg, Table);
  }
}
