/**
 * The `ola` generation's connection set-up messages (ola_front_protocol_init.hpp):
 * serialization-v2 walks of `InitRequest`, `InitResponse`, `AuthRequest`,
 * `AuthResponse` and `Response`, their reply constructors, and
 * `protocol_setup_init`, which configures the protocol and registers them
 * in family 0.
 */
module OlaInit {
  import opened Wrappers
  import opened Wire
  import opened Registry
  import opened Reflect
  import OlaMain
  import OlaCommon

  const ProtocolId: u8 := 0

  /** The static `version` of every message here. */
  const VERSION: u32 := 1

  /**
   * `_rctx.addVersion(_s)`: the connection context's version record, walked
   * as one nested record. Its contents are solid's and are not modelled;
   * the slot holds the record the sender's context supplies and the
   * receiver's context takes.
   */
  const ContextVersionDecl: Declared := Declared("connection_version", Struct, Nested([]), None)

  const InitRequestFields: seq<Declared> := [OlaMain.VersionDecl, ContextVersionDecl]
  const InitResponseFields: seq<Declared> := [OlaMain.VersionDecl, ContextVersionDecl] + ErrorDecls
  const AuthRequestFields: seq<Declared> :=
    [OlaMain.VersionDecl, StrDecl("pass"), StrDecl("user"), StrDecl("captcha_text"), StrDecl("captcha_token")]
  const AuthResponseFields: seq<Declared> := [OlaMain.VersionDecl] + ErrorDecls
  const ResponseFields: seq<Declared> := [OlaMain.VersionDecl] + ErrorDecls

  /** The messages, in registration order. */
  const Declarations: seq<(string, seq<Declared>)> := [
    ("InitRequest", InitRequestFields),
    ("InitResponse", InitResponseFields),
    ("AuthRequest", AuthRequestFields),
    ("AuthResponse", AuthResponseFields),
    ("Response", ResponseFields)
  ]

  function MessageSchema(i: nat): Schema
    requires i < |Declarations|
  {
    V2Message(Declarations[i].0, Declarations[i].1)
  }

  lemma DeclarationsConform()
    ensures forall i :: 0 <= i < |Declarations| ==> InitsConform(Declarations[i].1)
  {
  }

  /**
   * Round trip of every set-up message: none has a bound, so each encodes,
   * `version_` first, and decoding restores every member; `InitRequest` and
   * `InitResponse` carry the context's record second.
   */
  lemma MessagesRestore(i: nat, vals: seq<Value>)
    requires i < |Declarations| && IsInstance(MessageSchema(i), vals)
    ensures var s := MessageSchema(i);
      && s.walk[0] == Field(None, "version", 0, 0, None) && s.members[0].default == Num(1)
      && EncodeWalk(s.walk, vals).Ok?
      && DecodeWalk(s.members, s.walk, Defaults(s), EncodeWalk(s.walk, vals).value) == Decoded(vals, None)
    ensures i <= 1 ==> MessageSchema(i).walk[1] == Field(None, "connection_version", 1, 1, None)
  {
    DeclarationsConform();
    assert Declarations[i].1[0] == OlaMain.VersionDecl;
    assert forall k :: 0 <= k < |Declarations[i].1| ==> Declarations[i].1[k].limit.None?;
    V2MessageShape(Declarations[i].0, Declarations[i].1);
    V2MessageRestores(Declarations[i].0, Declarations[i].1, vals);
  }

  // ---------------------------------------------------------------------------
  // Reply constructors

  /**
   * `InitResponse(req, v)`: `version_` is `v` and `error_` is `-1`; the
   * context's record is left empty for the sender's context to supply.
   */
  function NewInitResponse(v: u32): (vals: seq<Value>)
    ensures IsInstance(MessageSchema(1), vals)
  {
    V2MessageShape("InitResponse", InitResponseFields);
    [Num(v), Nested([]), Num(U32_MAX), Text("")]
  }

  /** `AuthResponse(req, v)` as written: `v` is accepted and dropped, so `version_` stays `version`. */
  function NewAuthResponse(v: u32): (vals: seq<Value>)
    ensures IsInstance(MessageSchema(3), vals)
  {
    V2MessageShape("AuthResponse", AuthResponseFields);
    Defaults(MessageSchema(3))
  }

  /** `AuthResponse(req, v)` as its signature suggests: `version_` is `v`, like `InitResponse`. */
  function NewAuthResponseIntended(v: u32): (vals: seq<Value>)
    ensures IsInstance(MessageSchema(3), vals)
  {
    V2MessageShape("AuthResponse", AuthResponseFields);
    [Num(v), Num(U32_MAX), Text("")]
  }

  /**
   * A reply built for an older peer's version: `InitResponse` carries that
   * version back, and so does the intended `AuthResponse`, while the written
   * one always sends 1. Every reply starts with no error (`error_ == -1`).
   */
  lemma RepliesCarryVersion(v: u32)
    ensures NewInitResponse(v)[0] == Num(v) && NewInitResponse(v)[2] == Num(U32_MAX)
    ensures NewAuthResponse(v) == [Num(VERSION), Num(U32_MAX), Text("")]
    ensures NewAuthResponseIntended(v)[0] == Num(v) && NewAuthResponseIntended(v)[1..] == NewAuthResponse(v)[1..]
    ensures v != VERSION ==> NewAuthResponse(v)[0] != NewInitResponse(v)[0]
  {
    V2MessageShape("AuthResponse", AuthResponseFields);
    assert Defaults(MessageSchema(3))[0] == Num(1);
  }

  // ---------------------------------------------------------------------------
  // Registration

  /** The calls with ids 1 and 2. */
  const InitRegistrations: seq<Registration> := [Registration(None, "InitRequest"), Registration(None, "InitResponse")]

  /** The calls with ids 4, 5 and 6. */
  const AuthRegistrations: seq<Registration> :=
    [Registration(None, "AuthRequest"), Registration(None, "AuthResponse"), Registration(None, "Response")]

  const Table: Registry.Table := Consecutive(ProtocolId, 1, InitRegistrations) + Consecutive(ProtocolId, 4, AuthRegistrations)

  /** Ids 1, 2, 4, 5 and 6 of family 0 (3 is left free), unnamed, for the messages in order. */
  lemma TableIsSound()
    ensures |Table| == |Declarations| && Ascending(Table) && DistinctIds(Table) && DistinctTypes(Table)
    ensures InFamily(Table, ProtocolId) && AvoidsNull(Table)
    ensures forall i :: 0 <= i < |Table| ==> Table[i].1 == Registration(None, Declarations[i].0)
    ensures forall i :: 0 <= i < |Table| ==> Table[i].0.id != 3
  {
    var a, b := Consecutive(ProtocolId, 1, InitRegistrations), Consecutive(ProtocolId, 4, AuthRegistrations);
    ConsecutiveIsSound(ProtocolId, 1, InitRegistrations);
    ConsecutiveIsSound(ProtocolId, 4, AuthRegistrations);
    AscendingAppend(a, b);
    AscendingIsDistinct(Table);
    TableDeclared();
  }

  /** The calls register the declared messages, in declaration-list order, without names. */
  lemma TableDeclared()
    ensures |Table| == |Declarations| && DistinctTypes(Table)
    ensures forall i :: 0 <= i < |Table| ==> Table[i].1 == Registration(None, Declarations[i].0)
  {
    assert Table[..2] == Consecutive(ProtocolId, 1, InitRegistrations);
    assert Table[2..] == Consecutive(ProtocolId, 4, AuthRegistrations);
    assert forall i :: 0 <= i < |Table| ==> TypeNamePosition(Table[i].1.typeName) == i;
  }

  /**
   * Proof device, not part of the protocol: where a type name sits in the
   * table. Its length and first letter tell the five apart, which shows the
   * names are distinct.
   */
  function TypeNamePosition(s: string): int
  {
    if |s| == 8 then 4
    else if |s| == 11 then (if s[0] == 'I' then 0 else 2)
    else if |s| == 12 then (if s[0] == 'I' then 1 else 3)
    else -1
  }

  /**
   * `protocol_setup_init`: `protocol_setup` (version 2.0, null id `(0,0)`),
   * then five registrations. The null id stays reserved and id 3 unregistered.
   */
  method ProtocolSetupInit(reg: Registrar)
    requires forall i :: 0 <= i < |Table| ==> Table[i].0 !in reg.table
    modifies reg
    ensures reg.version == Some((2, 0)) && reg.nullId == Some(TypeId(0, 0))
    ensures Installed(reg.table, old(reg.table), Table)
    ensures forall i :: 0 <= i < |Table| ==> reg.Resolve(Table[i].0) == Found(Table[i].1)
    ensures reg.Resolve(TypeId(0, 0)) == Reserved
    ensures TypeId(0, 3) in reg.table <==> TypeId(0, 3) in old(reg.table)
  {
    TableIsSound();
    OlaCommon.ProtocolSetup(reg);
    RegisterAll(reg, Table);
  }
}
