/**
 * `ola::front::core`: the `ola` generation's copy of the core protocol.
 * Its `Version`, `AuthRequest`, `AuthResponse`, `InitResponse` and
 * `Response` walk exactly what the `myapps` core walks (same tags, same
 * gates, same clamp), so the definitions are shared with `FrontCore`; this
 * module restates their behaviour for this copy and owns its registration.
 */
module OlaCore {
  import opened Wrappers
  import opened Wire
  import opened Registry
  import opened Reflect
  import FrontCore

  const ProtocolId: u8 := 0

  type VersionFields = FrontCore.VersionFields
  type Version = FrontCore.Version
  type InitResponse = FrontCore.InitResponse

  /**
   * The `Version` walk of this copy: tag 1, then tags 3 to 6 only for a
   * record of this build's version; decoding what it encoded restores the
   * record, or only `version_` for another version; the clamp never clears.
   */
  lemma VersionWalk(dst: VersionFields, src: VersionFields, extra: seq<Entry>)
    ensures TagsOf(FrontCore.EncodeVersion(src))
         == if src.version_ == FrontCore.VERSION then [Some(1), Some(3), Some(4), Some(5), Some(6)] else [Some(1)]
    ensures FrontCore.DecodeVersion(dst, FrontCore.EncodeVersion(src) + extra, FrontCore.VERSION)
         == FrontCore.VersionDecoded(if src.version_ == FrontCore.VERSION then src else dst.(version_ := src.version_), None)
    ensures FrontCore.DecodeVersion(dst, FrontCore.EncodeVersion(src) + extra, FrontCore.VERSION)
         == FrontCore.DecodeCounters(dst.(version_ := src.version_), FrontCore.EncodeVersion(src) + extra)
  {
    FrontCore.VersionEncodingTags(src);
    FrontCore.VersionRoundTrip(dst, src, extra);
    var es := FrontCore.EncodeVersion(src) + extra;
    assert es[0] == Tagged(1, "version", Num(src.version_));
    FrontCore.ClampNeverFires(dst, es);
  }

  /** `clear()` and `operator<=` of this copy, with the same static `auth_request` quirk. */
  lemma VersionOrdering(v: VersionFields, a: VersionFields, b: VersionFields, x: u32)
    ensures v.Cleared().auth_request_ == U32_MAX && v.Cleared().auth_response_ == U32_MAX
    ensures v.Cleared().response_ == U32_MAX && v.Cleared().init_response_ == v.init_response_
    ensures a.(auth_request_ := x).LessEq(b) == a.LessEq(b)
    ensures !FrontCore.LocalVersion.(auth_request_ := 0).LessEq(FrontCore.LocalVersion.(auth_request_ := 0))
  {
    FrontCore.ClearedFields(v);
    FrontCore.LessEqIgnoresOwnAuthRequest(a, b, x);
    FrontCore.LessEqAdmitsLargerAuthRequest();
  }

  /**
   * The messages of this copy: the four strings of `AuthRequest` under tags
   * 1 to 4, and every error-and-message pair (the gated `InitResponse`
   * when both gates are open) restored by a round trip.
   */
  lemma MessagesRestore(vals: seq<Value>, sender: Option<VersionFields>, receiver: Option<VersionFields>)
    requires IsInstance(FrontCore.ResponseSchema, vals)
    ensures Plain(FrontCore.AuthRequestSchema) && Plain(FrontCore.AuthResponseSchema) && Plain(FrontCore.ResponseSchema)
    ensures var s := FrontCore.ResponseSchema;
      DecodeWalk(s.members, s.walk, Defaults(s), EncodeWalk(s.walk, vals).value) == Decoded(vals, None)
    ensures FrontCore.InitResponseGate(sender) && FrontCore.InitResponseGate(receiver) ==>
      var s := FrontCore.InitResponseSchema;
      DecodeWalk(s.members, s.walk, Defaults(s), EncodeWalk(s.walk, vals).value) == Decoded(vals, None)
  {
    FrontCore.AuthRequestIsPlain();
    FrontCore.ErrorMessagesArePlain();
    PlainRestores(FrontCore.ResponseSchema, vals);
    assert FrontCore.InitResponseSchema.members == FrontCore.ResponseSchema.members;
    FrontCore.InitResponseRoundTrip(vals, sender, receiver);
  }

  /** The registrations in call order; the calls pass the ids 1 to 4. */
  const Registrations: seq<Registration> := [
    Registration(Some("InitResponse"), "InitResponse"),
    Registration(Some("AuthRequest"), "AuthRequest"),
    Registration(Some("AuthResponse"), "AuthResponse"),
    Registration(Some("Response"), "Response")
  ]

  const Table: Registry.Table := Consecutive(ProtocolId, 1, Registrations)

  /** This copy registers the same four ids, names and types as the `myapps` core. */
  lemma TableIsSound()
    ensures |Table| == 4 && DistinctIds(Table) && DistinctNames(Table) && DistinctTypes(Table)
    ensures InFamily(Table, ProtocolId) && AvoidsNull(Table)
    ensures Table == FrontCore.Table
  {
    FrontCore.TableIsSound();
  }

  /** `configure_protocol` of this copy. */
  method ConfigureProtocol(reg: Registrar)
    requires Free(reg, Table)
    modifies reg
    ensures Installed(reg.table, old(reg.table), Table)
    ensures forall i :: 0 <= i < |Table| ==> reg.Resolve(Table[i].0) == Found(Table[i].1)
    ensures reg.version == old(reg.version) && reg.nullId == old(reg.nullId)
  {
    TableIsSound();
    FrontCore.ConfigureProtocol(reg);
  }
}
