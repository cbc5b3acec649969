/**
 * `ola::front::main` (ola_front_protocol_main.hpp): the main protocol
 * family of the `ola` generation. Its `Version` record is walked with
 * tagged reflection; every message is walked with serialization v2: the
 * message's own version first, then its fields positionally.
 */
module OlaMain {
  import opened Wrappers
  import opened Wire
  import opened Registry
  import opened Reflect
  import opened OlaProtocol
  import FrontAuth

  const ProtocolId: u8 := 2

  const VERSION: u32 := 1
  const INIT_REQUEST: u32 := 1

  /** `main::Version` has the members, `clear()` and `operator<=` of `auth::Version`. */
  type VersionFields = FrontAuth.VersionFields
  type VersionDecoded = FrontAuth.VersionDecoded

  const LocalVersion: VersionFields := FrontAuth.VersionFields(VERSION, INIT_REQUEST)

  /**
   * The const walk: `version_` under tag 0, then `init_request_` under tag 2
   * for this build's version. The lambda the source adds under its own tag 1
   * carries no entry of its own here: only the adds inside it are entries.
   */
  function EncodeVersion(v: VersionFields): seq<Entry>
  {
    [Tagged(0, "version", Num(v.version_))]
    + if v.version_ == VERSION then [Tagged(2, "init_request", Num(v.init_request_))] else []
  }

  /** The decoding walk; `seen` is the static `version` read through the object. */
  function DecodeVersion(v: VersionFields, es: seq<Entry>, seen: u32): VersionDecoded
  {
    match ReadU32(es, 0, 0, "version")
    case Err(e) => FrontAuth.VersionDecoded(v, Some(e))
    case Ok(x) =>
      var v := v.(version_ := x);
      if seen > VERSION then FrontAuth.VersionDecoded(v.Cleared(), None)
      else DecodeInitRequestCounter(v, es)
  }

  function DecodeInitRequestCounter(v: VersionFields, es: seq<Entry>): VersionDecoded
  {
    if v.version_ != VERSION then FrontAuth.VersionDecoded(v, None)
    else
      match ReadU32(es, 1, 2, "init_request")
      case Err(e) => FrontAuth.VersionDecoded(v, Some(e))
      case Ok(a) => FrontAuth.VersionDecoded(v.(init_request_ := a), None)
  }

  class Version {
    /** The static `version` reached through the object; always `VERSION`. */
    const version: u32
    var version_: u32
    var init_request_: u32

    constructor ()
      ensures version == VERSION && Fields() == LocalVersion
    {
      version := VERSION;
      version_, init_request_ := VERSION, INIT_REQUEST;
    }

    function Fields(): VersionFields
      reads this
    {
      FrontAuth.VersionFields(version_, init_request_)
    }

    /** `clear()`. */
    method Clear()
      modifies this
      ensures init_request_ == U32_MAX && version_ == old(version_)
    {
      init_request_ := U32_MAX;
    }

    function Encode(): seq<Entry>
      reads this
    {
      EncodeVersion(Fields())
    }

    method Decode(es: seq<Entry>) returns (error: Option<Error>)
      modifies this
      ensures FrontAuth.VersionDecoded(Fields(), error) == DecodeVersion(old(Fields()), es, version)
    {
      var r := ReadU32(es, 0, 0, "version");
      if r.Err? {
        return Some(r.error);
      }
      version_ := r.value;
      if version > VERSION {
        Clear();
        return None;
      }
      if version_ == VERSION {
        r := ReadU32(es, 1, 2, "init_request");
        if r.Err? {
          return Some(r.error);
        }
        init_request_ := r.value;
      }
      return None;
    }
  }

  /**
   * Round trip of `main::Version`: tags 0 and 2 for this build's version,
   * tag 0 alone for another; decoding restores the record, or only
   * `version_` for another version, and the clamp never clears.
   */
  lemma VersionRoundTrip(dst: VersionFields, src: VersionFields, extra: seq<Entry>)
    ensures TagsOf(EncodeVersion(src)) == if src.version_ == VERSION then [Some(0), Some(2)] else [Some(0)]
    ensures DecodeVersion(dst, EncodeVersion(src) + extra, VERSION)
         == FrontAuth.VersionDecoded(if src.version_ == VERSION then src else dst.(version_ := src.version_), None)
  {
    var es := EncodeVersion(src) + extra;
    assert es[0] == Tagged(0, "version", Num(src.version_));
    if src.version_ == VERSION {
      assert es[1] == Tagged(2, "init_request", Num(src.init_request_));
    }
  }

  /** The evidently intended walk: a `version_` newer than this build's clears the counter. */
  function DecodeVersionIntended(v: VersionFields, es: seq<Entry>): VersionDecoded
  {
    match ReadU32(es, 0, 0, "version")
    case Err(e) => FrontAuth.VersionDecoded(v, Some(e))
    case Ok(x) =>
      var v := v.(version_ := x);
      if v.version_ > VERSION then FrontAuth.VersionDecoded(v.Cleared(), None)
      else DecodeInitRequestCounter(v, es)
  }

  /**
   * A newer peer (`version_ == 2`) leaves the receiver's `init_request_` as
   * it was with the walk as written, where the intended walk poisons it.
   */
  lemma NewerPeerKeepsCounter()
    ensures DecodeVersion(LocalVersion, [Tagged(0, "version", Num(2))], VERSION).fields.init_request_ == INIT_REQUEST
    ensures DecodeVersionIntended(LocalVersion, [Tagged(0, "version", Num(2))]).fields.init_request_ == U32_MAX
  {
  }

  /**
   * The intended walk clears the counter of a record from a newer peer and
   * reports no error; for every other record it decodes as written.
   */
  lemma IntendedClearsNewerPeer(v: VersionFields, es: seq<Entry>)
    ensures ReadU32(es, 0, 0, "version").Ok? && ReadU32(es, 0, 0, "version").value > VERSION ==>
      DecodeVersionIntended(v, es)
      == FrontAuth.VersionDecoded(FrontAuth.VersionFields(ReadU32(es, 0, 0, "version").value, U32_MAX), None)
    ensures ReadU32(es, 0, 0, "version").Ok? && ReadU32(es, 0, 0, "version").value <= VERSION ==>
      DecodeVersionIntended(v, es) == DecodeVersion(v, es, VERSION)
  {
  }

  // ---------------------------------------------------------------------------
  // Messages

  /** `addVersion<T>(_s, version_, "version")`: every message's `version_`, initially 1. */
  const VersionDecl: Declared := U32Decl("version", 1)

  /** `limit(1024 * 1024)` on every `image_blob_`. */
  const ImageBlobLimit: nat := 1024 * 1024
  /** The chunk size and `limit(100 * 1024)` of the uploaded file. */
  const UploadLimit: nat := 100 * 1024

  const ImageBlobDecl: Declared := Declared("image_blob", Blob, Bytes([]), Some(ImageBlobLimit))
  const SizeDecl: Declared := Declared("size", UInt64, Num(0), None)

  /** A default-constructed `FetchOptionBitsetT`: no option set. */
  const NoOptions: seq<bool> := [false, false, false, false, false, false, false, false, false]

  const EmptyBuild: Build := Build("", "", [], [], [])
  const EmptyConfiguration: Configuration := Configuration("", "", 0, [], [], [], [], [], Media("", []))

  const ListOSesRequestFields: seq<Declared> := [VersionDecl]
  const ListOSesResponseFields: seq<Declared> :=
    [VersionDecl] + ErrorDecls + [Declared("osvec", Strings, List([]), None)]
  /** `choice_` has no initializer in the source; the model starts it at 0. */
  const ListAppsRequestFields: seq<Declared> := [VersionDecl, Declared("choice", UInt8, Num(0), None)]
  const ListAppsResponseFields: seq<Declared> :=
    [VersionDecl] + ErrorDecls + [Declared("app_vec", ListOf(ListApplicationItemKind), List([]), None)]
  const ListStoreRequestFields: seq<Declared> := [VersionDecl, StrDecl("storage_id"), StrDecl("path")]
  const ListStoreResponseFields: seq<Declared> :=
    [VersionDecl, U32Decl("node_version", RecordVersion)] + ErrorDecls
    + [Declared("node_dq", ListOf(ListStoreNodeKind), List([]), None)]
  const FetchStoreRequestFields: seq<Declared> :=
    [VersionDecl, StrDecl("storage_id"), StrDecl("path"), Declared("offset", UInt64, Num(0), None), SizeDecl]
  const CreateBuildRequestFields: seq<Declared> :=
    [VersionDecl, U32Decl("build_version", RecordVersion), StrDecl("app_id"), StrDecl("unique"), SizeDecl,
     StrDecl("sha_sum"), ImageBlobDecl, Declared("build", BuildKind, BuildValue(EmptyBuild), None)]
  const CreateMediaRequestFields: seq<Declared> :=
    [VersionDecl, StrDecl("app_id"), StrDecl("unique"), SizeDecl, StrDecl("sha_sum")]
  const FetchAppRequestFields: seq<Declared> := [VersionDecl, StrDecl("app_id"), StrDecl("os_id")]
  const FetchAppResponseFields: seq<Declared> :=
    [VersionDecl, U32Decl("application_version", RecordVersion)] + ErrorDecls
    + [Declared("application", ApplicationKind, ApplicationValue(Application("")), None),
       Declared("item_vec", ListOf(AppItemEntryKind), List([]), None)]
  const ChangeAppItemStateRequestFields: seq<Declared> :=
    [VersionDecl, StrDecl("app_id"), StrDecl("os_id"),
     Declared("item", AppItemEntryKind, Record([Text(""), Num(0)]), None),
     Declared("new_state", UInt8, Num(0), None)]
  const FetchBuildRequestFields: seq<Declared> := [VersionDecl, StrDecl("app_id"), StrDecl("build_id")]
  const FetchBuildResponseFields: seq<Declared> :=
    [VersionDecl, U32Decl("build_version", RecordVersion)] + ErrorDecls
    + [StrDecl("storage_id"), ImageBlobDecl, Declared("build", BuildKind, BuildValue(EmptyBuild), None)]
  const FetchBuildConfigurationRequestFields: seq<Declared> :=
    [VersionDecl, StrDecl("app_id"), StrDecl("build_id"), StrDecl("lang"), StrDecl("os_id"),
     Declared("fetch_options", Bitset(OptionsCount), Bits(NoOptions), None),
     Declared("property_vec", Strings, List([]), None)]
  const FetchBuildConfigurationResponseFields: seq<Declared> :=
    [VersionDecl, U32Decl("configuration_version", RecordVersion)] + ErrorDecls
    + [StrDecl("app_unique"), StrDecl("build_unique"), StrDecl("build_storage_id"), StrDecl("media_storage_id"),
       Declared("configuration", ConfigurationKind, ConfigurationValue(EmptyConfiguration), None), ImageBlobDecl]
  const FetchBuildUpdatesRequestFields: seq<Declared> :=
    [VersionDecl, StrDecl("lang"), StrDecl("os_id"), Declared("app_id_vec", StringPairs, List([]), None)]
  const FetchBuildUpdatesResponseFields: seq<Declared> :=
    [VersionDecl] + ErrorDecls + [Declared("app_vec", StringPairs, List([]), None)]
  const CreateAppRequestFields: seq<Declared> :=
    [VersionDecl, U32Decl("application_version", RecordVersion),
     Declared("application", ApplicationKind, ApplicationValue(Application("")), None)]

  /** The messages whose walk adds every member once, in declaration order, in registration order. */
  const Declarations: seq<(string, seq<Declared>)> := [
    ("ListOSesRequest", ListOSesRequestFields),
    ("ListOSesResponse", ListOSesResponseFields),
    ("ListAppsRequest", ListAppsRequestFields),
    ("ListAppsResponse", ListAppsResponseFields),
    ("ListStoreRequest", ListStoreRequestFields),
    ("ListStoreResponse", ListStoreResponseFields),
    ("FetchStoreRequest", FetchStoreRequestFields),
    ("CreateBuildRequest", CreateBuildRequestFields),
    ("CreateMediaRequest", CreateMediaRequestFields),
    ("FetchAppRequest", FetchAppRequestFields),
    ("FetchAppResponse", FetchAppResponseFields),
    ("ChangeAppItemStateRequest", ChangeAppItemStateRequestFields),
    ("FetchBuildRequest", FetchBuildRequestFields),
    ("FetchBuildResponse", FetchBuildResponseFields),
    ("FetchBuildConfigurationRequest", FetchBuildConfigurationRequestFields),
    ("FetchBuildConfigurationResponse", FetchBuildConfigurationResponseFields),
    ("FetchBuildUpdatesRequest", FetchBuildUpdatesRequestFields),
    ("FetchBuildUpdatesResponse", FetchBuildUpdatesResponseFields),
    ("CreateAppRequest", CreateAppRequestFields)
  ]

  function MessageSchema(i: nat): Schema
    requires i < |Declarations|
  {
    V2Message(Declarations[i].0, Declarations[i].1)
  }

  lemma SharedDeclsConform()
    ensures InitsConform([VersionDecl]) && InitsConform(ErrorDecls)
    ensures InitsConform([ImageBlobDecl, SizeDecl])
    ensures HasKind(BuildValue(EmptyBuild), BuildKind)
    ensures HasKind(ConfigurationValue(EmptyConfiguration), ConfigurationKind)
    ensures HasKind(ApplicationValue(Application("")), ApplicationKind)
  {
  }

  lemma ListDeclsConform()
    ensures InitsConform(ListOSesRequestFields) && InitsConform(ListOSesResponseFields)
    ensures InitsConform(ListAppsRequestFields) && InitsConform(ListAppsResponseFields)
    ensures InitsConform(ListStoreRequestFields) && InitsConform(ListStoreResponseFields)
  {
    SharedDeclsConform();
  }

  lemma StoreDeclsConform()
    ensures InitsConform(FetchStoreRequestFields) && InitsConform(CreateBuildRequestFields)
    ensures InitsConform(CreateMediaRequestFields) && InitsConform(CreateAppRequestFields)
  {
    SharedDeclsConform();
  }

  lemma AppDeclsConform()
    ensures InitsConform(FetchAppRequestFields) && InitsConform(FetchAppResponseFields)
    ensures InitsConform(ChangeAppItemStateRequestFields)
  {
    SharedDeclsConform();
    assert HasKind(Record([Text(""), Num(0)]), AppItemEntryKind);
  }

  lemma BuildDeclsConform()
    ensures InitsConform(FetchBuildRequestFields) && InitsConform(FetchBuildResponseFields)
    ensures InitsConform(FetchBuildConfigurationRequestFields) && InitsConform(FetchBuildConfigurationResponseFields)
    ensures InitsConform(FetchBuildUpdatesRequestFields) && InitsConform(FetchBuildUpdatesResponseFields)
  {
    BuildFetchDeclsConform();
    ConfigurationDeclsConform();
    UpdatesDeclsConform();
  }

  lemma BuildFetchDeclsConform()
    ensures InitsConform(FetchBuildRequestFields) && InitsConform(FetchBuildResponseFields)
  {
    SharedDeclsConform();
  }

  lemma ConfigurationDeclsConform()
    ensures InitsConform(FetchBuildConfigurationRequestFields) && InitsConform(FetchBuildConfigurationResponseFields)
  {
    SharedDeclsConform();
    assert HasKind(Bits(NoOptions), Bitset(OptionsCount));
  }

  lemma UpdatesDeclsConform()
    ensures InitsConform(FetchBuildUpdatesRequestFields) && InitsConform(FetchBuildUpdatesResponseFields)
  {
    SharedDeclsConform();
  }

  lemma DeclarationsConform()
    ensures forall i :: 0 <= i < |Declarations| ==> InitsConform(Declarations[i].1)
  {
    ListDeclsConform();
    StoreDeclsConform();
    AppDeclsConform();
    BuildDeclsConform();
  }

  /** Every message walks its own `version_` first, initially 1. */
  lemma VersionWalkedFirst()
    ensures forall i :: 0 <= i < |Declarations| ==>
      |Declarations[i].1| > 0 && Declarations[i].1[0] == VersionDecl
  {
  }

  /**
   * Round trip of every message: it encodes exactly when each bounded member
   * fits its bound, and decoding what it encoded restores every member,
   * `version_` first.
   */
  lemma MessagesRestore(i: nat, vals: seq<Value>)
    requires i < |Declarations| && IsInstance(MessageSchema(i), vals)
    ensures var s := MessageSchema(i);
      && s.walk[0] == Field(None, "version", 0, 0, None) && s.members[0].default == Num(1)
      && (EncodeWalk(s.walk, vals).Ok? <==>
            forall k :: 0 <= k < |s.walk| ==> Fits(vals[k], Declarations[i].1[k].limit))
      && (EncodeWalk(s.walk, vals).Ok? ==>
            DecodeWalk(s.members, s.walk, Defaults(s), EncodeWalk(s.walk, vals).value) == Decoded(vals, None))
  {
    DeclarationsConform();
    VersionWalkedFirst();
    V2MessageShape(Declarations[i].0, Declarations[i].1);
    V2MessageRestores(Declarations[i].0, Declarations[i].1, vals);
  }

  /** The only bounded members are the `image_blob_`s, each at 1 MiB. */
  lemma OnlyImageBlobsBounded()
    ensures forall i, k ::
      0 <= i < |Declarations| && 0 <= k < |Declarations[i].1| && Declarations[i].1[k].limit.Some? ==>
        Declarations[i].1[k] == ImageBlobDecl
    ensures CreateBuildRequestFields[6] == FetchBuildResponseFields[5] == FetchBuildConfigurationResponseFields[9] == ImageBlobDecl
  {
    BlobsBoundedIn(0, 7);
    BlobsBoundedIn(7, 13);
    BlobsBoundedIn(13, |Declarations|);
  }

  /** `OnlyImageBlobsBounded` for the messages `lo` to `hi - 1`. */
  lemma BlobsBoundedIn(lo: nat, hi: nat)
    requires lo <= hi <= |Declarations| && hi - lo <= 7
    ensures forall i, k ::
      lo <= i < hi && 0 <= k < |Declarations[i].1| && Declarations[i].1[k].limit.Some? ==>
        Declarations[i].1[k] == ImageBlobDecl
  {
  }

  /**
   * A received image blob over 1 MiB stops decoding with a limit error,
   * once every member before it has been read.
   */
  lemma OversizedImageRejected(i: nat, vals: seq<Value>, es: seq<Entry>, k: nat)
    requires i < |Declarations| && IsInstance(MessageSchema(i), vals)
    requires k < |Declarations[i].1| && k < |es| && Declarations[i].1[k].limit.Some?
    requires es[k].value.Bytes? && |es[k].value.b| > ImageBlobLimit
    requires forall j :: 0 <= j < k ==>
      Read(es, j, None, Declarations[i].1[j].name, Declarations[i].1[j].kind, Declarations[i].1[j].limit).Ok?
    ensures var s := MessageSchema(i);
      DecodeWalk(s.members, s.walk, vals, es).error == Some(LimitExceeded("image_blob"))
  {
    var s := MessageSchema(i);
    DeclarationsConform();
    OnlyImageBlobsBounded();
    V2MessageShape(Declarations[i].0, Declarations[i].1);
    OversizedEntryRejected(s, vals, es, k);
  }

  /**
   * Every response begins with its status: `version_`, then the version of
   * the utility record it carries, if any (initially that record's
   * `version`), then `error_` (initially `-1`) and `message_`.
   */
  lemma ResponsesBeginWithStatus()
    ensures ListOSesResponseFields[..3] == ListAppsResponseFields[..3] == FetchBuildUpdatesResponseFields[..3]
         == [VersionDecl] + ErrorDecls
    ensures ListStoreResponseFields[..4] == [VersionDecl, U32Decl("node_version", RecordVersion)] + ErrorDecls
    ensures FetchAppResponseFields[..4] == [VersionDecl, U32Decl("application_version", RecordVersion)] + ErrorDecls
    ensures FetchBuildResponseFields[..4] == [VersionDecl, U32Decl("build_version", RecordVersion)] + ErrorDecls
    ensures FetchBuildConfigurationResponseFields[..4]
         == [VersionDecl, U32Decl("configuration_version", RecordVersion)] + ErrorDecls
  {
  }

  // ---------------------------------------------------------------------------
  // Messages with direction-dependent streams

  /**
   * `FetchStoreResponse`: the serializer sends `iss_` and the deserializer
   * fills `ioss_` (members 4 and 5); the other members in order.
   */
  const FetchStoreResponseSchema: Schema := Schema("FetchStoreResponse",
    [U32Member("version_", 1), U32Member("error_", U32_MAX), StrMember("message_"),
     Member("size_", Int64, Num(0)), Member("iss_", Blob, Bytes([])), Member("ioss_", Blob, Bytes([]))],
    [PositionalField("version", 0), PositionalField("error", 1), PositionalField("message", 2),
     PositionalField("size", 3), Field(None, "stream", 4, 5, None)])

  /**
   * `UploadRequest`: the const overload sends `ifs_` in chunks of 100 KiB,
   * bounded at 100 KiB; the other fills `oss_` under the same bound.
   */
  const UploadRequestSchema: Schema := Schema("UploadRequest",
    [U32Member("version_", 1), Member("ifs_", Blob, Bytes([])), Member("oss_", Blob, Bytes([]))],
    [PositionalField("version", 0), Field(None, "file", 1, 2, Some(UploadLimit))])

  lemma StoreStreamShape()
    ensures var s := FetchStoreResponseSchema;
      && WellFormed(s) && DistinctDestinations(s.walk) && !Written(s.walk, 4)
      && |s.walk| == 5 && |s.members| == 6 && s.members[4].default == Bytes([])
      && (forall k :: 0 <= k < 4 ==> s.walk[k].src == s.walk[k].dst == k)
      && s.walk[4].src == 4 && s.walk[4].dst == 5
      && (forall k :: 0 <= k < 5 ==> s.walk[k].limit.None?)
  {
    StoreFields();
    StreamWalkShape(FetchStoreResponseSchema);
  }

  /** A five-field walk whose last field moves member 4 into member 5 of the same kind. */
  lemma StreamWalkShape(s: Schema)
    requires |s.walk| == 5 && |s.members| == 6
    requires s.walk[0].src == s.walk[0].dst == 0 && s.walk[1].src == s.walk[1].dst == 1
    requires s.walk[2].src == s.walk[2].dst == 2 && s.walk[3].src == s.walk[3].dst == 3
    requires s.walk[4].src == 4 && s.walk[4].dst == 5 && s.members[4].kind == s.members[5].kind
    requires forall k :: 0 <= k < 5 ==> s.walk[k].limit.None?
    requires forall i :: 0 <= i < |s.members| ==> HasKind(s.members[i].default, s.members[i].kind)
    ensures WellFormed(s) && DistinctDestinations(s.walk) && !Written(s.walk, 4)
    ensures forall k :: 0 <= k < 4 ==> s.walk[k].src == s.walk[k].dst == k
  {
    assert forall k :: 0 <= k < |s.walk| ==> s.walk[k].dst == k + (if k == 4 then 1 else 0);
    forall f | f in s.walk
      ensures f.src < |s.members| && f.dst < |s.members| && s.members[f.src].kind == s.members[f.dst].kind
    {
      var k :| 0 <= k < |s.walk| && s.walk[k] == f;
    }
  }

  /** The fields and members of `FetchStoreResponse`, one by one. */
  lemma StoreFields()
    ensures var s := FetchStoreResponseSchema;
      && |s.walk| == 5 && |s.members| == 6
      && s.walk[0] == PositionalField("version", 0) && s.walk[1] == PositionalField("error", 1)
      && s.walk[2] == PositionalField("message", 2) && s.walk[3] == PositionalField("size", 3)
      && s.walk[4] == Field(None, "stream", 4, 5, None)
      && s.members[0] == U32Member("version_", 1) && s.members[1] == U32Member("error_", U32_MAX)
      && s.members[2] == StrMember("message_") && s.members[3] == Member("size_", Int64, Num(0))
      && s.members[4] == Member("iss_", Blob, Bytes([])) && s.members[5] == Member("ioss_", Blob, Bytes([]))
  {
  }

  /** What is sent from `iss_` arrives in `ioss_`; the receiver's `iss_` stays empty. */
  lemma StoreStreamRoundTrip(vals: seq<Value>)
    requires IsInstance(FetchStoreResponseSchema, vals)
    ensures var s := FetchStoreResponseSchema;
      && EncodeWalk(s.walk, vals).Ok?
      && var d := DecodeWalk(s.members, s.walk, Defaults(s), EncodeWalk(s.walk, vals).value);
      && d.error == None && d.fields[..4] == vals[..4] && d.fields[4] == Bytes([]) && d.fields[5] == vals[4]
  {
    StoreStreamShape();
    StreamMoves(FetchStoreResponseSchema, vals);
  }

  lemma StreamMoves(s: Schema, vals: seq<Value>)
    requires WellFormed(s) && IsInstance(s, vals) && DistinctDestinations(s.walk) && !Written(s.walk, 4)
    requires |s.walk| == 5 && |s.members| == 6 && s.members[4].default == Bytes([])
    requires forall k :: 0 <= k < 4 ==> s.walk[k].src == s.walk[k].dst == k
    requires s.walk[4].src == 4 && s.walk[4].dst == 5
    requires forall k :: 0 <= k < 5 ==> s.walk[k].limit.None?
    ensures EncodeWalk(s.walk, vals).Ok?
    ensures var d := DecodeWalk(s.members, s.walk, Defaults(s), EncodeWalk(s.walk, vals).value);
      && d.error == None && d.fields[..4] == vals[..4] && d.fields[4] == Bytes([]) && d.fields[5] == vals[4]
  {
    assert AllFit(s.walk, vals) by {
      forall f | f in s.walk
        ensures Fits(vals[f.src], f.limit)
      {
        var k :| 0 <= k < |s.walk| && s.walk[k] == f;
      }
    }
    RoundTrip(s, vals);
    var d := DecodeWalk(s.members, s.walk, Defaults(s), EncodeWalk(s.walk, vals).value);
    assert d.fields[5] == d.fields[s.walk[4].dst];
    forall k | 0 <= k < 4
      ensures d.fields[k] == vals[k]
    {
      assert d.fields[k] == d.fields[s.walk[k].dst];
    }
    assert d.fields[..4] == vals[..4];
  }

  /**
   * An uploaded file of at most 100 KiB arrives in `oss_`; a larger one
   * cannot be sent, and a larger one received stops decoding.
   */
  lemma UploadRoundTrip(vals: seq<Value>, es: seq<Entry>)
    requires IsInstance(UploadRequestSchema, vals)
    ensures var s := UploadRequestSchema;
      && (EncodeWalk(s.walk, vals).Ok? <==> |vals[1].b| <= UploadLimit)
      && (EncodeWalk(s.walk, vals).Ok? ==>
            DecodeWalk(s.members, s.walk, Defaults(s), EncodeWalk(s.walk, vals).value)
            == Decoded([vals[0], Bytes([]), vals[1]], None))
    ensures |es| >= 2 && HasKind(es[0].value, UInt32) && es[1].value.Bytes? && |es[1].value.b| > UploadLimit ==>
      DecodeWalk(UploadRequestSchema.members, UploadRequestSchema.walk, vals, es).error == Some(LimitExceeded("file"))
  {
    UploadFields();
    UploadEncodes(UploadRequestSchema, vals);
    if |es| >= 2 && HasKind(es[0].value, UInt32) && es[1].value.Bytes? && |es[1].value.b| > UploadLimit {
      assert Read(es, 0, None, "version", UInt32, None).Ok?;
      OversizedEntryRejected(UploadRequestSchema, vals, es, 1);
    }
  }

  /** The fields and members of `UploadRequest`, one by one. */
  lemma UploadFields()
    ensures var s := UploadRequestSchema;
      && |s.walk| == 2 && |s.members| == 3
      && s.walk[0] == PositionalField("version", 0) && s.walk[1] == Field(None, "file", 1, 2, Some(UploadLimit))
      && s.members[0] == U32Member("version_", 1) && s.members[1] == Member("ifs_", Blob, Bytes([]))
      && s.members[2] == Member("oss_", Blob, Bytes([]))
  {
  }

  /** A two-field walk that moves a bounded blob from member 1 into member 2. */
  predicate UploadShaped(s: Schema)
  {
    && |s.walk| == 2 && |s.members| == 3
    && s.walk[0] == PositionalField("version", 0) && s.walk[1] == Field(None, "file", 1, 2, Some(UploadLimit))
    && s.members[0].kind == UInt32 && s.members[1].kind == s.members[2].kind == Blob
    && (forall i :: 0 <= i < |s.members| ==> HasKind(s.members[i].default, s.members[i].kind))
    && s.members[1].default == Bytes([])
  }

  lemma UploadEncodes(s: Schema, vals: seq<Value>)
    requires UploadShaped(s) && IsInstance(s, vals)
    ensures EncodeWalk(s.walk, vals).Ok? <==> |vals[1].b| <= UploadLimit
    ensures EncodeWalk(s.walk, vals).Ok? ==>
      DecodeWalk(s.members, s.walk, Defaults(s), EncodeWalk(s.walk, vals).value) == Decoded([vals[0], Bytes([]), vals[1]], None)
  {
    assert vals[1].Bytes? by {
      assert HasKind(vals[1], s.members[1].kind);
    }
    AllFitAt(s.walk, vals, 1);
    if |vals[1].b| <= UploadLimit {
      UploadMoves(s, vals);
    }
  }

  lemma UploadWalkFacts(s: Schema)
    requires UploadShaped(s)
    ensures WellFormed(s) && !Written(s.walk, 1) && DistinctDestinations(s.walk)
  {
    forall f | f in s.walk
      ensures f.src < |s.members| && f.dst < |s.members| && s.members[f.src].kind == s.members[f.dst].kind
    {
      var k :| 0 <= k < |s.walk| && s.walk[k] == f;
    }
  }

  lemma UploadMoves(s: Schema, vals: seq<Value>)
    requires UploadShaped(s) && IsInstance(s, vals) && AllFit(s.walk, vals)
    ensures EncodeWalk(s.walk, vals).Ok?
    ensures DecodeWalk(s.members, s.walk, Defaults(s), EncodeWalk(s.walk, vals).value) == Decoded([vals[0], Bytes([]), vals[1]], None)
  {
    UploadWalkFacts(s);
    RoundTrip(s, vals);
    var d := DecodeWalk(s.members, s.walk, Defaults(s), EncodeWalk(s.walk, vals).value);
    assert d.fields[s.walk[0].dst] == vals[s.walk[0].src];
    assert d.fields[s.walk[1].dst] == vals[s.walk[1].src];
    assert d.fields[1] == s.members[1].default;
    assert d.fields == [vals[0], Bytes([]), vals[1]];
  }

  // ---------------------------------------------------------------------------
  // Registration

  /** The registrations in call order; the calls pass the ids 1, 2, ... */
  const Registrations: seq<Registration> := [
    Registration(Some("InitRequest"), "InitRequest"),
    Registration(Some("ListOSesRequest"), "ListOSesRequest"),
    Registration(Some("ListOSesResponse"), "ListOSesResponse"),
    Registration(Some("ListAppsRequest"), "ListAppsRequest"),
    Registration(Some("ListAppsResponse"), "ListAppsResponse"),
    Registration(Some("ListStoreRequest"), "ListStoreRequest"),
    Registration(Some("ListStoreResponse"), "ListStoreResponse"),
    Registration(Some("FetchStoreRequest"), "FetchStoreRequest"),
    Registration(Some("FetchStoreResponse"), "FetchStoreResponse"),
    Registration(Some("CreateBuildRequest"), "CreateBuildRequest"),
    Registration(Some("CreateMediaRequest"), "CreateMediaRequest"),
    Registration(Some("UploadRequest"), "UploadRequest"),
    Registration(Some("FetchAppRequest"), "FetchAppRequest"),
    Registration(Some("FetchAppResponse"), "FetchAppResponse"),
    Registration(Some("ChangeAppItemStateRequest"), "ChangeAppItemStateRequest"),
    Registration(Some("FetchBuildRequest"), "FetchBuildRequest"),
    Registration(Some("FetchBuildResponse"), "FetchBuildResponse"),
    Registration(Some("FetchBuildConfigurationRequest"), "FetchBuildConfigurationRequest"),
    Registration(Some("FetchBuildConfigurationResponse"), "FetchBuildConfigurationResponse"),
    Registration(Some("FetchBuildUpdatesRequest"), "FetchBuildUpdatesRequest"),
    Registration(Some("FetchBuildUpdatesResponse"), "FetchBuildUpdatesResponse"),
    Registration(Some("CreateAppRequest"), "CreateAppRequest")
  ]

  const Table: Registry.Table := Consecutive(ProtocolId, 1, Registrations)

  /** The registered type names, in registration order. */
  function TypeNames(t: Registry.Table): (names: seq<string>)
    ensures |names| == |t| && forall i :: 0 <= i < |t| ==> names[i] == t[i].1.typeName
  {
    seq(|t|, i requires 0 <= i < |t| => t[i].1.typeName)
  }

  /**
   * Ids 1 to 22 of family 2, each registered under its type's name, and
   * every modelled message among them.
   */
  lemma TableIsSound()
    ensures |Table| == 22 && Ascending(Table) && DistinctIds(Table)
    ensures InFamily(Table, ProtocolId) && AvoidsNull(Table)
    ensures forall i :: 0 <= i < |Table| ==> Table[i].0.id == i + 1
    ensures forall i :: 0 <= i < |Table| ==> Table[i].1.name == Some(Table[i].1.typeName)
    ensures DistinctTypes(Table) && DistinctNames(Table)
  {
    ConsecutiveIsSound(ProtocolId, 1, Registrations);
    PositionsRecovered();
  }

  /**
   * Proof device, not part of the protocol: where a type name sits in
   * `Registrations`. Its length, and for equal lengths one letter, tell the
   * twenty-two apart, which shows the names are distinct.
   */
  function TypeNamePosition(s: string): int
  {
    if |s| == 11 then 0
    else if |s| == 13 then 11
    else if |s| == 15 then (if s[5] == 'S' then 1 else if s[5] == 'p' then 3 else 12)
    else if |s| == 16 then
      (if s[5] == 'S' then 2 else if s[5] == 'p' then 4 else if s[5] == 't' then 5 else if s[5] == 'A' then 13 else 21)
    else if |s| == 17 then (if s[5] == 't' then 6 else if s[5] == 'S' then 7 else 15)
    else if |s| == 18 then (if s[6] == 't' then 8 else if s[6] == 'B' then 9 else if s[6] == 'M' then 10 else 16)
    else if |s| == 24 then 19
    else if |s| == 25 then (if s[0] == 'C' then 14 else 20)
    else if |s| == 30 then 17
    else if |s| == 31 then 18
    else -1
  }

  /** Every registration's type name gives back its position. */
  lemma PositionsRecovered()
    ensures forall i :: 0 <= i < |Registrations| ==> TypeNamePosition(Registrations[i].typeName) == i
  {
  }

  /** Where the `i`th modelled message sits in the table: after `InitRequest`, skipping the two stream messages. */
  function TableIndex(i: nat): nat
  {
    if i < 7 then i + 1 else if i < 9 then i + 2 else i + 3
  }

  /** Every modelled message is registered under its own name. */
  lemma MessagesRegistered()
    ensures forall i :: 0 <= i < |Declarations| ==>
      TableIndex(i) < |Table| && Table[TableIndex(i)].1.typeName == Declarations[i].0
    ensures Table[8].1.typeName == FetchStoreResponseSchema.typeName
    ensures Table[11].1.typeName == UploadRequestSchema.typeName
  {
    ListingsRegistered();
    BuildsRegistered();
    AppsRegistered();
  }

  lemma ListingsRegistered()
    ensures forall i :: 0 <= i < 7 ==> Registrations[i + 1].typeName == Declarations[i].0
  {
  }

  lemma BuildsRegistered()
    ensures forall i :: 7 <= i < 9 ==> Registrations[i + 2].typeName == Declarations[i].0
  {
  }

  lemma AppsRegistered()
    ensures forall i :: 9 <= i < |Declarations| ==> Registrations[i + 3].typeName == Declarations[i].0
  {
  }

  /** `configure_protocol`: twenty-two successive registrations. */
  method ConfigureProtocol(reg: Registrar)
    requires Free(reg, Table)
    modifies reg
    ensures Installed(reg.table, old(reg.table), Table)
    ensures forall i :: 0 <= i < |Table| ==> reg.Resolve(Table[i].0) == Found(Table[i].1)
    ensures reg.version == old(reg.version) && reg.nullId == old(reg.nullId)
  {
    TableIsSound();
    RegisterAll(reg, Table);
  }
}
