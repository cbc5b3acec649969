# App-store front protocol: a Dafny model

This project models the message layer of the app-store client/server protocol. It covers four parts.

- **The older reflection protocols.** `front_protocol_core.hpp` and `front_protocol_auth.hpp` define the `Version` records, the init and authentication handshake messages, and the typed error responses. Each message declares its fields through one tagged “reflect” walk. That walk serialises and deserialises the record. Registration tables give each message a type id.
- **The newer serialization protocols.** `ola_front_protocol_init.hpp`, `ola_front_protocol_auth.hpp`, `ola_front_protocol_main.hpp` and the older copies `ola_front_protocol_core.hpp` and `ola_front_protocol.hpp` define the same kind of messages. Their fields are positional. The first field is a static version, and each setup function fills the protocol's type table.
- **The shared records** in `utility/ola_protocol.hpp`:
  - `Application`, `Shortcut`, `Media`, `Configuration`, `Build`, the store nodes and listing items;
  - the fetch-option bitset and the configuration flag names;
  - the application item states and flags, and the 64-bit `AppItemEntry` bitfield.
- **The utility codecs and error tables:**
  - base64 and hex coding (`utility/src/encode.cpp`, `utility/src/crypto.cpp`);
  - the two error categories, with their messages and named constants (`utility/src/error.cpp`, `utility/src/ola_error.cpp`).

## How the model works

**The wire.** A serialised message is a sequence of `Wire.Entry(tag, name, value)`:
- On a tagged (reflection) walk, `tag` is `Some(t)`. On a positional walk it is `None`.
- `name` is only a diagnostic label.
- `Value` mirrors the shapes the messages carry: numbers, strings, byte blobs, lists, pairs, records, nested walks and bit sets.
- A field's `Kind` says which values the field's C++ type can hold.
- A declared byte limit (`max_size`) is a bound on a blob's length.

**Messages.**
- Each message without a version gate is data: a `Reflect.Schema` with its members and the walk, the order of the `add` calls.
- `Reflect.EncodeWalk` and `Reflect.DecodeWalk` read that walk in the two directions.
- `Reflect.Message` is the in-place object that decoding updates.
- Its `Decode` loop is proved equal to the `DecodeWalk` fold.
- The round trips are proved once, generically, and then applied to every message of every protocol.

**Gated records.** The records whose walk depends on the peer's version are classes of their own. Their decode methods are proved against pure specifications:
- the `Version` records;
- the auth `InitRequest`;
- the core `InitResponse`.

**Registration.**
- `Registry.Registrar` is the protocol object: its type table, its null type id and its version.
- Each `configure_protocol` or `protocol_setup*` function is a method that installs its table.
- Lemmas about each table state what its ids, names and types are. They also prove that no two entries collide.

**Where the code's intent and its text differ.** Some of the code as written differs from its evident intent. The classes model the code as written. Beside each one is an `Intended` definition with the property the authors evidently meant (see "## Findings").

## Model

| member | source | states |
|---|---|---|
| Wire.Read | front_protocol_auth.hpp:101-104 | reading one field succeeds exactly when an entry is at that position, carries the walk's tag (on tagged walks), holds a value of the field's kind and respects its size limit; the value read is the entry's value; a well-typed entry over the limit fails with LimitExceeded under the field's name |
| Wire.ReadU32 | front_protocol_core.hpp:59 | a `uint32_t` field reads exactly when the entry carries its tag and a number in 0..2^32-1, and yields that number |
| Wire.ReadNested | front_protocol_auth.hpp:72 | a nested record reads exactly when the entry carries its tag and holds a nested walk, and yields that walk's entries |
| Reflect.Defaults | front_protocol_core.hpp:96-98 | a fresh message holds every member's in-class initialiser, one per member, and is an instance of its type whenever each initialiser has its member's kind |
| Reflect.AllFitAt | ola_front_protocol_main.hpp:445-450 | when only one field is bounded, the whole walk fits exactly when that field's value respects its limit |
| Reflect.EncodeWalk | front_protocol_core.hpp:87-93 | serialising succeeds exactly when every walked value respects its limit, producing one entry per `add` call in walk order with that call's tag, name and value; otherwise it fails with LimitExceeded |
| Reflect.DecodeWalk | front_protocol_core.hpp:87-93 | deserialising keeps one value per member, and values of the members' declared kinds stay of those kinds |
| Reflect.DecodeOfEncode | front_protocol_core.hpp:87-93 | deserialising what a walk serialised (followed by any further entries) succeeds and writes each walked value into its destination member |
| Reflect.RoundTrip | ola_front_protocol_main.hpp:305-315 | for a walk whose destinations are distinct, decoding the encoding writes each walked source value into its destination and leaves every member no add call writes at its initialiser |
| Reflect.RoundTripRestores | front_protocol_auth.hpp:108-209 | a message walked in declaration order, whose values fit, decodes from its own encoding to exactly its values with no error |
| Reflect.OversizedEntryRejected | front_protocol_auth.hpp:101-104 | once the earlier fields have read, an entry of the right kind that exceeds its field's limit makes deserialisation fail with LimitExceeded for that field |
| Reflect.Message.constructor | front_protocol_core.hpp:96-100 | a new message object holds the schema's initialisers |
| Reflect.Message.Decode | front_protocol_core.hpp:107-111 | deserialising in place leaves the members and the reported error exactly as the DecodeWalk fold computes them from the old members |
| Reflect.PlainRestores | front_protocol_core.hpp:134-150 | a message with no gate and no limit, walked in declaration order, always serialises, and decodes back to its values |
| Reflect.TextMessage | front_protocol_auth.hpp:108-123 | a text-only message has one string member per field name, in order |
| Reflect.TextMessageIsPlain | front_protocol_auth.hpp:108-209 | every text-only message is plain and tagged 1, 2, 3, … in declaration order |
| Reflect.V2Message | ola_front_protocol_main.hpp:72-81 | a positional message has one member and one untagged field per declaration |
| Reflect.V2MessageShape | ola_front_protocol_main.hpp:72-108 | field k of a positional message reads and writes member k with the k-th declaration's name, kind, initialiser and limit |
| Reflect.V2MessageRestores | ola_front_protocol_main.hpp:421-454 | a positional message serialises exactly when every value respects its limit, and then decodes back to its values |
| Registry.Registrar.constructor | ola_front_protocol_common.hpp:30 | a new protocol object has no version, no null id and an empty type table |
| Registry.Registrar.SetVersion | ola_front_protocol_common.hpp:34 | setting the protocol version changes only the version |
| Registry.Registrar.SetNull | ola_front_protocol_common.hpp:36 | reserving the null type id changes only the null id |
| Registry.Registrar.Register | front_protocol_core.hpp:155-158 | registering succeeds exactly when the id is not yet registered and is not the null id; on success the id resolves to the new registration, otherwise nothing changes |
| Registry.Registrar.Resolve | ola_front_protocol_common.hpp:36 | an id resolves as reserved exactly when it is the null id, and as found exactly when it is registered and not the null id, to its registration |
| Registry.AscendingIsDistinct | ola_front_protocol_main.hpp:644-672 | a table whose ids ascend within one family registers no id twice |
| Registry.Consecutive | ola_front_protocol_main.hpp:644-672 | a table built by successive registration calls gives entry i the id first + i in the family and the i-th registration |
| Registry.ConsecutiveIsSound | ola_front_protocol_main.hpp:644-672 | such a table ascends, has distinct ids, stays in its family, and avoids the null id when it starts above 0 |
| Registry.AscendingAppend | ola_front_protocol_init.hpp:127-132 | two ascending runs in one family, the first ending below the second, ascend when joined |
| Registry.RegisterAll | front_protocol_core.hpp:152-159 | registering a table of distinct free ids installs exactly those entries, each resolves to its registration, and the version and null id are untouched |
| FrontCore.Version.constructor | front_protocol_core.hpp:37-48 | a new core Version holds the local version and request counters |
| FrontCore.Version.Clear | front_protocol_core.hpp:50 | `clear` sets the auth request, auth response and response counters to 2^32-1 and keeps the version and the init-response counter |
| FrontCore.Version.Decode | front_protocol_core.hpp:57-76 | deserialising in place leaves the fields and the error exactly as the gated walk specifies |
| FrontCore.VersionEncodingTags | front_protocol_core.hpp:57-76 | a core Version serialises tags 1, 3, 4, 5 and 6 when its version equals the local one, and tag 1 alone otherwise; tag 2 is never written |
| FrontCore.ClampNeverFires | front_protocol_core.hpp:62-67 | as written, the clamp compares two static versions and never fires: after reading the version, decoding goes on exactly as without it |
| FrontCore.ForeignVersionKeepsCounters | front_protocol_core.hpp:68-73 | a peer version different from the local one stops decoding after the version and keeps every counter |
| FrontCore.VersionRoundTrip | front_protocol_core.hpp:57-76 | a serialised core Version decodes back to the sender's version and counters when it is the local version, and to the sender's version alone otherwise |
| FrontCore.ClearedFields | front_protocol_core.hpp:50 | clearing sets exactly the three counters and keeps the version and the init-response counter |
| FrontCore.LessEqIgnoresOwnAuthRequest | front_protocol_core.hpp:52-55 | `<=` reads the static auth-request counter, not the left operand's: changing the left operand's auth_request_ never changes the result |
| FrontCore.LessEqAdmitsLargerAuthRequest | front_protocol_core.hpp:52-55 | as written, a Version whose auth_request_ is 7 compares `<=` the local one, and one whose auth_request_ is 0 is not `<=` itself |
| FrontCore.FieldwiseLessEqIsPartialOrder | front_protocol_core.hpp:52-55 | the intended field-by-field comparison is reflexive, antisymmetric and transitive |
| FrontCore.IntendedClearsNewerPeer | front_protocol_core.hpp:62-67 | with the clamp as intended, a peer version above the local one decodes without error, with every counter cleared to 2^32-1 |
| FrontCore.AsWrittenKeepsCountersOfNewerPeer | front_protocol_core.hpp:62-67 | as written, a peer on version 2 leaves the local auth-request counter in place, where the intended clamp clears it |
| FrontCore.AuthRequestIsPlain | front_protocol_core.hpp:81-94 | AuthRequest is an ungated walk of tags 1-4 over its four members |
| FrontCore.ErrorMessagesArePlain | front_protocol_core.hpp:96-150 | AuthResponse, InitResponse and Response each walk (error, message) with tags 1 and 2 |
| FrontCore.InitResponse.constructor | front_protocol_core.hpp:114-118 | a new InitResponse holds error 2^32-1 (the `-1` initialiser of a `uint32_t`) and an empty message |
| FrontCore.InitResponse.Decode | front_protocol_core.hpp:127-130 | when the connection holds a Version whose init_response_ is the local one, deserialising follows the walk; otherwise it reads nothing and changes nothing |
| FrontCore.InitResponseRoundTrip | front_protocol_core.hpp:114-132 | when both ends' connection Versions pass the gate, an InitResponse decodes to what was sent; when only the receiver's does, decoding reports a missing `error`; when the receiver's does not, nothing is read |
| FrontCore.TableIsSound | front_protocol_core.hpp:152-159 | the core table has 4 entries with ids 1-4 in the core family, distinct ids, names and types, and no null id |
| FrontCore.ConfigureProtocol | front_protocol_core.hpp:152-159 | configuring installs the core table and leaves everything else untouched |
| FrontAuth.Version.constructor | front_protocol_auth.hpp:31-36 | a new auth Version holds the local version and init-request counter |
| FrontAuth.Version.Clear | front_protocol_auth.hpp:38 | `clear` sets the init-request counter to 2^32-1 and keeps the version |
| FrontAuth.Version.Decode | front_protocol_auth.hpp:45-61 | deserialising in place leaves the fields and the error exactly as the gated walk specifies |
| FrontAuth.VersionEncodingTags | front_protocol_auth.hpp:45-61 | an auth Version serialises tags 1 and 3 when its version equals the local one, and tag 1 alone otherwise |
| FrontAuth.ClampNeverFires | front_protocol_auth.hpp:50-58 | as written, the clamp never fires, so a newer peer's version is read and the counter entry is still expected |
| FrontAuth.VersionRoundTrip | front_protocol_auth.hpp:45-61 | a serialised auth Version decodes back to the sender's fields when it is the local version, and to its version alone otherwise |
| FrontAuth.LessEqIsPartialOrder | front_protocol_auth.hpp:40-43 | the auth Version `<=` is reflexive, antisymmetric and transitive |
| FrontAuth.InitRequest.constructor | front_protocol_auth.hpp:66-68 | a new InitRequest holds the local auth and core versions |
| FrontAuth.InitRequest.Decode | front_protocol_auth.hpp:73-79 | deserialising in place leaves both versions and the error exactly as the gated walk specifies |
| FrontAuth.InitRequestRoundTrip | front_protocol_auth.hpp:66-81 | from a sender on the local auth version, the InitRequest has one or two entries depending on its counter, and decodes to what was sent |
| FrontAuth.AsWrittenRejectsNewerPeer | front_protocol_auth.hpp:50-58 | as written, an InitRequest from a peer on a newer auth version fails with a missing `core_version` |
| FrontAuth.IntendedAcceptsNewerPeer | front_protocol_auth.hpp:50-55 | with the clamp as intended, an InitRequest from a newer peer decodes without error, with its counter cleared |
| FrontAuth.AccountMessagesRestore | front_protocol_auth.hpp:108-209 | the captcha request and every account message is plain, tagged 1, 2, … and decodes from its own encoding to its values |
| FrontAuth.CaptchaResponseBounds | front_protocol_auth.hpp:87-106 | a CaptchaResponse serialises and round-trips exactly when its image respects the size limit; an oversized image entry fails decoding with LimitExceeded |
| FrontAuth.CaptchaResponseShape | front_protocol_auth.hpp:87-106 | CaptchaResponse walks token, image and audio with tags 1-3, and only the image is bounded |
| FrontAuth.TableIsSound | front_protocol_auth.hpp:211-228 | the auth table has 10 entries with ids 1-10 in the auth family, distinct ids, names and types, and no null id |
| FrontAuth.ConfigureProtocol | front_protocol_auth.hpp:211-228 | configuring installs the auth table and leaves everything else untouched |
| OlaCore.VersionWalk | ola_front_protocol_core.hpp:38-57 | the older core Version walk has the same tags and the same round trip as the newer one |
| OlaCore.VersionOrdering | ola_front_protocol_core.hpp:31-36 | its `clear` and its `<=` behave as the newer copy's, including the static auth-request counter in `<=` |
| OlaCore.MessagesRestore | ola_front_protocol_core.hpp:62-131 | its four messages are the newer copy's walks: plain ones round-trip, and InitResponse round-trips when both ends' connection Versions pass its gate |
| OlaCore.TableIsSound | ola_front_protocol_core.hpp:133-140 | its table is the newer core table: 4 distinct entries in the core family, no null id |
| OlaCore.ConfigureProtocol | ola_front_protocol_core.hpp:133-140 | configuring installs that table and leaves everything else untouched |
| OlaInit.DeclarationsConform | ola_front_protocol_init.hpp:7-120 | every init message's member initialisers are of their declared kinds |
| OlaInit.MessagesRestore | ola_front_protocol_init.hpp:7-120 | every init message walks its static version first and round-trips; InitRequest and InitResponse walk the connection's version second |
| OlaInit.NewInitResponse | ola_front_protocol_init.hpp:28-34 | the InitResponse constructor builds a valid message carrying the given version |
| OlaInit.NewAuthResponse | ola_front_protocol_init.hpp:79-83 | as written, the AuthResponse constructor builds a valid message that ignores its version argument |
| OlaInit.NewAuthResponseIntended | ola_front_protocol_init.hpp:79-83 | the intended constructor builds a valid message carrying the given version |
| OlaInit.RepliesCarryVersion | ola_front_protocol_init.hpp:28-83 | InitResponse carries the given version; the AuthResponse as written always carries the static one, which differs from the intended reply whenever the argument is not the static version |
| OlaInit.TableIsSound | ola_front_protocol_init.hpp:122-133 | the init table registers its 5 messages at ids 1, 2, 4, 5 and 6 of family 0, ascending and distinct, never id 3 nor the null id |
| OlaInit.ProtocolSetupInit | ola_front_protocol_init.hpp:122-133 | setup sets version (2, 0), reserves (0, 0), installs the init table, and leaves id (0, 3) as it was |
| OlaAuth.DeclarationsConform | ola_front_protocol_auth.hpp:7-181 | every auth message's member initialisers are of their declared kinds |
| OlaAuth.MessagesRestore | ola_front_protocol_auth.hpp:7-181 | every auth message walks a static version first, and decodes from its own encoding when its values respect the limits |
| OlaAuth.BorrowedVersions | ola_front_protocol_auth.hpp:71-135 | exactly the fetch request, fetch response and amend request walk AuthCreateRequest's version instead of their own, which has the same value |
| OlaAuth.OnlyCaptchaImageBounded | ola_front_protocol_auth.hpp:18-45 | the captcha image is the only bounded field of any auth message |
| OlaAuth.CaptchaImageBounded | ola_front_protocol_auth.hpp:35-44 | a CaptchaResponse serialises exactly when its image respects the limit, and an oversized image entry fails decoding with LimitExceeded |
| OlaAuth.NewCaptchaResponse | ola_front_protocol_auth.hpp:29-33 | as written, the CaptchaResponse constructor builds a valid message that ignores its version argument |
| OlaAuth.NewCaptchaResponseIntended | ola_front_protocol_auth.hpp:29-33 | the intended constructor builds a valid message carrying the given version |
| OlaAuth.CaptchaReplyVersion | ola_front_protocol_auth.hpp:29-33 | the reply as written always carries version 1 and empty fields; the intended one differs only in the version |
| OlaAuth.TableIsSound | ola_front_protocol_auth.hpp:182-193 | the auth table registers its 8 messages at ids 1-8 of family 1, ascending, distinct, no null id |
| OlaAuth.ProtocolSetupAuth | ola_front_protocol_auth.hpp:182-193 | setup installs the auth table and leaves everything else untouched |
| OlaCommon.TypeIdHash | ola_front_protocol_common.hpp:18-28 | the hash keeps the family in its low byte and the id above it, below 2^24 |
| OlaCommon.TypeIdHashInjective | ola_front_protocol_common.hpp:18-28 | distinct type ids hash differently |
| OlaCommon.NullIdHashesToZero | ola_front_protocol_common.hpp:18-28 | the null id (0, 0) hashes to 0 |
| OlaCommon.ProtocolSetup | ola_front_protocol_common.hpp:32-37 | the common setup sets version (2, 0), reserves (0, 0) and registers nothing |
| OlaMain.Version.constructor | ola_front_protocol_main.hpp:17-22 | a new main Version holds the local version and init-request counter |
| OlaMain.Version.Clear | ola_front_protocol_main.hpp:24-26 | `clear` sets the init-request counter to 2^32-1 and keeps the version |
| OlaMain.Version.Decode | ola_front_protocol_main.hpp:32-46 | deserialising in place leaves the fields and the error exactly as the gated walk specifies |
| OlaMain.VersionRoundTrip | ola_front_protocol_main.hpp:32-46 | the main Version serialises tags 0 and 2 (or 0 alone for a foreign version; the lambda's own tag 1 carries no entry) and decodes back to the sender's fields |
| OlaMain.NewerPeerKeepsCounter | ola_front_protocol_main.hpp:35-40 | as written, a peer on version 2 leaves the local init-request counter in place, where the intended clamp clears it |
| OlaMain.IntendedClearsNewerPeer | ola_front_protocol_main.hpp:35-40 | with the clamp as intended, a newer peer's version clears the counter with no error, and an older or equal one decodes as written |
| OlaMain.DeclarationsConform | ola_front_protocol_main.hpp:72-639 | every main message's member initialisers are of their declared kinds |
| OlaMain.VersionWalkedFirst | ola_front_protocol_main.hpp:72-604 | every main message walks the static version first |
| OlaMain.MessagesRestore | ola_front_protocol_main.hpp:72-604 | every main message serialises exactly when its image blobs respect the limit, and then decodes back to its values |
| OlaMain.OnlyImageBlobsBounded | ola_front_protocol_main.hpp:421-576 | only the image blobs of FetchBuildResponse, FetchBuildConfigurationResponse and CreateBuildRequest are bounded, all by the same declaration |
| OlaMain.OversizedImageRejected | ola_front_protocol_main.hpp:449 | an image entry over the limit makes decoding fail with LimitExceeded for that field |
| OlaMain.ResponsesBeginWithStatus | ola_front_protocol_main.hpp:83-522 | every response walks version, then (for per-record responses) the record version, then error and message |
| OlaMain.StoreStreamShape | ola_front_protocol_main.hpp:279-319 | FetchStoreResponse serialises its input stream and deserialises into its output stream |
| OlaMain.StoreStreamRoundTrip | ola_front_protocol_main.hpp:305-315 | a FetchStoreResponse always serialises; decoding fills the header fields and moves the sent stream into the output stream |
| OlaMain.UploadRoundTrip | ola_front_protocol_main.hpp:606-639 | an UploadRequest serialises exactly when its stream respects the limit; decoding moves the stream into the output member; an oversized entry fails with LimitExceeded |
| OlaMain.TableIsSound | ola_front_protocol_main.hpp:641-673 | the main table has 22 named entries at ids 1-22 of its family, ascending, with distinct ids, names and types, and no null id |
| OlaMain.MessagesRegistered | ola_front_protocol_main.hpp:641-673 | every declared message type is registered, at its position in the table |
| OlaMain.ConfigureProtocol | ola_front_protocol_main.hpp:641-673 | configuring installs the main table and leaves everything else untouched |
| OlaFront.TableIsSound | ola_front_protocol.hpp:583-614 | the older main table has 21 entries at ids 1-21, ascending, with distinct ids and types, and no null id |
| OlaFront.TableIsUnnamed | ola_front_protocol.hpp:583-614 | the older table registers no names |
| OlaFront.AgreesWithMainExceptId1 | ola_front_protocol.hpp:583-614 | it registers the newer table's types at ids 2-21; id 1 holds CreateAppRequest, which the newer table moves to id 22 |
| OlaFront.ProtocolSetup | ola_front_protocol.hpp:583-614 | setup installs the older table and leaves everything else untouched |
| OlaProtocol.ShortcutEq | utility/ola_protocol.hpp:121-124 | Shortcut `operator==` compares all five strings, so it holds exactly for equal shortcuts |
| OlaProtocol.EntryEq | utility/ola_protocol.hpp:157-160 | Media entry `operator==` compares both paths, so it holds exactly for equal entries |
| OlaProtocol.EntriesEq | utility/ola_protocol.hpp:180-183 | the `std::vector` comparison of entries holds for equal vectors |
| OlaProtocol.MediaEq | utility/ola_protocol.hpp:180-183 | Media `operator==` holds for equal media |
| OlaProtocol.ShortcutsEq | utility/ola_protocol.hpp:262-265 | the `std::vector` comparison of shortcuts holds for equal vectors |
| OlaProtocol.ConfigurationEq | utility/ola_protocol.hpp:262-265 | Configuration `operator==` holds for equal configurations |
| OlaProtocol.ConfigurationsEq | utility/ola_protocol.hpp:297-300 | the `std::vector` comparison of configurations holds for equal vectors |
| OlaProtocol.BuildEq | utility/ola_protocol.hpp:297-300 | Build `operator==` holds for equal builds |
| OlaProtocol.ShortcutEqIsEquality | utility/ola_protocol.hpp:121-124 | Shortcut `==` holds exactly for equal shortcuts |
| OlaProtocol.MediaEqIsEquality | utility/ola_protocol.hpp:157-183 | Media `==` (with its entries' `==`) holds exactly for equal media |
| OlaProtocol.ConfigurationEqIsEquality | utility/ola_protocol.hpp:262-265 | Configuration `==` holds exactly for equal configurations |
| OlaProtocol.BuildEqIsEquality | utility/ola_protocol.hpp:297-300 | Build `==` holds exactly for equal builds |
| OlaProtocol.MediaCheck | utility/ola_protocol.hpp:185-188 | the Media check is 0 exactly when the name length and entry count agree as size_t; XOR with the entry count recovers the name length |
| OlaProtocol.ApplicationValue | utility/ola_protocol.hpp:33-36 | an Application serialises to a record of its kind |
| OlaProtocol.ShortcutValue | utility/ola_protocol.hpp:105-112 | a Shortcut serialises to a record of its kind |
| OlaProtocol.MediaEntryValue | utility/ola_protocol.hpp:145-149 | a Media entry serialises to a record of its kind |
| OlaProtocol.MediaValue | utility/ola_protocol.hpp:167-171 | a Media serialises to a record of its kind |
| OlaProtocol.ConfigurationValue | utility/ola_protocol.hpp:242-253 | a Configuration serialises to a record of its kind |
| OlaProtocol.BuildValue | utility/ola_protocol.hpp:281-288 | a Build serialises to a record of its kind |
| OlaProtocol.ListStoreNodeValue | utility/ola_protocol.hpp:515-519 | a store node serialises to a record of its kind |
| OlaProtocol.ListApplicationItemValue | utility/ola_protocol.hpp:536-541 | a listing item serialises to a record of its kind |
| OlaProtocol.ApplicationRoundTrip | utility/ola_protocol.hpp:33-36 | an Application decodes from its own serialisation, and every value of its kind is one's serialisation |
| OlaProtocol.ShortcutRoundTrip | utility/ola_protocol.hpp:105-112 | a Shortcut decodes from its own serialisation, and every value of its kind is one's serialisation |
| OlaProtocol.MediaEntryRoundTrip | utility/ola_protocol.hpp:145-149 | a Media entry decodes from its own serialisation, and every value of its kind is one's serialisation |
| OlaProtocol.ListStoreNodeRoundTrip | utility/ola_protocol.hpp:515-519 | a store node decodes from its own serialisation, and every value of its kind is one's serialisation |
| OlaProtocol.ListApplicationItemRoundTrip | utility/ola_protocol.hpp:536-541 | a listing item decodes from its own serialisation, and every value of its kind is one's serialisation |
| OlaProtocol.MediaRoundTrip | utility/ola_protocol.hpp:167-171 | a Media decodes from its own serialisation, entries included |
| OlaProtocol.ConfigurationRoundTrip | utility/ola_protocol.hpp:242-253 | a Configuration decodes from its own serialisation, shortcuts and media included |
| OlaProtocol.BuildRoundTrip | utility/ola_protocol.hpp:281-288 | a Build decodes from its own serialisation, configurations included |
| OlaProtocol.FetchOption.Index | utility/ola_protocol.hpp:60-74 | each fetch option's index is below OptionsCount |
| OlaProtocol.IndexInjective | utility/ola_protocol.hpp:60-74 | distinct fetch options have distinct indices |
| OlaProtocol.SetOption | utility/ola_protocol.hpp:80-83 | setting an option sets exactly its bit |
| OlaProtocol.ResetOption | utility/ola_protocol.hpp:85-88 | resetting an option clears exactly its bit |
| OlaProtocol.OptionUpdate | utility/ola_protocol.hpp:80-93 | after an update, `has_option` reports the new value for that option and the old value for every other |
| OlaProtocol.Lower | utility/ola_protocol.hpp:206 | ASCII case folding changes exactly the uppercase letters, and never yields one |
| OlaProtocol.CaseEq | utility/ola_protocol.hpp:206 | `casecmp(...) == 0`: equal strings compare equal, and only strings of one length do |
| OlaProtocol.FlagValue | utility/ola_protocol.hpp:203-211 | `flag` is nonzero exactly when some flag name matches ignoring case, and then it is that flag's bit |
| OlaProtocol.CaseEqIsEquivalence | utility/ola_protocol.hpp:203-211 | case-insensitive name comparison is an equivalence |
| OlaProtocol.FlagIndexFrom | utility/ola_protocol.hpp:203-211 | the flag-name search finds the first name equal to the query ignoring case, or reports that none from that point matches |
| OlaProtocol.Flag | utility/ola_protocol.hpp:203-211 | the flag loop returns the specified flag value |
| OlaProtocol.FlagMeaning | utility/ola_protocol.hpp:194-211 | a name yields the HiddenDirectory bit exactly when it equals "HiddenDirectory" ignoring case, and 0 otherwise |
| OlaProtocol.ComputeFlags | utility/ola_protocol.hpp:223-230 | the compute loop returns the OR of the names' flags |
| OlaProtocol.ComputeFlagsMeaning | utility/ola_protocol.hpp:223-230 | the HiddenDirectory bit is set exactly when some name matches it, and no other bit is ever set |
| OlaProtocol.ForEachFlag | utility/ola_protocol.hpp:213-221 | the visiting loop visits the specified names in flag order |
| OlaProtocol.VisitedMeaning | utility/ola_protocol.hpp:213-221 | it visits "HiddenDirectory" exactly when that bit is set, and nothing else |
| OlaProtocol.HiddenDirectoryFromNames | utility/ola_protocol.hpp:267-270 | a configuration whose flags came from names has the hidden-directory flag exactly when one name matches it |
| OlaProtocol.ItemState.Code | utility/ola_protocol.hpp:308-321 | each item state's code is below the state count |
| OlaProtocol.StateOfCode | utility/ola_protocol.hpp:308-321 | a code names a state exactly when it is below the count, and that state has that code |
| OlaProtocol.StateNamesDistinct | utility/ola_protocol.hpp:353-379 | a state's name is empty exactly for codes outside the enum, and valid codes have distinct names |
| OlaProtocol.DefaultNamesAreStateNames | utility/ola_protocol.hpp:334-351 | a state's name is a default name exactly for invalid, trash, private alpha and the three public states, and a default public name exactly for the three public ones |
| OlaProtocol.ItemFlag.Bit | utility/ola_protocol.hpp:323-327 | each valid item flag is bit 0 or bit 1 |
| OlaProtocol.FlagNamesApart | utility/ola_protocol.hpp:393-402 | no name matches both flag names ignoring case |
| OlaProtocol.ItemFlagOf | utility/ola_protocol.hpp:393-402 | a name maps to a flag exactly when it equals that flag's name ignoring case |
| OlaProtocol.ItemFlagOfName | utility/ola_protocol.hpp:381-402 | each flag's name maps back to the flag |
| OlaProtocol.FlagBits | utility/ola_protocol.hpp:407-414 | the flags field of an entry holds no bit outside its range |
| OlaProtocol.BitfieldsDetermineValue | utility/ola_protocol.hpp:407-414 | state, type and flags together determine the whole 64-bit value |
| OlaProtocol.WithState | utility/ola_protocol.hpp:452-460 | writing the state changes the state field only |
| OlaProtocol.WithType | utility/ola_protocol.hpp:462-470 | writing the type changes the type field only |
| OlaProtocol.WithFlags | utility/ola_protocol.hpp:427-435 | writing the flags stores them masked to their range and keeps state and type |
| OlaProtocol.AppItemEntry.WithName | utility/ola_protocol.hpp:416-420 | the named constructor sets the name and the state, type 0 and no flags |
| OlaProtocol.AppItemEntry.constructor | utility/ola_protocol.hpp:422-425 | the value constructor sets the raw value and an empty name |
| OlaProtocol.AppItemEntry.SetFlags | utility/ola_protocol.hpp:427-435 | setting the flags changes only the flags field, masked |
| OlaProtocol.AppItemEntry.SetState | utility/ola_protocol.hpp:452-460 | setting the state changes only the state field |
| OlaProtocol.AppItemEntry.SetType | utility/ola_protocol.hpp:462-470 | setting the type changes only the type field |
| OlaProtocol.AppItemEntry.SetValue | utility/ola_protocol.hpp:472-480 | setting the value replaces the raw value and keeps the name |
| OlaProtocol.AppItemEntry.SetFlag | utility/ola_protocol.hpp:437-440 | setting a flag ORs its bit into the flags |
| OlaProtocol.AppItemEntry.ResetFlag | utility/ola_protocol.hpp:442-445 | resetting a flag clears its bit from the flags |
| OlaProtocol.HasOption | utility/ola_protocol.hpp:90-93 | `has_option` reads the option's bit (OptionUpdate relates it to the updates) |
| OlaProtocol.HasHiddenDirectoryFlag | utility/ola_protocol.hpp:267-270 | the configuration has the flag exactly when the HiddenDirectory bit of its flags is set |
| OlaProtocol.StateName | utility/ola_protocol.hpp:353-379 | a code's name is empty exactly when the code is outside the enumeration |
| OlaProtocol.IsDefaultPublicName | utility/ola_protocol.hpp:341-345 | every default public name starts with "public_" |
| OlaProtocol.IsDefaultName | utility/ola_protocol.hpp:347-351 | every default public name is a default name, and no default name is empty |
| OlaProtocol.FlagName | utility/ola_protocol.hpp:381-391 | a flag's name is empty exactly for the `Invalid` flag |
| OlaProtocol.AppItemEntry.Flags | utility/ola_protocol.hpp:427-430 | the flags read back fit the 52-bit field, and writing them back leaves the word unchanged |
| OlaProtocol.AppItemEntry.State | utility/ola_protocol.hpp:452-455 | writing the state read back leaves the word unchanged |
| OlaProtocol.AppItemEntry.Type | utility/ola_protocol.hpp:462-465 | writing the type read back leaves the word unchanged |
| OlaProtocol.AppItemEntry.Value | utility/ola_protocol.hpp:472-475 | the union word holds the state, type and flags fields |
| OlaProtocol.AppItemEntry.IsFlagSet | utility/ola_protocol.hpp:447-450 | a flag is set exactly when its bit, 12 places up in the union word, is set |
| OlaProtocol.FlagSetEffect | utility/ola_protocol.hpp:437-450 | after setting a flag, that flag is set, the other keeps its state, and state and type are unchanged |
| OlaProtocol.FlagResetEffect | utility/ola_protocol.hpp:442-450 | after resetting a flag, that flag is clear, the other keeps its state, and state and type are unchanged |
| OlaProtocol.AcceptedUpdate | utility/ola_protocol.hpp:437-450 | setting or resetting ReviewAccepted affects only that flag |
| OlaProtocol.RejectedUpdate | utility/ola_protocol.hpp:437-450 | setting or resetting ReviewRejected affects only that flag |
| Encode.HexDigit | utility/src/encode.cpp:296-297 | a nibble prints as a lowercase hex digit |
| Encode.HexOfShape | utility/src/encode.cpp:292-300 | hex text is twice as long as its input, each byte printed high nibble first |
| Encode.HexOfDigits | utility/src/encode.cpp:292-300 | hex text holds only lowercase hex digits |
| Encode.HexEncode | utility/src/encode.cpp:292-300 | the encoding loop returns the hex text of its input, with its length and digits |
| Encode.HexCharDecode | utility/src/encode.cpp:305-313 | decoding a hex digit gives its value 0-15, which prints back as that digit |
| Encode.HexDigitDecodes | utility/src/encode.cpp:305-313 | decoding the digit of a nibble gives the nibble |
| Encode.HexPairDecode | utility/src/encode.cpp:315-319 | a digit pair decodes to the byte whose high and low nibbles they are, which prints back as the pair |
| Encode.HexBytes | utility/src/encode.cpp:323-333 | hex decoding yields half as many bytes as characters |
| Encode.HexDecode | utility/src/encode.cpp:323-333 | the decoding loop yields the specified bytes, each printing back as its character pair |
| Encode.HexRoundTrip | utility/src/encode.cpp:292-333 | hex decoding undoes hex encoding |
| Encode.HexDecodeEncode | utility/src/encode.cpp:323-333 | encoding decoded hex gives back the text minus any odd trailing character |
| Encode.HexOddIgnored | utility/src/encode.cpp:326-331 | an odd trailing character is ignored |
| Encode.Base64Char | utility/src/encode.cpp:254-257 | no sextet encodes as the padding character |
| Encode.AlphabetIsBijective | utility/src/encode.cpp:254-271 | the alphabet maps sextets to characters and back, and '=' is not in it |
| Encode.Quad | utility/src/encode.cpp:256 | three bytes regroup into four sextets |
| Encode.Triple | utility/src/encode.cpp:271 | four sextets regroup into three bytes |
| Encode.QuadTriple | utility/src/encode.cpp:256-271 | regrouping back undoes the sextet split, and zero fill bytes give zero sextets |
| Encode.SextetsOf | utility/src/encode.cpp:256 | the sextet count is 4 per full group plus 0, 2 or 3 for the final bytes |
| Encode.Chars | utility/src/encode.cpp:254 | mapping sextets gives one non-padding character each |
| Encode.PaddingTableIsRfc | utility/src/encode.cpp:245-262 | the padding table indexed by length mod 3 completes the encoding of section 4 of RFC 4648 |
| Encode.Base64OfLength | utility/src/encode.cpp:247-264 | the encoding has 4 characters per started group of 3 bytes |
| Encode.Base64Encode | utility/src/encode.cpp:247-264 | `base64_encode` returns the RFC encoding, its length, and the characters before the padding |
| Encode.Sextets | utility/src/encode.cpp:271 | a text in the alphabet gives one sextet per character |
| Encode.SextetsOfChars | utility/src/encode.cpp:254-271 | reading mapped sextets gives them back |
| Encode.Regroup | utility/src/encode.cpp:271 | regrouping yields 3 bytes per 4 sextets plus 0, 1 or 2 for the rest |
| Encode.RegroupSextets | utility/src/encode.cpp:254-287 | regrouping undoes the sextet split of any byte sequence |
| Encode.StrippedLength | utility/src/encode.cpp:274-282 | stripping removes at most two trailing '=', only '=' characters, and stops at a non-'=' |
| Encode.HexByte | utility/src/encode.cpp:296-297 | a byte prints as two lowercase hex digits, high nibble first, which decode back to its nibbles |
| Encode.HexOf | utility/src/encode.cpp:292-300 | the hex text of a byte string, byte by byte (HexOfShape gives its length and digits) |
| Encode.Base64Chars | utility/src/encode.cpp:252-260 | the unpadded characters Boost's encoding iterator emits, six bits per character (Base64OfLength and Base64RoundTrip state its length and inverse) |
| Encode.Base64Of | utility/src/encode.cpp:245-263 | the unpadded characters followed by the padding `base64_padding[size % 3]` (PaddingTableIsRfc shows it is the RFC 4648 padding) |
| Encode.Base64Bytes | utility/src/encode.cpp:268-287 | unpadded base64 text decodes exactly when every character is in the alphabet, to 3 bytes per 4 characters plus 1 or 2 for a final 2 or 3 |
| Encode.Base64Decode | utility/src/encode.cpp:265-290 | `base64_decode` strips at most two trailing '=', gives "" when nothing is left, and otherwise decodes the rest |
| Encode.Base64RoundTrip | utility/src/encode.cpp:247-290 | decoding undoes encoding, and stripping removes exactly the padding |
| Crypto.Base64Contract | utility/src/crypto.cpp:195-238 | the crypto copy of the base64 pair pads as RFC 4648 section 4 prescribes, strips at most two '=', gives "" for an empty body, and undoes its encoding |
| Errors.Digits | utility/src/error.cpp:77 | a number prints as a non-empty run of decimal digits |
| Errors.Decimal | utility/src/error.cpp:77 | an integer prints as non-empty text with no ')' |
| Errors.DigitsRoundTrip | utility/src/error.cpp:77 | reading printed digits gives the number back |
| Errors.DecimalRoundTrip | utility/src/error.cpp:77 | reading a printed integer, sign included, gives it back |
| Errors.RenderInjective | utility/src/error.cpp:73-181 | two messages of one category are equal only for equal codes and texts |
| Errors.CodesConsecutive | utility/src/error.cpp:27-62 | the enum codes are exactly 1-31, and each code casts back to its enumerator |
| Errors.TextCases | utility/src/error.cpp:79-178 | code 0 reads "Success", codes outside 0-31 read "Unknown", each enumerator's code reads its text, and code 15's text begins with a space |
| Errors.TextsDistinct | utility/src/error.cpp:79-175 | the codes 0-31 have distinct texts, none "Unknown" |
| Errors.CodeOfTextInverts | utility/src/error.cpp:79-175 | each code 0-31 is recovered from its text |
| Errors.CodeOfEnumText | utility/src/error.cpp:79-175 | each enumerator's code is recovered from its text |
| Errors.MessageShape | utility/src/error.cpp:73-181 | a message is "(myapps::common:" + code + "): " + text, and distinct codes give distinct messages |
| Errors.NamePrefix | utility/src/error.cpp:67-77 | the category name opens every message |
| Errors.NamedConstants | utility/src/error.cpp:185-254 | each named constant is make_error of its code, distinct from every other, nonzero, and renders its enumerator's text |
| OlaErrors.CodesConsecutive | utility/src/ola_error.cpp:9-40 | the enum codes are exactly 1-24, and each code casts back to its enumerator |
| OlaErrors.TextCases | utility/src/ola_error.cpp:60-138 | code 0 reads "Success", codes outside 0-24 read "Unknown", and each enumerator's code reads its text |
| OlaErrors.TextsDistinct | utility/src/ola_error.cpp:60-135 | the codes 0-24 have distinct texts, none "Unknown" |
| OlaErrors.CodeOfTextInverts | utility/src/ola_error.cpp:60-135 | each code 0-24 is recovered from its text |
| OlaErrors.CodeOfEnumText | utility/src/ola_error.cpp:60-135 | each enumerator's code is recovered from its text |
| OlaErrors.MessageShape | utility/src/ola_error.cpp:54-141 | a message is "(solid::frame::mprpc:" + code + "): " + text, and distinct codes give distinct messages |
| OlaErrors.NamePrefix | utility/src/ola_error.cpp:45-58 | the category name opens every message |
| OlaErrors.NamedConstants | utility/src/ola_error.cpp:145-173 | each named constant is make_error of its code, distinct from every other, nonzero, and renders its enumerator's text |
| Errors.Cast | utility/src/error.cpp:27-62 | each enumerator's code lies in 1-31 |
| Errors.FromCode | utility/src/error.cpp:79-178 | a code matches a `case` label exactly when it lies in 1-31 |
| Errors.EnumText | utility/src/error.cpp:79-175 | no enumerator's text is "Success" or "Unknown" |
| Errors.Text | utility/src/error.cpp:79-181 | the text is "Success" exactly for code 0 and "Unknown" exactly for codes outside 0-31 |
| Errors.Message | utility/src/error.cpp:73-181 | the message opens with "(myapps::common:" and ends with the code's text |
| Errors.MakeError | utility/src/error.cpp:68-188 | `make_error` names the myapps::common category and narrows the `uint32_t` code to the category's `int`: the value congruent to it modulo 2^32 in the signed 32-bit range, the code itself below 2^31 |
| Errors.DefaultErrorIsMinusOne | utility/src/error.cpp:68-188 | a response's default `error_` of `uint32_t(-1)` becomes the code -1, rendered "(myapps::common:-1): Unknown" |
| Errors.Constant | utility/src/error.cpp:190-254 | each named constant is `make_error` of its enumerator's code, which lies in 1-31 |
| OlaErrors.Cast | utility/src/ola_error.cpp:9-40 | each enumerator's code lies in 1-24 |
| OlaErrors.FromCode | utility/src/ola_error.cpp:60-138 | a code matches a `case` label exactly when it lies in 1-24 |
| OlaErrors.EnumText | utility/src/ola_error.cpp:60-135 | no enumerator's text is "Success" or "Unknown" |
| OlaErrors.Text | utility/src/ola_error.cpp:60-139 | the text is "Success" exactly for code 0 and "Unknown" exactly for codes outside 0-24 |
| OlaErrors.Message | utility/src/ola_error.cpp:54-141 | the message opens with "(solid::frame::mprpc:" and ends with the code's text |
| OlaErrors.MakeError | utility/src/ola_error.cpp:49-148 | `make_error` names the solid::frame::mprpc category and narrows the `uint32_t` code to `int` (the code itself below 2^31), and so differs from the other category's condition of the same code |
| OlaErrors.DefaultErrorIsMinusOne | utility/src/ola_error.cpp:49-148 | a response's default `error_` of `uint32_t(-1)` becomes the code -1, rendered "(solid::frame::mprpc:-1): Unknown" |
| OlaErrors.Constant | utility/src/ola_error.cpp:150-173 | each named constant is `make_error` of its enumerator's code, which lies in 1-24 |
| OlaErrors.CategoriesDiffer | utility/src/ola_error.cpp:45-48 | the two categories have different names, so equal codes from the two never compare equal |

## Left out

- The byte layout of the serialisers (varints, lengths, tags on the wire) is not modelled. A message is a sequence of abstract entries, and the limits are checked on both serialising and deserialising.
- The connection context (`ConnectionContext::any` / `anyTuple`) is an optional peer `Version` parameter of the gated walks.
- The connection version that init requests add through the context is one opaque nested entry, `connection_version`.
- The main `InitRequest` (ola_front_protocol_main.hpp:52-69) is left out, because it names members it does not declare (`auth_version_`, `version_`) and does not compile.
- `Application::computeCheck` and `Build::computeCheck` feed `std::hash`, whose values are implementation-defined; only `Media`'s length check is modelled.
- `sha256hex`, `sha256` and `CryptoCoder` in utility/src/encode.cpp, `sha256` and `Enigma` in utility/src/crypto.cpp, the archive helpers, and the tests are not part of this model: they call OpenSSL.
- Base64 decoding of a character outside the alphabet and other than '=' gives no result, where Boost throws.
- Encode.Base64Decode: decodes by RFC 4648, which departs from Boost's iterators on malformed input. Boost's table reads every '=' that survives the stripping as the sextet 0 and yields bytes: a third trailing one ("QQ===", stripped to "QQ=") or an inner one ("QQ==QQ==", stripped to "QQ==QQ"). The model gives no result for these. A stripped length of 1 mod 4 ("Q") makes Boost's `transform_width` read past `size`, where the model drops the lone sextet and returns the bytes before it.
- Base64 decoding does not model the truncation of the length to `unsigned int`.
- HexDecode and HexCharDecode require lowercase hex digits: on a character below 'a' outside '0'-'9' the source computes a negative nibble, and from 'g' up a nibble of 16 or more; either way the shifted pair gives a wrong byte.
- The copy performed by the message base class, the stream progress callbacks and the chunk size of upload streams are not modelled.
- Errors.MakeError, OlaErrors.MakeError: the conversion of the `uint32_t` code to the `int` value of `solid::ErrorConditionT` happens in the solid library, which is not part of this model; it is taken as the two's-complement narrowing every supported compiler performs.
- `default_port` (ola_front_protocol_common.hpp) is a constant read only by the connection code, which is not part of this model.
- OlaCommon.TypeIdHash takes `std::hash` of the small integers as the identity. It models the XOR of the shifted id and the family as a sum, since the two occupy disjoint bits.
- The AppItemEntry bitfield is assumed to lay out its members from the low bits up: state in bits 0-7, type in bits 8-11, flags in bits 12-63.
- OlaProtocol.AppItemEntry.SetFlag, OlaProtocol.AppItemEntry.ResetFlag and OlaProtocol.AppItemEntry.IsFlagSet require a valid flag, because shifting by the `Invalid` flag's value is undefined behaviour in C++.
- ListAppsRequest's uninitialised `choice_` is modelled as 0.
- `strcasecmp` is modelled as ASCII case folding.
- `std::deque` and `std::vector` members are both sequences.
- The registration callback's refusal of a duplicate or reserved id is modelled as `Register` returning false. The configure methods require their ids to be free.
- An `error_category`'s identity is modelled by its name.

## Findings

| source | as written | input that shows it | evidently intended | confidence | as-written member | corrected member |
|---|---|---|---|---|---|---|
| front_protocol_core.hpp:63 | the clamp tests `version > Version::version`, two static constants, so it never fires; the older copy at ola_front_protocol_core.hpp:43-48 repeats it | a peer Version with version 2 | compare the peer's decoded version and clear the counters of a newer peer | medium, not executed | FrontCore.AsWrittenKeepsCountersOfNewerPeer | FrontCore.IntendedClearsNewerPeer |
| front_protocol_auth.hpp:51 | the same static-versus-static clamp, so a newer peer's InitRequest is read with the local walk | an InitRequest whose auth Version has version 2 | clear the newer peer's counter and accept the request | medium, not executed | FrontAuth.AsWrittenRejectsNewerPeer | FrontAuth.IntendedAcceptsNewerPeer |
| ola_front_protocol_main.hpp:36 | the same static-versus-static clamp in the main Version | a peer Version with version 2 | clear the newer peer's init-request counter | medium, not executed | OlaMain.NewerPeerKeepsCounter | OlaMain.IntendedClearsNewerPeer |
| front_protocol_core.hpp:54 | `<=` compares the static `auth_request` rather than the left operand's `auth_request_` | a Version whose auth_request_ is 0, compared with itself | a field-by-field comparison, which is reflexive | medium, not executed | FrontCore.LessEqAdmitsLargerAuthRequest | FrontCore.FieldwiseLessEqIsPartialOrder |
| ola_front_protocol_init.hpp:79-83 | the AuthResponse constructor takes `_version` but never stores it, unlike InitResponse at line 31 | `AuthResponse(3)` | the reply carries the given version | low, not executed | OlaInit.NewAuthResponse | OlaInit.NewAuthResponseIntended |
| ola_front_protocol_auth.hpp:29-33 | the CaptchaResponse constructor takes `_version` but never stores it | `CaptchaResponse(3)` | the reply carries the given version | low, not executed | OlaAuth.NewCaptchaResponse | OlaAuth.NewCaptchaResponseIntended |
