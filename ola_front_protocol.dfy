/**
 * `ola::front` (ola_front_protocol.hpp): the earlier main protocol family.
 * Its messages are walked exactly as in `ola::front::main`, so their
 * schemas are those of `OlaMain`; what differs is `protocol_setup`, which
 * registers the types without names and puts `CreateAppRequest` at id 1.
 */
module OlaFront {
  import opened Wrappers
  import opened Registry
  import OlaMain

  const ProtocolId: u8 := 2

  /** The registrations in call order; the calls pass the ids 1, 2, ... */
  const Registrations: seq<Registration> := [
    Registration(None, "CreateAppRequest"),
    Registration(None, "ListOSesRequest"),
    Registration(None, "ListOSesResponse"),
    Registration(None, "ListAppsRequest"),
    Registration(None, "ListAppsResponse"),
    Registration(None, "ListStoreRequest"),
    Registration(None, "ListStoreResponse"),
    Registration(None, "FetchStoreRequest"),
    Registration(None, "FetchStoreResponse"),
    Registration(None, "CreateBuildRequest"),
    Registration(None, "CreateMediaRequest"),
    Registration(None, "UploadRequest"),
    Registration(None, "FetchAppRequest"),
    Registration(None, "FetchAppResponse"),
    Registration(None, "ChangeAppItemStateRequest"),
    Registration(None, "FetchBuildRequest"),
    Registration(None, "FetchBuildResponse"),
    Registration(None, "FetchBuildConfigurationRequest"),
    Registration(None, "FetchBuildConfigurationResponse"),
    Registration(None, "FetchBuildUpdatesRequest"),
    Registration(None, "FetchBuildUpdatesResponse")
  ]

  const Table: Registry.Table := Consecutive(ProtocolId, 1, Registrations)

  /** Ids 1 to 21 of family 2, one per call, ascending. */
  lemma TableIsSound()
    ensures |Table| == 21 && Ascending(Table) && DistinctIds(Table)
    ensures InFamily(Table, ProtocolId) && AvoidsNull(Table)
    ensures forall i :: 0 <= i < |Table| ==> Table[i].0.id == i + 1
    ensures DistinctTypes(Table)
  {
    ConsecutiveIsSound(ProtocolId, 1, Registrations);
    PositionsRecovered();
  }

  /**
   * The type names are those of `ola::front::main` with `CreateAppRequest`
   * first, so its position function tells them apart too.
   */
  lemma PositionsRecovered()
    ensures forall i :: 0 <= i < |Table| ==>
      OlaMain.TypeNamePosition(Table[i].1.typeName) == if i == 0 then 21 else i
  {
    AgreesWithMainExceptId1();
    OlaMain.PositionsRecovered();
  }

  /** Every registration of this generation is unnamed. */
  lemma TableIsUnnamed()
    ensures forall i :: 0 <= i < |Table| ==> Table[i].1.name == None
  {
  }

  /**
   * What the two generations agree on: ids 2 to 21 carry the same types;
   * id 1 is `CreateAppRequest` here and `InitRequest` in `ola::front::main`,
   * which moved `CreateAppRequest` to id 22. A peer of one generation thus
   * misreads id 1 from the other.
   */
  lemma AgreesWithMainExceptId1()
    ensures forall i :: 1 <= i < |Table| ==>
      Table[i].0 == OlaMain.Table[i].0 && Table[i].1.typeName == OlaMain.Table[i].1.typeName
    ensures Table[0].0 == OlaMain.Table[0].0 && Table[0].1.typeName != OlaMain.Table[0].1.typeName
    ensures OlaMain.Table[21].1.typeName == Table[0].1.typeName
  {
  }

  /** `protocol_setup`: twenty-one successive registrations. */
  method ProtocolSetup(reg: Registrar)
    requires Free(reg, Table)
    modifies reg
    ensures Installed(reg.table, old(reg.table), Table)
    ensures forall i :: 0 <= i < |Table| ==> reg.Resolve(Table[i].0) == Found(Table[i].1)
    ensures reg.version == old(reg.version) && reg.nullId == old(reg.nullId)
  {
    TableIsSound();
    RegisterAll(reg, Table);
  }
}
