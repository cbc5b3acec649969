/**
 * The registrar that `configure_protocol` and the `protocol_setup*` functions
 * fill: a map from a message type id to the type registered under it. The
 * solid `Protocol` it stands for is not part of this model; this class fixes
 * the behaviour the tables rely on: a key is registered at most once, the
 * reserved null id is never registered, and lookups report a missing key.
 */
module Registry {
  import opened Wrappers

  type u8 = x: int | 0 <= x < 0x100
  type u16 = x: int | 0 <= x < 0x1_0000

  /** `std::pair<uint8_t, uint16_t>`: the protocol family and the message id within it. */
  datatype TypeId = TypeId(family: u8, id: u16)

  /** What one `_rreg`/`_r` call records: the optional diagnostic name and the C++ type. */
  datatype Registration = Registration(name: Option<string>, typeName: string)

  datatype Lookup = Found(registration: Registration) | NotFound | Reserved

  class Registrar {
    var version: Option<(nat, nat)>
    var nullId: Option<TypeId>
    var table: map<TypeId, Registration>

    constructor ()
      ensures version == None && nullId == None && table == map[]
    {
      version, nullId, table := None, None, map[];
    }

    /** `_rproto.version(major, minor)`. */
    method SetVersion(major: nat, minor: nat)
      modifies this
      ensures version == Some((major, minor))
      ensures nullId == old(nullId) && table == old(table)
    {
      version := Some((major, minor));
    }

    /** `_rproto.null(id)`: reserve `id` as the id no message is sent under. */
    method SetNull(id: TypeId)
      modifies this
      ensures nullId == Some(id)
      ensures version == old(version) && table == old(table)
    {
      nullId := Some(id);
    }

    predicate CanRegister(id: TypeId)
      reads this
    {
      id !in table && nullId != Some(id)
    }

    /** One registration. It takes effect only for a fresh key other than the null id. */
    method Register(id: TypeId, r: Registration) returns (ok: bool)
      modifies this
      ensures ok == old(CanRegister(id))
      ensures table == if ok then old(table)[id := r] else old(table)
      ensures version == old(version) && nullId == old(nullId)
      ensures ok ==> Resolve(id) == Found(r)
    {
      ok := id !in table && nullId != Some(id);
      if ok {
        table := table[id := r];
      }
    }

    /** Dispatch of a received type id. */
    function Resolve(id: TypeId): (l: Lookup)
      reads this
      ensures l.Reserved? <==> nullId == Some(id)
      ensures l.Found? <==> id in table && nullId != Some(id)
      ensures l.Found? ==> l.registration == table[id]
    {
      if nullId == Some(id) then Reserved
      else if id in table then Found(table[id])
      else NotFound
    }
  }

  /** A registration list as written in the source: one `(id, registration)` per call, in call order. */
  type Table = seq<(TypeId, Registration)>

  predicate DistinctIds(t: Table)
  {
    forall i, j :: 0 <= i < j < |t| ==> t[i].0 != t[j].0
  }

  predicate DistinctTypes(t: Table)
  {
    forall i, j :: 0 <= i < j < |t| ==> t[i].1.typeName != t[j].1.typeName
  }

  predicate DistinctNames(t: Table)
  {
    forall i, j :: 0 <= i < j < |t| ==> t[i].1.name != t[j].1.name
  }

  /** Ids ascending within one family, in call order, as every table is written. */
  predicate Ascending(t: Table)
  {
    forall i :: 0 <= i < |t| - 1 ==> t[i].0.family == t[i + 1].0.family && t[i].0.id < t[i + 1].0.id
  }

  lemma {:induction false} AscendingBetween(t: Table, i: nat, j: nat)
    requires Ascending(t) && i < j < |t|
    ensures t[i].0.family == t[j].0.family && t[i].0.id < t[j].0.id
    decreases j - i
  {
    var k := j - 1;
    assert t[k].0.family == t[k + 1].0.family && t[k].0.id < t[k + 1].0.id;
    if i < k {
      AscendingBetween(t, i, k);
    }
  }

  /** An ascending table never repeats an id. */
  lemma AscendingIsDistinct(t: Table)
    requires Ascending(t)
    ensures DistinctIds(t)
  {
    forall i, j | 0 <= i < j < |t|
      ensures t[i].0 != t[j].0
    {
      AscendingBetween(t, i, j);
    }
  }

  predicate InFamily(t: Table, family: u8)
  {
    forall i :: 0 <= i < |t| ==> t[i].0.family == family
  }

  predicate AvoidsNull(t: Table)
  {
    forall i :: 0 <= i < |t| ==> t[i].0 != TypeId(0, 0)
  }

  /**
   * Registrations under the successive ids `first`, `first + 1`, ... of one
   * family, in call order: how every registration list of the protocol is
   * written, one literal id per call.
   */
  function Consecutive(family: u8, first: nat, regs: seq<Registration>): (t: Table)
    requires first + |regs| <= 0x1_0000
    ensures |t| == |regs|
    ensures forall i :: 0 <= i < |t| ==> t[i].0 == TypeId(family, first + i) && t[i].1 == regs[i]
  {
    seq(|regs|, i requires 0 <= i < |regs| => (TypeId(family, first + i), regs[i]))
  }

  /** A consecutive list ascends within its family, so it never repeats an id, and avoids the null id from id 1 on. */
  lemma ConsecutiveIsSound(family: u8, first: nat, regs: seq<Registration>)
    requires first + |regs| <= 0x1_0000
    ensures Ascending(Consecutive(family, first, regs)) && DistinctIds(Consecutive(family, first, regs))
    ensures InFamily(Consecutive(family, first, regs), family)
    ensures first > 0 ==> AvoidsNull(Consecutive(family, first, regs))
  {
    AscendingIsDistinct(Consecutive(family, first, regs));
  }

  /** Two ascending lists of one family, the second starting above the first's end, ascend together. */
  lemma AscendingAppend(a: Table, b: Table)
    requires Ascending(a) && Ascending(b)
    requires |a| > 0 && |b| > 0 ==> a[|a| - 1].0.family == b[0].0.family && a[|a| - 1].0.id < b[0].0.id
    ensures Ascending(a + b)
  {
    var t := a + b;
    forall i | 0 <= i < |t| - 1
      ensures t[i].0.family == t[i + 1].0.family && t[i].0.id < t[i + 1].0.id
    {
      if i + 1 < |a| {
        assert t[i] == a[i] && t[i + 1] == a[i + 1];
      } else if i + 1 == |a| {
        assert t[i] == a[|a| - 1] && t[i + 1] == b[0];
      } else {
        assert t[i] == b[i - |a|] && t[i + 1] == b[i - |a| + 1];
      }
    }
  }

  /** Every key of the table is still free in `reg`. */
  predicate Free(reg: Registrar, t: Table)
    reads reg
  {
    forall i :: 0 <= i < |t| ==> reg.CanRegister(t[i].0)
  }

  /** The registrar's table is the old one plus exactly the table's registrations. */
  predicate Installed(now: map<TypeId, Registration>, before: map<TypeId, Registration>, t: Table)
  {
    && (forall i :: 0 <= i < |t| ==> t[i].0 in now && now[t[i].0] == t[i].1)
    && (forall k :: k in before ==> k in now && now[k] == before[k])
    && (forall k :: k in now ==> k in before || exists i :: 0 <= i < |t| && t[i].0 == k)
  }

  /** Registering the next entry of the table under a fresh key extends what is installed by that entry. */
  lemma InstalledExtend(now: map<TypeId, Registration>, before: map<TypeId, Registration>, t: Table, i: nat)
    requires i < |t| && Installed(now, before, t[..i]) && t[i].0 !in now
    ensures Installed(now[t[i].0 := t[i].1], before, t[..i + 1])
  {
    var after := now[t[i].0 := t[i].1];
    var u := t[..i + 1];
    forall j | 0 <= j < |u| ensures u[j].0 in after && after[u[j].0] == u[j].1 {
      if j < i {
        assert t[..i][j] == u[j];
      }
    }
    forall k | k in after ensures k in before || exists j :: 0 <= j < |u| && u[j].0 == k {
      if k != t[i].0 {
        assert k in now;
        if k !in before {
          var j :| 0 <= j < i && t[..i][j].0 == k;
          assert u[j] == t[..i][j];
        }
      } else {
        assert u[i].0 == k;
      }
    }
  }

  /**
   * The successive `_rreg(id, name, type)` calls of a registration list, in
   * call order. With distinct, free keys every call takes effect.
   */
  method RegisterAll(reg: Registrar, t: Table)
    requires DistinctIds(t) && Free(reg, t)
    modifies reg
    ensures Installed(reg.table, old(reg.table), t)
    ensures forall i :: 0 <= i < |t| ==> reg.Resolve(t[i].0) == Found(t[i].1)
    ensures reg.version == old(reg.version) && reg.nullId == old(reg.nullId)
  {
    var i := 0;
    while i < |t|
      invariant 0 <= i <= |t|
      invariant Installed(reg.table, old(reg.table), t[..i])
      invariant forall j :: i <= j < |t| ==> reg.CanRegister(t[j].0)
      invariant forall j :: 0 <= j < |t| ==> reg.nullId != Some(t[j].0)
      invariant reg.version == old(reg.version) && reg.nullId == old(reg.nullId)
    {
      ghost var now := reg.table;
      var ok := reg.Register(t[i].0, t[i].1);
      assert ok;
      InstalledExtend(now, old(reg.table), t, i);
      i := i + 1;
    }
    assert t[..|t|] == t;
  }
}
