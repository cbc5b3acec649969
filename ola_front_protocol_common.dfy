/** Definitions shared by every `ola::front` protocol generation (ola_front_protocol_common.hpp). */
module OlaCommon {
  import opened Wrappers
  import opened Registry

  /**
   * `TypeIdHash`, with `std::hash` of an unsigned integer taken as the identity
   * (what the common standard libraries do) and `size_t` as 64 bits. The
   * 8-bit family and the id shifted left by 8 occupy disjoint bits, so their
   * XOR is taken here as their sum.
   */
  function TypeIdHash(p: TypeId): (h: nat)
    ensures h % 0x100 == p.family && h / 0x100 == p.id
    ensures h < 0x100_0000
  {
    p.family + p.id * 0x100
  }

  /** Distinct type ids never share a hash bucket key. */
  lemma TypeIdHashInjective(a: TypeId, b: TypeId)
    requires TypeIdHash(a) == TypeIdHash(b)
    ensures a == b
  {
  }

  lemma NullIdHashesToZero()
    ensures TypeIdHash(TypeId(0, 0)) == 0
  {
  }

  /** `protocol_setup`: protocol version 2.0 and the null type id `(0,0)`. */
  method ProtocolSetup(reg: Registrar)
    modifies reg
    ensures reg.version == Some((2, 0)) && reg.nullId == Some(TypeId(0, 0))
    ensures reg.table == old(reg.table)
  {
    reg.SetVersion(2, 0);
    reg.SetNull(TypeId(0, 0));
  }
}
