/**
 * The abstract wire format that the solid reflector and serializer stand for.
 *
 * A message encodes to an ordered sequence of entries. Each entry carries the
 * tag of the field it came from (reflection walks give every field an explicit
 * tag; serialization-v2 walks are positional and carry no tag), the diagnostic
 * name passed to `add`, and the field's value. The byte layout of the real
 * codec is not modelled.
 */
module Wire {
  import opened Wrappers

  /** One byte of a `std::string` or `std::vector<char>`. */
  type Octet = x: int | 0 <= x < 0x100

  const U8_MAX: int := 0xFF
  const U16_MAX: int := 0xFFFF
  const U32_MAX: int := 0xFFFF_FFFF
  const U64_MAX: int := 0xFFFF_FFFF_FFFF_FFFF
  const I64_MIN: int := -0x8000_0000_0000_0000
  const I64_MAX: int := 0x7FFF_FFFF_FFFF_FFFF

  /** `uint32_t`, the type of every version field and error code. */
  type u32 = x: int | 0 <= x <= U32_MAX

  /** `uint64_t` where the model does no bitwise arithmetic on it. */
  type u64 = x: int | 0 <= x <= U64_MAX

  /** A field value as it travels on the wire. */
  datatype Value =
    | Num(n: int)                 // any integer field
    | Text(s: string)             // std::string
    | Bytes(b: seq<Octet>)        // std::vector<char> and stream contents
    | List(items: seq<Value>)     // std::vector and std::deque
    | Pair(first: Value, second: Value)
    | Record(fields: seq<Value>)  // a nested record, field by field in its own walk order
    | Nested(entries: seq<Entry>) // a nested walk with its own tags (reflection v1)
    | Bits(bits: seq<bool>)       // std::bitset

  datatype Entry = Entry(tag: Option<nat>, name: string, value: Value)

  /** The shape a field's declared C++ type gives its values. */
  datatype Kind =
    | Int(lo: int, hi: int)
    | Str
    | Blob
    | ListOf(elem: Kind)
    | PairOf(first: Kind, second: Kind)
    | RecordOf(fields: seq<Kind>)
    | Bitset(size: nat)
    | Struct
    | Any

  const UInt8: Kind := Int(0, U8_MAX)
  const UInt32: Kind := Int(0, U32_MAX)
  const UInt64: Kind := Int(0, U64_MAX)
  const Int64: Kind := Int(I64_MIN, I64_MAX)
  const Strings: Kind := ListOf(Str)
  const StringPairs: Kind := ListOf(PairOf(Str, Str))

  predicate HasKind(v: Value, k: Kind)
    decreases k
  {
    match k
    case Int(lo, hi) => v.Num? && lo <= v.n <= hi
    case Str => v.Text?
    case Blob => v.Bytes?
    case ListOf(e) => v.List? && forall i :: 0 <= i < |v.items| ==> HasKind(v.items[i], e)
    case PairOf(a, b) => v.Pair? && HasKind(v.first, a) && HasKind(v.second, b)
    case RecordOf(fs) =>
      v.Record? && |v.fields| == |fs| && forall i :: 0 <= i < |fs| ==> HasKind(v.fields[i], fs[i])
    case Bitset(n) => v.Bits? && |v.bits| == n
    case Struct => v.Nested?
    case Any => true
  }

  /** The length a `limit(n)` or `maxSize(n)` bound is checked against. */
  function Size(v: Value): nat
  {
    match v
    case Text(s) => |s|
    case Bytes(b) => |b|
    case List(items) => |items|
    case _ => 0
  }

  predicate Fits(v: Value, limit: Option<nat>)
  {
    limit.None? || Size(v) <= limit.value
  }

  function Tagged(tag: nat, name: string, v: Value): Entry
  {
    Entry(Some(tag), name, v)
  }

  function TagsOf(es: seq<Entry>): (ts: seq<Option<nat>>)
    ensures |ts| == |es| && forall i :: 0 <= i < |es| ==> ts[i] == es[i].tag
  {
    seq(|es|, i requires 0 <= i < |es| => es[i].tag)
  }

  /** Why a walk stopped. */
  datatype Error =
    | Missing(field: string)
    | TagMismatch(field: string)
    | KindMismatch(field: string)
    | LimitExceeded(field: string)

  /**
   * One `add` on the decoding side: the entry at position `i` must exist,
   * carry the expected tag (when the walk is tagged), hold a value of the
   * field's kind and fit the field's bound.
   */
  function Read(es: seq<Entry>, i: nat, tag: Option<nat>, name: string, k: Kind, limit: Option<nat>)
    : (r: Result<Value, Error>)
    ensures r.Ok? <==>
      i < |es| && (tag.None? || es[i].tag == tag) && HasKind(es[i].value, k) && Fits(es[i].value, limit)
    ensures r.Ok? ==> r.value == es[i].value
    ensures r.Err? && i < |es| && (tag.None? || es[i].tag == tag) && HasKind(es[i].value, k)
      ==> r.error == LimitExceeded(name)
  {
    if i >= |es| then Err(Missing(name))
    else if tag.Some? && es[i].tag != tag then Err(TagMismatch(name))
    else if !HasKind(es[i].value, k) then Err(KindMismatch(name))
    else if !Fits(es[i].value, limit) then Err(LimitExceeded(name))
    else Ok(es[i].value)
  }

  /** Reading a `uint32_t` field with a reflection tag. */
  function ReadU32(es: seq<Entry>, i: nat, tag: nat, name: string): (r: Result<u32, Error>)
    ensures r.Ok? <==>
      i < |es| && es[i].tag == Some(tag) && es[i].value.Num? && 0 <= es[i].value.n <= U32_MAX
    ensures r.Ok? ==> es[i].value == Num(r.value)
  {
    match Read(es, i, Some(tag), name, UInt32, None)
    case Ok(v) => Ok(v.n)
    case Err(e) => Err(e)
  }

  /** Reading a nested record with a reflection tag: its own entries, for its own walk. */
  function ReadNested(es: seq<Entry>, i: nat, tag: nat, name: string): (r: Result<seq<Entry>, Error>)
    ensures r.Ok? <==> i < |es| && es[i].tag == Some(tag) && es[i].value.Nested?
    ensures r.Ok? ==> es[i].value == Nested(r.value)
  {
    match Read(es, i, Some(tag), name, Struct, None)
    case Ok(v) => Ok(v.entries)
    case Err(e) => Err(e)
  }
}
