/**
 * Ungated field walks as data.
 *
 * Most message types of the protocol declare a walk that adds a fixed list of
 * fields, always the same ones in the same order. Such a type is described by
 * a `Schema`: its data members with their kinds and default values, and its
 * walk, one `Field` per `add`. A field reads member `src` when encoding and
 * writes member `dst` when decoding; the two differ only for the
 * direction-dependent streams, whose serializer reads one stream member and
 * whose deserializer fills another.
 */
module Reflect {
  import opened Wrappers
  import opened Wire

  datatype Member = Member(name: string, kind: Kind, default: Value)

  datatype Field = Field(tag: Option<nat>, name: string, src: nat, dst: nat, limit: Option<nat>)

  datatype Schema = Schema(typeName: string, members: seq<Member>, walk: seq<Field>)

  /** A reflection-v1 field: explicit tag, no bound. */
  function TaggedField(tag: nat, name: string, member: nat): Field
  {
    Field(Some(tag), name, member, member, None)
  }

  /** A serialization-v2 field: positional, no bound. */
  function PositionalField(name: string, member: nat): Field
  {
    Field(None, name, member, member, None)
  }

  function StrMember(name: string): Member
  {
    Member(name, Str, Text(""))
  }

  function U32Member(name: string, init: u32): Member
  {
    Member(name, UInt32, Num(init))
  }

  predicate FieldsIn(walk: seq<Field>, n: nat)
  {
    forall f :: f in walk ==> f.src < n && f.dst < n
  }

  /** Every field names existing members of one kind, and every default has its member's kind. */
  predicate WellFormed(s: Schema)
  {
    && (forall f :: f in s.walk ==>
          f.src < |s.members| && f.dst < |s.members| && s.members[f.src].kind == s.members[f.dst].kind)
    && (forall i :: 0 <= i < |s.members| ==> HasKind(s.members[i].default, s.members[i].kind))
  }

  predicate Conforms(ms: seq<Member>, vals: seq<Value>)
  {
    |vals| == |ms| && forall i :: 0 <= i < |vals| ==> HasKind(vals[i], ms[i].kind)
  }

  /** A value of the message type: one value per data member, in declaration order. */
  predicate IsInstance(s: Schema, vals: seq<Value>)
  {
    Conforms(s.members, vals)
  }

  /**
   * The object a default constructor builds: every member holds its
   * initializer, so a schema whose initializers have their members' kinds
   * default-constructs an instance of the message type.
   */
  function Defaults(s: Schema): (d: seq<Value>)
    ensures |d| == |s.members|
    ensures forall i :: 0 <= i < |d| ==> d[i] == s.members[i].default
    ensures (forall i :: 0 <= i < |s.members| ==> HasKind(s.members[i].default, s.members[i].kind)) ==> IsInstance(s, d)
    ensures WellFormed(s) ==> IsInstance(s, d)
  {
    seq(|s.members|, i requires 0 <= i < |s.members| => s.members[i].default)
  }

  predicate AllFit(walk: seq<Field>, vals: seq<Value>)
    requires FieldsIn(walk, |vals|)
  {
    forall f :: f in walk ==> Fits(vals[f.src], f.limit)
  }

  /** With a bound on field `k` alone, a value fits the walk exactly when it fits that field. */
  lemma AllFitAt(walk: seq<Field>, vals: seq<Value>, k: nat)
    requires FieldsIn(walk, |vals|) && k < |walk|
    requires forall j :: 0 <= j < |walk| && j != k ==> walk[j].limit.None?
    ensures AllFit(walk, vals) <==> Fits(vals[walk[k].src], walk[k].limit)
  {
    if Fits(vals[walk[k].src], walk[k].limit) {
      forall f | f in walk
        ensures Fits(vals[f.src], f.limit)
      {
        var j :| 0 <= j < |walk| && walk[j] == f;
      }
    } else {
      assert walk[k] in walk;
    }
  }

  /**
   * The serializing walk: one entry per field, in walk order, each carrying the
   * value of the field's source member. A value over its field's bound stops
   * the walk with an error.
   */
  function EncodeWalk(walk: seq<Field>, vals: seq<Value>): (r: Result<seq<Entry>, Error>)
    requires FieldsIn(walk, |vals|)
    ensures r.Ok? <==> AllFit(walk, vals)
    ensures r.Ok? ==> |r.value| == |walk|
    ensures r.Ok? ==> forall i :: 0 <= i < |walk| ==>
      r.value[i] == Entry(walk[i].tag, walk[i].name, vals[walk[i].src])
    ensures r.Err? ==> r.error.LimitExceeded?
    decreases |walk|
  {
    if walk == [] then Ok([])
    else
      var f := walk[0];
      if !Fits(vals[f.src], f.limit) then Err(LimitExceeded(f.name))
      else
        match EncodeWalk(walk[1..], vals)
        case Err(e) => Err(e)
        case Ok(rest) => Ok([Entry(f.tag, f.name, vals[f.src])] + rest)
  }

  /** The members after a decoding walk, and the reason it stopped early, if it did. */
  datatype Decoded = Decoded(fields: seq<Value>, error: Option<Error>)

  /**
   * The deserializing walk: each field reads the next entry into its
   * destination member. A failed read stops the walk and leaves the members
   * written so far; entries after the last field are not read.
   */
  function DecodeWalk(ms: seq<Member>, walk: seq<Field>, vals: seq<Value>, es: seq<Entry>): (d: Decoded)
    requires |vals| == |ms| && FieldsIn(walk, |ms|)
    ensures |d.fields| == |ms|
    ensures Conforms(ms, vals) ==> Conforms(ms, d.fields)
    decreases |walk|
  {
    if walk == [] then Decoded(vals, None)
    else
      var f := walk[0];
      match Read(es, 0, f.tag, f.name, ms[f.dst].kind, f.limit)
      case Err(e) => Decoded(vals, Some(e))
      case Ok(v) => DecodeWalk(ms, walk[1..], vals[f.dst := v], es[1..])
  }

  /** Writing each field's source value into its destination, in walk order. */
  function Applied(walk: seq<Field>, src: seq<Value>, cur: seq<Value>): (r: seq<Value>)
    requires |src| == |cur| && FieldsIn(walk, |cur|)
    ensures |r| == |cur|
    decreases |walk|
  {
    if walk == [] then cur
    else Applied(walk[1..], src, cur[walk[0].dst := src[walk[0].src]])
  }

  predicate KindsAgree(ms: seq<Member>, walk: seq<Field>)
  {
    forall f :: f in walk ==> f.src < |ms| && f.dst < |ms| && ms[f.src].kind == ms[f.dst].kind
  }

  /**
   * Decoding what a walk encoded applies every field, whatever entries follow:
   * trailing entries are skipped.
   */
  lemma {:induction false} DecodeOfEncode(ms: seq<Member>, walk: seq<Field>, vals: seq<Value>,
                                          cur: seq<Value>, extra: seq<Entry>)
    requires Conforms(ms, vals) && |cur| == |ms| && KindsAgree(ms, walk)
    requires AllFit(walk, vals)
    ensures DecodeWalk(ms, walk, cur, EncodeWalk(walk, vals).value + extra)
         == Decoded(Applied(walk, vals, cur), None)
    decreases |walk|
  {
    if walk != [] {
      var f := walk[0];
      WalkTail(ms, walk, vals);
      var tail := EncodeWalk(walk[1..], vals).value;
      var e0 := Entry(f.tag, f.name, vals[f.src]);
      var es := [e0] + tail + extra;
      assert EncodeWalk(walk, vals).value + extra == es;
      ReadsHead(es, e0, tail + extra, ms[f.dst].kind, f.limit);
      DecodeOfEncode(ms, walk[1..], vals, cur[f.dst := vals[f.src]], extra);
    }
  }

  /** The first field's entry heads the encoding, and the rest of the walk keeps the preconditions. */
  lemma WalkTail(ms: seq<Member>, walk: seq<Field>, vals: seq<Value>)
    requires Conforms(ms, vals) && KindsAgree(ms, walk) && AllFit(walk, vals) && walk != []
    ensures KindsAgree(ms, walk[1..]) && AllFit(walk[1..], vals)
    ensures EncodeWalk(walk, vals).value
         == [Entry(walk[0].tag, walk[0].name, vals[walk[0].src])] + EncodeWalk(walk[1..], vals).value
    ensures HasKind(vals[walk[0].src], ms[walk[0].dst].kind) && Fits(vals[walk[0].src], walk[0].limit)
  {
    var f := walk[0];
    assert f in walk;
    assert forall g :: g in walk[1..] ==> g in walk;
    assert HasKind(vals[f.src], ms[f.src].kind);
  }

  /** An entry of the expected kind within its bound reads back as its value. */
  lemma ReadsHead(es: seq<Entry>, e0: Entry, rest: seq<Entry>, k: Kind, limit: Option<nat>)
    requires es == [e0] + rest && HasKind(e0.value, k) && Fits(e0.value, limit)
    ensures Read(es, 0, e0.tag, e0.name, k, limit) == Ok(e0.value)
    ensures es[1..] == rest
  {
  }

  /** A field that no later field overwrites leaves its source value in its destination. */
  lemma {:induction false} AppliedWrites(walk: seq<Field>, src: seq<Value>, cur: seq<Value>, k: nat)
    requires |src| == |cur| && FieldsIn(walk, |cur|) && k < |walk|
    requires forall j :: k < j < |walk| ==> walk[j].dst != walk[k].dst
    ensures Applied(walk, src, cur)[walk[k].dst] == src[walk[k].src]
    decreases |walk|
  {
    assert forall g :: g in walk[1..] ==> g in walk;
    if k == 0 {
      AppliedKeeps(walk[1..], src, cur[walk[0].dst := src[walk[0].src]], walk[0].dst);
    } else {
      AppliedWrites(walk[1..], src, cur[walk[0].dst := src[walk[0].src]], k - 1);
    }
  }

  /** A member that no field writes keeps its value. */
  lemma {:induction false} AppliedKeeps(walk: seq<Field>, src: seq<Value>, cur: seq<Value>, m: nat)
    requires |src| == |cur| && FieldsIn(walk, |cur|) && m < |cur|
    requires forall j :: 0 <= j < |walk| ==> walk[j].dst != m
    ensures Applied(walk, src, cur)[m] == cur[m]
    decreases |walk|
  {
    if walk != [] {
      assert forall g :: g in walk[1..] ==> g in walk;
      AppliedKeeps(walk[1..], src, cur[walk[0].dst := src[walk[0].src]], m);
    }
  }

  predicate DistinctDestinations(walk: seq<Field>)
  {
    forall i, j :: 0 <= i < j < |walk| ==> walk[i].dst != walk[j].dst
  }

  predicate Written(walk: seq<Field>, m: nat)
  {
    exists j :: 0 <= j < |walk| && walk[j].dst == m
  }

  /**
   * Round trip of a message whose walk writes each member at most once:
   * decoding into a default-constructed object what another object encoded
   * succeeds, gives every destination the source's value and leaves every
   * member the walk does not write at its default.
   */
  lemma RoundTrip(s: Schema, vals: seq<Value>)
    requires WellFormed(s) && IsInstance(s, vals) && DistinctDestinations(s.walk)
    requires AllFit(s.walk, vals)
    ensures EncodeWalk(s.walk, vals).Ok?
    ensures var d := DecodeWalk(s.members, s.walk, Defaults(s), EncodeWalk(s.walk, vals).value);
      && d.error == None
      && (forall k :: 0 <= k < |s.walk| ==> d.fields[s.walk[k].dst] == vals[s.walk[k].src])
      && (forall m :: 0 <= m < |s.members| && !Written(s.walk, m) ==> d.fields[m] == s.members[m].default)
  {
    var es := EncodeWalk(s.walk, vals).value;
    DecodeOfEncode(s.members, s.walk, vals, Defaults(s), []);
    assert es + [] == es;
    forall k | 0 <= k < |s.walk|
      ensures Applied(s.walk, vals, Defaults(s))[s.walk[k].dst] == vals[s.walk[k].src]
    {
      AppliedWrites(s.walk, vals, Defaults(s), k);
    }
    forall m | 0 <= m < |s.members| && !Written(s.walk, m)
      ensures Applied(s.walk, vals, Defaults(s))[m] == s.members[m].default
    {
      AppliedKeeps(s.walk, vals, Defaults(s), m);
    }
  }

  /** The walk adds every data member once, in declaration order, reading and writing the same member. */
  predicate InDeclarationOrder(s: Schema)
  {
    |s.walk| == |s.members| && forall k :: 0 <= k < |s.walk| ==> s.walk[k].src == k && s.walk[k].dst == k
  }

  /** A walk over every member in declaration order with no size bound on any field. */
  predicate Plain(s: Schema)
  {
    WellFormed(s) && InDeclarationOrder(s) && forall f :: f in s.walk ==> f.limit.None?
  }

  /** The walk's fields carry the reflection tags 1, 2, ..., in order. */
  predicate TaggedFromOne(s: Schema)
  {
    forall k :: 0 <= k < |s.walk| ==> s.walk[k].tag == Some(k + 1)
  }

  /** For such a message, encode-then-decode restores the whole object. */
  lemma RoundTripRestores(s: Schema, vals: seq<Value>)
    requires WellFormed(s) && InDeclarationOrder(s) && IsInstance(s, vals) && AllFit(s.walk, vals)
    ensures EncodeWalk(s.walk, vals).Ok?
    ensures DecodeWalk(s.members, s.walk, Defaults(s), EncodeWalk(s.walk, vals).value) == Decoded(vals, None)
  {
    forall i, j | 0 <= i < j < |s.walk| ensures s.walk[i].dst != s.walk[j].dst {
      assert s.walk[i].dst == i && s.walk[j].dst == j;
    }
    RoundTrip(s, vals);
    var d := DecodeWalk(s.members, s.walk, Defaults(s), EncodeWalk(s.walk, vals).value);
    forall k | 0 <= k < |vals| ensures d.fields[k] == vals[k] {
      assert s.walk[k].src == k && s.walk[k].dst == k;
    }
    assert d.fields == vals;
  }

  /** A value over the bound of the field that would carry it cannot be decoded. */
  lemma OversizedEntryRejected(s: Schema, vals: seq<Value>, es: seq<Entry>, k: nat)
    requires WellFormed(s) && IsInstance(s, vals) && k < |s.walk|
    requires k < |es| && (s.walk[k].tag.None? || es[k].tag == s.walk[k].tag)
    requires HasKind(es[k].value, s.members[s.walk[k].dst].kind) && !Fits(es[k].value, s.walk[k].limit)
    requires forall j :: 0 <= j < k ==>
      Read(es, j, s.walk[j].tag, s.walk[j].name, s.members[s.walk[j].dst].kind, s.walk[j].limit).Ok?
    ensures DecodeWalk(s.members, s.walk, vals, es).error == Some(LimitExceeded(s.walk[k].name))
  {
    assert FieldsIn(s.walk, |s.members|);
    DecodeStopsAt(s.members, s.walk, vals, es, k);
  }

  lemma {:induction false} DecodeStopsAt(ms: seq<Member>, walk: seq<Field>, vals: seq<Value>, es: seq<Entry>, k: nat)
    requires |vals| == |ms| && FieldsIn(walk, |ms|) && k < |walk| && k < |es|
    requires (walk[k].tag.None? || es[k].tag == walk[k].tag)
    requires HasKind(es[k].value, ms[walk[k].dst].kind) && !Fits(es[k].value, walk[k].limit)
    requires forall j :: 0 <= j < k ==>
      Read(es, j, walk[j].tag, walk[j].name, ms[walk[j].dst].kind, walk[j].limit).Ok?
    ensures DecodeWalk(ms, walk, vals, es).error == Some(LimitExceeded(walk[k].name))
    decreases k
  {
    assert forall g :: g in walk[1..] ==> g in walk;
    if k > 0 {
      var f := walk[0];
      assert Read(es, 0, f.tag, f.name, ms[f.dst].kind, f.limit).Ok?;
      var v := es[0].value;
      forall j | 0 <= j < k - 1
        ensures Read(es[1..], j, walk[1..][j].tag, walk[1..][j].name, ms[walk[1..][j].dst].kind, walk[1..][j].limit).Ok?
      {
        assert Read(es, j + 1, walk[j + 1].tag, walk[j + 1].name, ms[walk[j + 1].dst].kind, walk[j + 1].limit).Ok?;
      }
      DecodeStopsAt(ms, walk[1..], vals[f.dst := v], es[1..], k - 1);
    }
  }

  /**
   * An object of a message type with an ungated walk. `Decode` fills the
   * members field by field, as the deserializer does.
   */
  class Message {
    const schema: Schema
    var fields: seq<Value>

    predicate Valid()
      reads this
    {
      WellFormed(schema) && IsInstance(schema, fields)
    }

    constructor (s: Schema)
      requires WellFormed(s)
      ensures schema == s && fields == Defaults(s) && Valid()
    {
      schema := s;
      fields := Defaults(s);
    }

    function Encode(): Result<seq<Entry>, Error>
      reads this
      requires Valid()
    {
      EncodeWalk(schema.walk, fields)
    }

    method Decode(es: seq<Entry>) returns (error: Option<Error>)
      requires Valid()
      modifies this
      ensures Valid()
      ensures Decoded(fields, error) == DecodeWalk(schema.members, schema.walk, old(fields), es)
    {
      var walk, ms := schema.walk, schema.members;
      var i := 0;
      while i < |walk|
        invariant 0 <= i <= |walk| && i <= |es|
        invariant IsInstance(schema, fields)
        invariant DecodeWalk(ms, walk, old(fields), es) == DecodeWalk(ms, walk[i..], fields, es[i..])
      {
        var f := walk[i];
        assert walk[i..][0] == f && walk[i..][1..] == walk[i + 1..];
        assert f in walk;
        var r := Read(es, i, f.tag, f.name, ms[f.dst].kind, f.limit);
        assert Read(es[i..], 0, f.tag, f.name, ms[f.dst].kind, f.limit) == r;
        if r.Err? {
          return Some(r.error);
        }
        assert es[i..][1..] == es[i + 1..];
        fields := fields[f.dst := r.value];
        i := i + 1;
      }
      return None;
    }
  }

  /** Every instance of a plain message survives encode-then-decode. */
  lemma PlainRestores(s: Schema, vals: seq<Value>)
    requires Plain(s) && IsInstance(s, vals)
    ensures EncodeWalk(s.walk, vals).Ok?
    ensures DecodeWalk(s.members, s.walk, Defaults(s), EncodeWalk(s.walk, vals).value) == Decoded(vals, None)
  {
    assert AllFit(s.walk, vals);
    RoundTripRestores(s, vals);
  }

  /**
   * A reflection message whose data members are all `std::string`s, each
   * added in declaration order under tags 1, 2, ...: member `n_` is walked
   * as `n`.
   */
  function TextMessage(typeName: string, names: seq<string>): (s: Schema)
    ensures |s.members| == |s.walk| == |names|
    ensures forall k :: 0 <= k < |names| ==> s.walk[k].name == names[k] && s.members[k].kind == Str
  {
    Schema(typeName,
      seq(|names|, k requires 0 <= k < |names| => StrMember(names[k] + "_")),
      seq(|names|, k requires 0 <= k < |names| => TaggedField(k + 1, names[k], k)))
  }

  lemma TextMessageIsPlain(typeName: string, names: seq<string>)
    ensures Plain(TextMessage(typeName, names)) && TaggedFromOne(TextMessage(typeName, names))
  {
    var s := TextMessage(typeName, names);
    forall k | 0 <= k < |s.walk|
      ensures s.walk[k] == TaggedField(k + 1, names[k], k)
      ensures s.members[k] == StrMember(names[k] + "_")
    {
    }
    assert forall k :: 0 <= k < |s.members| ==> HasKind(s.members[k].default, s.members[k].kind);
    forall f | f in s.walk
      ensures f.src < |s.members| && f.dst < |s.members| && s.members[f.src].kind == s.members[f.dst].kind
      ensures f.limit.None?
    {
      var k :| 0 <= k < |s.walk| && s.walk[k] == f;
    }
    assert WellFormed(s);
    assert InDeclarationOrder(s);
  }

  /** A data member of a serialization-v2 message: its walk name, kind, initial value and bound. */
  datatype Declared = Declared(name: string, kind: Kind, init: Value, limit: Option<nat>)

  predicate InitsConform(ds: seq<Declared>)
  {
    forall k :: 0 <= k < |ds| ==> HasKind(ds[k].init, ds[k].kind)
  }

  function StrDecl(name: string): Declared
  {
    Declared(name, Str, Text(""), None)
  }

  function U32Decl(name: string, init: u32): Declared
  {
    Declared(name, UInt32, Num(init), None)
  }

  /** `error_` (initially `-1` as a `uint32_t`) and `message_`, walked one after the other. */
  const ErrorDecls: seq<Declared> := [U32Decl("error", U32_MAX), StrDecl("message")]

  /**
   * A serialization-v2 message whose walk adds every data member in
   * declaration order, positionally: member `n_` is walked as `n`.
   */
  function V2Message(typeName: string, ds: seq<Declared>): (s: Schema)
    ensures |s.members| == |s.walk| == |ds|
    ensures forall k :: 0 <= k < |ds| ==> s.walk[k] == Field(None, ds[k].name, k, k, ds[k].limit)
    ensures forall k :: 0 <= k < |ds| ==> s.members[k] == Member(ds[k].name + "_", ds[k].kind, ds[k].init)
  {
    Schema(typeName,
      seq(|ds|, k requires 0 <= k < |ds| => Member(ds[k].name + "_", ds[k].kind, ds[k].init)),
      seq(|ds|, k requires 0 <= k < |ds| => Field(None, ds[k].name, k, k, ds[k].limit)))
  }

  lemma V2MessageShape(typeName: string, ds: seq<Declared>)
    requires InitsConform(ds)
    ensures var s := V2Message(typeName, ds);
      && WellFormed(s) && InDeclarationOrder(s)
      && (forall k :: 0 <= k < |ds| ==>
            s.walk[k] == Field(None, ds[k].name, k, k, ds[k].limit) && s.members[k].kind == ds[k].kind
            && s.members[k].default == ds[k].init)
  {
    var s := V2Message(typeName, ds);
    forall k | 0 <= k < |s.walk|
      ensures s.walk[k] == Field(None, ds[k].name, k, k, ds[k].limit)
      ensures s.members[k] == Member(ds[k].name + "_", ds[k].kind, ds[k].init)
    {
    }
    forall f | f in s.walk
      ensures f.src < |s.members| && f.dst < |s.members| && s.members[f.src].kind == s.members[f.dst].kind
    {
      var k :| 0 <= k < |s.walk| && s.walk[k] == f;
    }
    assert WellFormed(s);
  }

  /**
   * Round trip of such a message: every instance whose bounded members fit
   * their bounds comes back whole; one over a bound cannot be encoded.
   */
  lemma V2MessageRestores(typeName: string, ds: seq<Declared>, vals: seq<Value>)
    requires InitsConform(ds) && IsInstance(V2Message(typeName, ds), vals)
    ensures var s := V2Message(typeName, ds);
      && (EncodeWalk(s.walk, vals).Ok? <==> forall k :: 0 <= k < |ds| ==> Fits(vals[k], ds[k].limit))
      && (EncodeWalk(s.walk, vals).Ok? ==>
            DecodeWalk(s.members, s.walk, Defaults(s), EncodeWalk(s.walk, vals).value) == Decoded(vals, None))
  {
    var s := V2Message(typeName, ds);
    V2MessageShape(typeName, ds);
    if forall k :: 0 <= k < |ds| ==> Fits(vals[k], ds[k].limit) {
      forall f | f in s.walk
        ensures Fits(vals[f.src], f.limit)
      {
        var k :| 0 <= k < |s.walk| && s.walk[k] == f;
      }
      RoundTripRestores(s, vals);
    } else {
      var k :| 0 <= k < |ds| && !Fits(vals[k], ds[k].limit);
      assert s.walk[k] in s.walk;
    }
  }
}
