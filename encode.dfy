// Text codecs of myapps::utility: lowercase hexadecimal and base64.
//
// Strings handled by these codecs carry arbitrary bytes, so they are
// modelled as `seq<Octet>`; the textual side (hex digits, base64
// characters) is a Dafny `string`.

module Encode {
  import opened Wrappers
  import opened Wire

  // ---------------------------------------------------------------------
  // Hexadecimal
  // ---------------------------------------------------------------------

  /** A character `hex_encode` can produce: 0-9 or a-f. */
  predicate IsHexDigit(c: char) {
    ('0' <= c <= '9') || ('a' <= c <= 'f')
  }

  /** The lowercase digit for a nibble, as `std::hex` prints it. */
  function HexDigit(n: int): (c: char)
    requires 0 <= n < 16
    ensures IsHexDigit(c)
  {
    if n < 10 then (48 + n) as char else (97 + n - 10) as char
  }

  /** Two digits per byte, high nibble first (setw(2), setfill('0')). */
  function HexByte(b: Octet): (t: string)
    ensures |t| == 2 && IsHexDigit(t[0]) && IsHexDigit(t[1])
    ensures HexCharDecode(t[0]) == b / 16 && HexCharDecode(t[1]) == b % 16
  {
    HexDigitDecodes(b / 16);
    HexDigitDecodes(b % 16);
    [HexDigit(b / 16), HexDigit(b % 16)]
  }

  /** The text `hex_encode` produces for `s`. */
  function HexOf(s: seq<Octet>): string
    decreases |s|
  {
    if |s| == 0 then "" else HexOf(s[..|s| - 1]) + HexByte(s[|s| - 1])
  }

  lemma {:induction false} HexOfShape(s: seq<Octet>)
    ensures |HexOf(s)| == 2 * |s|
    ensures forall k :: 0 <= k < |s| ==>
              HexOf(s)[2 * k] == HexDigit(s[k] / 16) && HexOf(s)[2 * k + 1] == HexDigit(s[k] % 16)
    decreases |s|
  {
    if |s| > 0 {
      var p := s[..|s| - 1];
      HexOfShape(p);
      assert HexOf(s) == HexOf(p) + HexByte(s[|s| - 1]);
      forall k | 0 <= k < |s|
        ensures HexOf(s)[2 * k] == HexDigit(s[k] / 16) && HexOf(s)[2 * k + 1] == HexDigit(s[k] % 16)
      {
        if k < |p| {
          assert s[k] == p[k];
        }
      }
    }
  }

  lemma HexOfDigits(s: seq<Octet>)
    ensures forall j :: 0 <= j < |HexOf(s)| ==> IsHexDigit(HexOf(s)[j])
  {
    HexOfShape(s);
    forall j | 0 <= j < |HexOf(s)|
      ensures IsHexDigit(HexOf(s)[j])
    {
      var k := j / 2;
      assert j == 2 * k || j == 2 * k + 1;
    }
  }

  /**
   * `hex_encode`: appends two lowercase digits per byte to the output
   * stream.
   */
  method HexEncode(s: seq<Octet>) returns (r: string)
    ensures r == HexOf(s)
    ensures |r| == 2 * |s|
    ensures forall j :: 0 <= j < |r| ==> IsHexDigit(r[j])
    ensures forall k :: 0 <= k < |s| ==> r[2 * k] == HexDigit(s[k] / 16) && r[2 * k + 1] == HexDigit(s[k] % 16)
  {
    r := "";
    var i := 0;
    while i < |s|
      invariant 0 <= i <= |s|
      invariant r == HexOf(s[..i])
    {
      assert s[..i + 1][..i] == s[..i];
      r := r + HexByte(s[i]);
      i := i + 1;
    }
    assert s[..|s|] == s;
    HexOfShape(s);
    HexOfDigits(s);
  }

  /** `hex_char_decode(char)`: the nibble a lowercase hex digit stands for. */
  function HexCharDecode(c: char): (n: int)
    requires IsHexDigit(c)
    ensures 0 <= n < 16
    ensures HexDigit(n) == c
  {
    if '0' <= c <= '9' then c as int - '0' as int else (c as int - 'a' as int) + 10
  }

  lemma HexDigitDecodes(n: int)
    requires 0 <= n < 16
    ensures HexCharDecode(HexDigit(n)) == n
  {
    var c := HexDigit(n);
    if n < 10 {
      assert '0' <= c <= '9';
    } else {
      assert !('0' <= c <= '9');
    }
  }

  /**
   * `hex_char_decode(const char*)`: `(hi << 4) | lo` narrowed to a byte.
   * With both nibbles below 16 the shift-or is `hi * 16 + lo`.
   */
  function HexPairDecode(hi: char, lo: char): (b: Octet)
    requires IsHexDigit(hi) && IsHexDigit(lo)
    ensures b / 16 == HexCharDecode(hi) && b % 16 == HexCharDecode(lo)
    ensures HexByte(b) == [hi, lo]
  {
    HexCharDecode(hi) * 16 + HexCharDecode(lo)
  }

  /** The characters `hex_decode` reads must be lowercase hex digits. */
  predicate HexDigits(t: string) {
    forall j :: 0 <= j < |t| / 2 * 2 ==> IsHexDigit(t[j])
  }

  /** What `hex_decode` produces: one byte per full pair of digits. */
  function HexBytes(t: string): (r: seq<Octet>)
    requires HexDigits(t)
    ensures |r| == |t| / 2
  {
    seq(|t| / 2, i requires 0 <= i < |t| / 2 => HexPairDecode(t[2 * i], t[2 * i + 1]))
  }

  /**
   * `hex_decode`: sizes the output to `|t| / 2` and fills it pair by
   * pair; an odd trailing character is never read.
   */
  method HexDecode(t: string) returns (r: seq<Octet>)
    requires HexDigits(t)
    ensures r == HexBytes(t)
    ensures |r| == |t| / 2
    ensures forall i :: 0 <= i < |r| ==> HexByte(r[i]) == t[2 * i..2 * i + 2]
  {
    var out := new Octet[|t| / 2];
    var p := 0;
    for i := 0 to out.Length
      invariant p == 2 * i
      invariant forall k :: 0 <= k < i ==> out[k] == HexPairDecode(t[2 * k], t[2 * k + 1])
    {
      out[i] := HexPairDecode(t[p], t[p + 1]);
      p := p + 2;
    }
    r := out[..];
    forall i | 0 <= i < |r|
      ensures HexByte(r[i]) == t[2 * i..2 * i + 2]
    {
      assert t[2 * i..2 * i + 2] == [t[2 * i], t[2 * i + 1]];
    }
  }

  /** `hex_decode(hex_encode(s)) == s`. */
  lemma HexRoundTrip(s: seq<Octet>)
    ensures HexDigits(HexOf(s))
    ensures HexBytes(HexOf(s)) == s
  {
    HexOfShape(s);
    HexOfDigits(s);
    var t := HexOf(s);
    forall i | 0 <= i < |s|
      ensures HexBytes(t)[i] == s[i]
    {
      HexDigitDecodes(s[i] / 16);
      HexDigitDecodes(s[i] % 16);
    }
  }

  /** The reverse direction: re-encoding decoded digits gives the digits back. */
  lemma HexDecodeEncode(t: string)
    requires HexDigits(t)
    ensures HexOf(HexBytes(t)) == t[..|t| / 2 * 2]
  {
    var r := HexBytes(t);
    HexOfShape(r);
    forall j | 0 <= j < |t| / 2 * 2
      ensures HexOf(r)[j] == t[j]
    {
      var k := j / 2;
      assert HexByte(r[k]) == [t[2 * k], t[2 * k + 1]];
    }
  }

  /** A trailing odd character does not change what `hex_decode` yields. */
  lemma HexOddIgnored(t: string, c: char)
    requires |t| % 2 == 0 && HexDigits(t)
    ensures HexDigits(t + [c])
    ensures HexBytes(t + [c]) == HexBytes(t)
  {
    assert |t + [c]| / 2 == |t| / 2;
    assert forall j :: 0 <= j < |t| ==> (t + [c])[j] == t[j];
  }

  // ---------------------------------------------------------------------
  // Base64, section 4 of RFC 4648
  // ---------------------------------------------------------------------

  type Sextet = x: int | 0 <= x < 64

  /** The character for a 6-bit value: A-Z, a-z, 0-9, '+', '/'. */
  function Base64Char(x: Sextet): (c: char)
    ensures c != '='
  {
    if x < 26 then (65 + x) as char
    else if x < 52 then (97 + x - 26) as char
    else if x < 62 then (48 + x - 52) as char
    else if x == 62 then '+'
    else '/'
  }

  /** The 6-bit value of an alphabet character; `None` outside the alphabet. */
  function SextetOf(c: char): Option<Sextet> {
    if 'A' <= c <= 'Z' then Some(c as int - 65)
    else if 'a' <= c <= 'z' then Some(c as int - 97 + 26)
    else if '0' <= c <= '9' then Some(c as int - 48 + 52)
    else if c == '+' then Some(62)
    else if c == '/' then Some(63)
    else None
  }

  /** The alphabet is a bijection between 6-bit values and its 64 characters. */
  lemma AlphabetIsBijective(x: Sextet, c: char)
    ensures SextetOf(Base64Char(x)) == Some(x)
    ensures SextetOf(c) == Some(x) ==> Base64Char(x) == c
    ensures SextetOf('=') == None
  {
  }

  /**
   * A 24-bit input group split into four 6-bit groups, most significant
   * bits first: the top six bits of b0; the low two of b0 and top four of
   * b1; the low four of b1 and top two of b2; the low six of b2.
   */
  function Quad(b0: Octet, b1: Octet, b2: Octet): (q: seq<Sextet>)
    ensures |q| == 4
  {
    [b0 / 4, b0 % 4 * 16 + b1 / 16, b1 % 16 * 4 + b2 / 64, b2 % 64]
  }

  /** Four 6-bit groups concatenated and split into three bytes. */
  function Triple(x0: Sextet, x1: Sextet, x2: Sextet, x3: Sextet): (t: seq<Octet>)
    ensures |t| == 3
  {
    [x0 * 4 + x1 / 16, x1 % 16 * 16 + x2 / 4, x2 % 4 * 64 + x3]
  }

  lemma QuadTriple(b0: Octet, b1: Octet, b2: Octet)
    ensures var q := Quad(b0, b1, b2); Triple(q[0], q[1], q[2], q[3]) == [b0, b1, b2]
    ensures b2 == 0 ==> Quad(b0, b1, b2)[3] == 0
    ensures b1 == 0 && b2 == 0 ==> Quad(b0, b1, b2)[2] == 0
  {
    var q := Quad(b0, b1, b2);
    assert q[1] / 16 == b0 % 4 && q[1] % 16 == b1 / 16;
    assert q[2] / 4 == b1 % 16 && q[2] % 4 == b2 / 64;
  }

  /**
   * The 6-bit groups of `s`: full 24-bit groups, then a final group of
   * 8 or 16 bits padded with zero bits to 2 or 3 sextets.
   */
  function SextetsOf(s: seq<Octet>): (xs: seq<Sextet>)
    ensures |xs| == |s| / 3 * 4 + [0, 2, 3][|s| % 3]
    decreases |s|
  {
    if |s| >= 3 then Quad(s[0], s[1], s[2]) + SextetsOf(s[3..])
    else if |s| == 2 then Quad(s[0], s[1], 0)[..3]
    else if |s| == 1 then Quad(s[0], 0, 0)[..2]
    else []
  }

  /** Characters for a sequence of 6-bit values. */
  function Chars(xs: seq<Sextet>): (t: string)
    ensures |t| == |xs|
    ensures forall j :: 0 <= j < |t| ==> t[j] != '='
  {
    seq(|xs|, j requires 0 <= j < |xs| => Base64Char(xs[j]))
  }

  lemma CharsAppend(a: seq<Sextet>, b: seq<Sextet>)
    ensures Chars(a + b) == Chars(a) + Chars(b)
  {
    assert forall j :: 0 <= j < |a| + |b| ==> Chars(a + b)[j] == (Chars(a) + Chars(b))[j];
  }

  /** What Boost's base64 iterator emits: the unpadded encoding. */
  function Base64Chars(s: seq<Octet>): string {
    Chars(SextetsOf(s))
  }

  /**
   * The encoding of section 4 of RFC 4648, group by group: a final
   * group of one byte ends in "==", of two bytes in "=".
   */
  function Base64Of(s: seq<Octet>): string
    decreases |s|
  {
    if |s| >= 3 then Chars(Quad(s[0], s[1], s[2])) + Base64Of(s[3..])
    else if |s| == 2 then Chars(Quad(s[0], s[1], 0)[..3]) + "="
    else if |s| == 1 then Chars(Quad(s[0], 0, 0)[..2]) + "=="
    else ""
  }

  /** `base64_padding`, indexed by the input length modulo 3. */
  const Padding: seq<string> := ["", "==", "="]

  /** Unpadded characters plus the padding table give the RFC encoding. */
  lemma {:induction false} PaddingTableIsRfc(s: seq<Octet>)
    ensures Base64Chars(s) + Padding[|s| % 3] == Base64Of(s)
    decreases |s|
  {
    if |s| >= 3 {
      PaddingTableIsRfc(s[3..]);
      FullGroupChars(s);
      assert |s[3..]| % 3 == |s| % 3;
    } else {
      FinalGroupChars(s);
    }
  }

  /** A full 24-bit group contributes its four characters ahead of the rest. */
  lemma FullGroupChars(s: seq<Octet>)
    requires |s| >= 3
    ensures Base64Chars(s) == Chars(Quad(s[0], s[1], s[2])) + Base64Chars(s[3..])
    ensures Base64Of(s) == Chars(Quad(s[0], s[1], s[2])) + Base64Of(s[3..])
  {
    CharsAppend(Quad(s[0], s[1], s[2]), SextetsOf(s[3..]));
  }

  /** A final group of fewer than three bytes: its characters and the padding. */
  lemma FinalGroupChars(s: seq<Octet>)
    requires |s| < 3
    ensures Base64Chars(s) + Padding[|s| % 3] == Base64Of(s)
  {
    if |s| == 2 {
      assert Padding[2] == "=";
    } else if |s| == 1 {
      assert Padding[1] == "==";
    } else {
      assert Padding[0] == "";
    }
  }

  lemma {:induction false} Base64OfLength(s: seq<Octet>)
    ensures |Base64Of(s)| == 4 * ((|s| + 2) / 3)
    decreases |s|
  {
    if |s| >= 3 {
      Base64OfLength(s[3..]);
    }
  }

  /**
   * `base64_encode`: the unpadded characters, then `base64_padding[|s| % 3]`.
   */
  method Base64Encode(s: seq<Octet>) returns (r: string)
    ensures r == Base64Of(s)
    ensures |r| == 4 * ((|s| + 2) / 3)
    ensures r[..|r| - |Padding[|s| % 3]|] == Base64Chars(s)
  {
    r := Base64Chars(s);
    r := r + Padding[|s| % 3];
    PaddingTableIsRfc(s);
    Base64OfLength(s);
    assert r[..|r| - |Padding[|s| % 3]|] == Base64Chars(s);
  }

  /** The 6-bit values of `t`, or `None` if a character is outside the alphabet. */
  function Sextets(t: string): (r: Option<seq<Sextet>>)
    ensures r.Some? ==> |r.value| == |t|
  {
    if forall j :: 0 <= j < |t| ==> SextetOf(t[j]).Some?
    then Some(seq(|t|, j requires 0 <= j < |t| => SextetOf(t[j]).value))
    else None
  }

  lemma SextetsOfChars(xs: seq<Sextet>)
    ensures Sextets(Chars(xs)) == Some(xs)
  {
    forall j | 0 <= j < |xs| ensures SextetOf(Chars(xs)[j]) == Some(xs[j]) {
      AlphabetIsBijective(xs[j], Chars(xs)[j]);
    }
    var t := Chars(xs);
    assert seq(|t|, j requires 0 <= j < |t| => SextetOf(t[j]).value) == xs;
  }

  /**
   * 6-bit values regrouped into bytes; a trailing partial group keeps
   * the whole bytes it holds (two sextets one byte, three sextets two) and
   * drops the leftover bits.
   */
  function Regroup(xs: seq<Sextet>): (r: seq<Octet>)
    ensures |r| == |xs| / 4 * 3 + [0, 0, 1, 2][|xs| % 4]
    decreases |xs|
  {
    if |xs| >= 4 then Triple(xs[0], xs[1], xs[2], xs[3]) + Regroup(xs[4..])
    else if |xs| == 3 then Triple(xs[0], xs[1], xs[2], 0)[..2]
    else if |xs| == 2 then Triple(xs[0], xs[1], 0, 0)[..1]
    else []
  }

  lemma {:induction false} RegroupSextets(s: seq<Octet>)
    ensures Regroup(SextetsOf(s)) == s
    decreases |s|
  {
    if |s| >= 3 {
      FullGroupRegroups(s);
      RegroupSextets(s[3..]);
      assert s == [s[0], s[1], s[2]] + s[3..];
    } else if |s| == 2 {
      QuadTriple(s[0], s[1], 0);
    } else if |s| == 1 {
      QuadTriple(s[0], 0, 0);
    }
  }

  /** A full 24-bit group regroups to its own three bytes ahead of the rest. */
  lemma FullGroupRegroups(s: seq<Octet>)
    requires |s| >= 3
    ensures Regroup(SextetsOf(s)) == [s[0], s[1], s[2]] + Regroup(SextetsOf(s[3..]))
  {
    var q := Quad(s[0], s[1], s[2]);
    var xs := SextetsOf(s);
    assert xs[..4] == q && xs[4..] == SextetsOf(s[3..]);
    QuadTriple(s[0], s[1], s[2]);
  }

  /**
   * The RFC 4648 decoding of unpadded text: four characters per three
   * bytes, a final two or three characters for one or two bytes; an error
   * for a character outside the alphabet.
   */
  function Base64Bytes(t: string): (r: Option<seq<Octet>>)
    ensures r.None? <==> exists j :: 0 <= j < |t| && SextetOf(t[j]).None?
    ensures r.Some? ==> |r.value| == |t| / 4 * 3 + [0, 0, 1, 2][|t| % 4]
  {
    match Sextets(t)
    case None => None
    case Some(xs) => Some(Regroup(xs))
  }

  /**
   * The length left after removing at most two trailing '=': all removed
   * characters are '=', and fewer than two are removed only when the next
   * one is not '=' or nothing remains.
   */
  function StrippedLength(t: string): (n: nat)
    ensures n <= |t| <= n + 2
    ensures forall j :: n <= j < |t| ==> t[j] == '='
    ensures |t| < n + 2 && n > 0 ==> t[n - 1] != '='
  {
    if |t| > 0 && t[|t| - 1] == '=' then
      if |t| > 1 && t[|t| - 2] == '=' then |t| - 2 else |t| - 1
    else |t|
  }

  /**
   * `base64_decode`: decrements `size` over at most two trailing '=',
   * returns "" when nothing is left, and decodes the rest.
   */
  method Base64Decode(t: string) returns (r: Option<seq<Octet>>)
    ensures r == Base64Bytes(t[..StrippedLength(t)])
    ensures StrippedLength(t) == 0 ==> r == Some([])
  {
    var size := |t|;
    if size > 0 && t[size - 1] == '=' {
      size := size - 1;
      if size > 0 && t[size - 1] == '=' {
        size := size - 1;
      }
    }
    if size == 0 {
      assert t[..0] == [];
      return Some([]);
    }
    r := Base64Bytes(t[..size]);
  }

  /** `base64_decode(base64_encode(s)) == s`. */
  lemma Base64RoundTrip(s: seq<Octet>)
    ensures StrippedLength(Base64Of(s)) == |Base64Chars(s)|
    ensures Base64Bytes(Base64Of(s)[..StrippedLength(Base64Of(s))]) == Some(s)
  {
    PaddingTableIsRfc(s);
    var t := Base64Of(s);
    var c := Base64Chars(s);
    assert t == c + Padding[|s| % 3];
    assert t[..|c|] == c;
    SextetsOfChars(SextetsOf(s));
    RegroupSextets(s);
  }
}
