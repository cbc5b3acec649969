// The base64 pair of utility/src/crypto.cpp. Its text is the same as the
// pair in utility/src/encode.cpp, so the methods `Encode.Base64Encode` and
// `Encode.Base64Decode` model both; this module states the promises of
// the crypto.cpp copy in one place.

module Crypto {
  import opened Wrappers
  import opened Wire
  import opened Encode

  /**
   * The laws proved for utility/src/encode.cpp's pair, restated for the
   * textually identical pair of utility/src/crypto.cpp: padding by
   * `|s| % 3` gives the encoding of section 4 of RFC 4648 and its length;
   * decoding strips at most two '=', yields "" when nothing is left, and
   * undoes encoding.
   */
  lemma Base64Contract(s: seq<Octet>, t: string)
    ensures Base64Chars(s) + Padding[|s| % 3] == Base64Of(s)
    ensures |Base64Of(s)| == 4 * ((|s| + 2) / 3)
    ensures StrippedLength(t) <= |t| <= StrippedLength(t) + 2
    ensures StrippedLength(t) == 0 ==> Base64Bytes(t[..StrippedLength(t)]) == Some([])
    ensures Base64Bytes(Base64Of(s)[..StrippedLength(Base64Of(s))]) == Some(s)
  {
    PaddingTableIsRfc(s);
    Base64OfLength(s);
    Base64RoundTrip(s);
  }
}
