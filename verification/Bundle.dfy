/** `encodeBundle` / `decodeBundle`: base64url by rewriting standard base64, on the JSON bytes. */
module Bundle {
  import opened Prelude
  import opened Base64

  /** `s.replace(/from/g, to)` for single characters. */
  function Replace(s: string, from: char, to: char): string {
    if s == [] then [] else Replace(s[..|s| - 1], from, to) + [if s[|s| - 1] == from then to else s[|s| - 1]]
  }

  function EncodeBundle(json: Bytes): string {
    StripPad(Replace(Replace(EncodePadded(json), '+', '-'), '/', '_'))
  }

  /** Buffer.from is modelled by strict decoding, which agrees with it on well-formed text. */
  function DecodeBundle(blob: string): Option<Bytes> {
    var b64 := Replace(Replace(blob, '-', '+'), '_', '/');
    DecodePadded(b64 + Pads((4 - |b64| % 4) % 4))
  }

  lemma {:induction false} ReplaceAt(s: string, from: char, to: char)
    ensures |Replace(s, from, to)| == |s|
    ensures forall k :: 0 <= k < |s| ==> Replace(s, from, to)[k] == if s[k] == from then to else s[k]
  {
    if s != [] {
      ReplaceAt(s[..|s| - 1], from, to);
    }
  }

  lemma Swapped(s: string, a: char, b: char, c: char, d: char)
    requires c !in {a, b}
    ensures var r := Replace(Replace(s, a, b), c, d);
            |r| == |s| && forall k :: 0 <= k < |s| ==>
                r[k] == if s[k] == a then (if b == c then d else b) else if s[k] == c then d else s[k]
  {
    ReplaceAt(s, a, b);
    ReplaceAt(Replace(s, a, b), c, d);
  }

  /** The rewriting is exactly the unpadded URL-safe encoding. */
  lemma BundleIsUrlSafe(json: Bytes)
    ensures EncodeBundle(json) == EncodeNoPad(UrlSafe, json)
  {
    var q := Sextets(json);
    var std, url := Text(Standard, q), Text(UrlSafe, q);
    TextLength(Standard, q);
    TextLength(UrlSafe, q);
    var padded := EncodePadded(json);
    Swapped(padded, '+', '-', '/', '_');
    hide Replace, Text;
    var r := Replace(Replace(padded, '+', '-'), '/', '_');
    forall k | 0 <= k < |q|
      ensures r[k] == url[k]
    {
      assert padded[k] == Symbol(Standard, q[k]);
    }
    assert r == url + Pads(PadCount(|url|));
    EncodedHasNoPad(UrlSafe, json);
    StripPads(url, PadCount(|url|));
  }

  lemma UnswappedIsStandard(q: seq<Sextet>)
    ensures Replace(Replace(Text(UrlSafe, q), '-', '+'), '_', '/') == Text(Standard, q)
  {
    var std, url := Text(Standard, q), Text(UrlSafe, q);
    TextLength(Standard, q);
    TextLength(UrlSafe, q);
    Swapped(url, '-', '+', '_', '/');
    hide Replace, Text, Symbol;
    var b64 := Replace(Replace(url, '-', '+'), '_', '/');
    forall k | 0 <= k < |q|
      ensures b64[k] == std[k]
    {
      SymbolUnswapped(q[k]);
    }
  }

  lemma SymbolUnswapped(x: Sextet)
    ensures var c := Symbol(UrlSafe, x);
            Symbol(Standard, x) == if c == '-' then '+' else if c == '_' then '/' else c
  {
  }

  /** Undoing the alphabet swap and restoring the stripped padding gives the JSON bytes back. */
  lemma BundleRoundTrip(json: Bytes)
    ensures DecodeBundle(EncodeBundle(json)) == Some(json)
  {
    BundleIsUrlSafe(json);
    UnswappedIsStandard(Sextets(json));
    PaddedRoundTrip(json, EncodePadded(json));
    hide Replace, Text, Sextets, DecodePadded;
  }
}
