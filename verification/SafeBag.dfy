/** SafeBag files: what `ndn-sec export` writes and what `ndn-sec import` makes of it. */
module SafeBag {
  import opened Prelude
  import opened Base64

  const TYPE_BYTE: byte := 0x80

  datatype WireFormat = Raw | Base64Text

  /** `u8::is_ascii_whitespace`. */
  predicate IsWhite(b: byte) {
    b in {0x20, 0x09, 0x0A, 0x0C, 0x0D}
  }

  function Cleaned(input: Bytes): Bytes {
    if input == [] then []
    else
      var last := input[|input| - 1];
      Cleaned(input[..|input| - 1]) + if IsWhite(last) then [] else [last]
  }

  /** Bytes read as characters of the same code, and back for characters below 256. */
  function AsText(b: Bytes): string {
    seq(|b|, i requires 0 <= i < |b| => b[i] as char)
  }

  function AsBytes(t: string): Bytes {
    seq<byte>(|t|, i requires 0 <= i < |t| => t[i] as int % 256)
  }

  function Normalize(input: Bytes): Option<Bytes> {
    if input != [] && input[0] == TYPE_BYTE then Some(input)
    else
      match DecodePadded(AsText(Cleaned(input)))
      case None => None
      case Some(wire) => if wire != [] && wire[0] == TYPE_BYTE then Some(wire) else None
  }

  function Export(format: WireFormat, wire: Bytes): Bytes {
    match format
    case Raw => wire
    case Base64Text => AsBytes(EncodePadded(wire) + ['\n'])
  }

  lemma PaddedIsAscii(wire: Bytes, k: nat)
    requires k < |EncodePadded(wire)|
    ensures 0x20 < EncodePadded(wire)[k] as int < 0x80
  {
    var t := EncodeNoPad(Standard, wire);
    if k < |t| {
      EncodedSymbols(Standard, wire, k);
    }
  }

  lemma {:induction false} CleanKeeps(input: Bytes)
    requires forall k :: 0 <= k < |input| ==> !IsWhite(input[k])
    ensures Cleaned(input) == input
  {
    if input != [] {
      CleanKeeps(input[..|input| - 1]);
    }
  }

  lemma {:induction false} CleanFirst(input: Bytes)
    requires input != [] && !IsWhite(input[0])
    ensures Cleaned(input) != [] && Cleaned(input)[0] == input[0]
  {
    if |input| > 1 {
      CleanFirst(input[..|input| - 1]);
    }
  }

  /** The base64 text as file bytes. */
  function EncodedBytes(wire: Bytes): Bytes {
    AsBytes(EncodePadded(wire))
  }

  lemma Encoded(wire: Bytes)
    ensures AsText(EncodedBytes(wire)) == EncodePadded(wire)
    ensures Cleaned(EncodedBytes(wire)) == EncodedBytes(wire)
    ensures forall k :: 0 <= k < |EncodedBytes(wire)| ==> EncodedBytes(wire)[k] != TYPE_BYTE
  {
    EncodedAt(wire);
    hide EncodePadded, Cleaned, EncodedBytes;
    CleanKeeps(EncodedBytes(wire));
  }

  lemma EncodedAt(wire: Bytes)
    ensures |EncodedBytes(wire)| == |EncodePadded(wire)|
    ensures forall k :: 0 <= k < |EncodedBytes(wire)| ==>
              EncodedBytes(wire)[k] == EncodePadded(wire)[k] as int && 0x20 < EncodedBytes(wire)[k] < 0x80
  {
    hide EncodePadded;
    forall k | 0 <= k < |EncodePadded(wire)|
      ensures 0x20 < EncodePadded(wire)[k] as int < 0x80
    {
      PaddedIsAscii(wire, k);
    }
  }

  lemma TextBytes(b: Bytes, t: string)
    requires AsText(b) == t
    ensures AsBytes(t) == b
  {
  }

  /** Import accepts exactly: a raw wire, or its base64 text with white space anywhere. */
  lemma NormalizeExactly(input: Bytes, wire: Bytes)
    ensures Normalize(input) == Some(wire) <==>
              wire != [] && wire[0] == TYPE_BYTE && (input == wire || Cleaned(input) == EncodedBytes(wire))
  {
    Encoded(wire);
    var text := AsText(Cleaned(input));
    PaddedRoundTrip(wire, text);
    TextBytes(Cleaned(input), text);
    hide DecodePadded, EncodePadded;
    if input != [] && input[0] == TYPE_BYTE {
      CleanFirst(input);
      assert Cleaned(input) != EncodedBytes(wire);
    }
    hide AsText, AsBytes, Cleaned;
  }

  /** Both export formats are read back to the wire. */
  lemma ExportImport(format: WireFormat, wire: Bytes)
    requires wire != [] && wire[0] == TYPE_BYTE
    ensures Normalize(Export(format, wire)) == Some(wire)
    ensures Export(format, wire) == if format.Raw? then wire else EncodedBytes(wire) + [0x0A]
  {
    Encoded(wire);
    var out := Export(format, wire);
    hide EncodePadded, DecodePadded;
    if format.Base64Text? {
      assert out[..|out| - 1] == EncodedBytes(wire) && out[|out| - 1] == 0x0A;
      assert Cleaned(out) == EncodedBytes(wire) + [];
    }
    hide Normalize;
    NormalizeExactly(out, wire);
  }

  /** `base` with the bytes of `gaps` inserted before, between and after its own. */
  function Spread(base: Bytes, gaps: seq<Bytes>): Bytes
    requires |gaps| == |base| + 1
  {
    if base == [] then gaps[0]
    else
      var n := |base| - 1;
      Spread(base[..n], gaps[..n + 1]) + [base[n]] + gaps[n + 1]
  }

  ghost predicate AllWhite(gap: Bytes) {
    forall k :: 0 <= k < |gap| ==> IsWhite(gap[k])
  }

  ghost predicate WhiteGaps(gaps: seq<Bytes>) {
    forall k :: 0 <= k < |gaps| ==> AllWhite(gaps[k])
  }

  lemma {:induction false} CleanedGap(b: Bytes, gap: Bytes)
    requires AllWhite(gap)
    ensures Cleaned(b + gap) == Cleaned(b)
  {
    if gap == [] {
      assert b + gap == b;
    } else {
      var n := |gap| - 1;
      CleanedGap(b, gap[..n]);
      assert (b + gap)[..|b + gap| - 1] == b + gap[..n];
      assert Cleaned(b + gap) == Cleaned(b + gap[..n]) + [];
    }
  }

  lemma {:induction false} CleanedSpread(base: Bytes, gaps: seq<Bytes>)
    requires |gaps| == |base| + 1 && WhiteGaps(gaps)
    requires forall k :: 0 <= k < |base| ==> !IsWhite(base[k])
    ensures Cleaned(Spread(base, gaps)) == base
  {
    if base == [] {
      CleanedGap([], gaps[0]);
      assert [] + gaps[0] == gaps[0];
    } else {
      var n := |base| - 1;
      var before := Spread(base[..n], gaps[..n + 1]);
      assert forall k :: 0 <= k < n + 1 ==> gaps[..n + 1][k] == gaps[k];
      CleanedSpread(base[..n], gaps[..n + 1]);
      assert (before + [base[n]])[..|before|] == before;
      assert AllWhite(gaps[n + 1]);
      CleanedGap(before + [base[n]], gaps[n + 1]);
      hide IsWhite, Spread;
      assert base == base[..n] + [base[n]];
    }
  }

  lemma {:induction false} SpreadOf(input: Bytes) returns (gaps: seq<Bytes>)
    ensures |gaps| == |Cleaned(input)| + 1 && WhiteGaps(gaps) && input == Spread(Cleaned(input), gaps)
  {
    if input == [] {
      gaps := [[]];
    } else {
      var n := |input| - 1;
      var init := SpreadOf(input[..n]);
      var base, last := Cleaned(input[..n]), input[n];
      assert Cleaned(input) == base + if IsWhite(last) then [] else [last];
      assert input == input[..n] + [last];
      hide Cleaned, Spread;
      if IsWhite(last) {
        gaps := init[|base| := init[|base|] + [last]];
        assert base + [] == base;
        SpreadLonger(base, init, last);
      } else {
        gaps := init + [[]];
        SpreadMore(base, init, last);
      }
    }
  }

  lemma SpreadLonger(base: Bytes, gaps: seq<Bytes>, b: byte)
    requires |gaps| == |base| + 1
    ensures Spread(base, gaps[|base| := gaps[|base|] + [b]]) == Spread(base, gaps) + [b]
  {
    var n := |base|;
    var longer := gaps[n := gaps[n] + [b]];
    if n > 0 {
      assert longer[..n] == gaps[..n];
    }
  }

  lemma SpreadMore(base: Bytes, gaps: seq<Bytes>, b: byte)
    requires |gaps| == |base| + 1
    ensures Spread(base + [b], gaps + [[]]) == Spread(base, gaps) + [b]
  {
    assert (base + [b])[..|base|] == base && (gaps + [[]])[..|base| + 1] == gaps;
  }

  /** Import accepts exactly a raw wire, or its base64 text with white space inserted anywhere. */
  lemma NormalizeAnywhere(input: Bytes, wire: Bytes)
    ensures Normalize(input) == Some(wire) <==>
              wire != [] && wire[0] == TYPE_BYTE &&
              (input == wire ||
               exists gaps: seq<Bytes> ::
                 |gaps| == |EncodedBytes(wire)| + 1 && WhiteGaps(gaps) && input == Spread(EncodedBytes(wire), gaps))
  {
    NormalizeExactly(input, wire);
    EncodedAt(wire);
    assert forall k :: 0 <= k < |EncodedBytes(wire)| ==> !IsWhite(EncodedBytes(wire)[k]);
    hide Normalize, EncodedBytes, Spread, IsWhite;
    var gaps := SpreadOf(input);
    forall gaps: seq<Bytes> |
      |gaps| == |EncodedBytes(wire)| + 1 && WhiteGaps(gaps) && input == Spread(EncodedBytes(wire), gaps)
      ensures Cleaned(input) == EncodedBytes(wire)
    {
      CleanedSpread(EncodedBytes(wire), gaps);
    }
  }
}
