/** The `ndn-ctx:1` join-payload envelope: a version and some bytes as one line of text. */
module Envelope {
  import opened Prelude
  import opened Decimal
  import opened Base64

  const TAG: string := "ndn-ctx:1:"

  datatype EnvelopeError = NotTagged | NoSeparator | BadVersion | BadContent

  datatype Result = Ok(version: nat, content: Bytes) | Err(error: EnvelopeError)

  /** The Unicode White_Space property, which `str::trim` removes. */
  predicate IsWhite(c: char) {
    var x := c as int;
    0x09 <= x <= 0x0D || x in {0x20, 0x85, 0xA0, 0x1680, 0x2028, 0x2029, 0x202F, 0x205F, 0x3000} ||
    0x2000 <= x <= 0x200A
  }

  function TrimStart(s: string): string {
    if s != [] && IsWhite(s[0]) then TrimStart(s[1..]) else s
  }

  function TrimEnd(s: string): string {
    if s != [] && IsWhite(s[|s| - 1]) then TrimEnd(s[..|s| - 1]) else s
  }

  function Trim(s: string): string {
    TrimEnd(TrimStart(s))
  }

  /** `str::parse::<u64>`: an optional plus sign and at least one digit, within 64 bits. */
  function ParseU64(s: string): Option<nat> {
    var digits := if s != [] && s[0] == '+' then s[1..] else s;
    if digits == [] then None
    else
      match Numeral(digits)
      case None => None
      case Some(v) => if v < TWO_64 then Some(v) else None
  }

  /** The text before and after the first colon. */
  function SplitOnce(s: string): Option<(string, string)> {
    if s == [] then None
    else if s[0] == ':' then Some(([], s[1..]))
    else
      match SplitOnce(s[1..])
      case None => None
      case Some((a, b)) => Some(([s[0]] + a, b))
  }

  function EncodeEnvelope(version: nat, content: Bytes): string {
    TAG + (Print(version) + ([':'] + EncodeNoPad(UrlSafe, content)))
  }

  function ParseBody(rest: string): Result {
    match SplitOnce(rest)
    case None => Err(NoSeparator)
    case Some((ver, b64)) =>
      match ParseU64(ver)
      case None => Err(BadVersion)
      case Some(version) =>
        match DecodeNoPad(UrlSafe, Trim(b64))
        case None => Err(BadContent)
        case Some(content) => Ok(version, content)
  }

  function ParseEnvelope(s: string): Result {
    var t := Trim(s);
    if TAG <= t then ParseBody(t[|TAG|..]) else Err(NotTagged)
  }

  lemma PrintParses(v: nat)
    requires v < TWO_64
    ensures ParseU64(Print(v)) == Some(v)
  {
    PrintDigits(v);
    assert IsDigit(Print(v)[0]);
  }

  lemma {:induction false} SplitAt(a: string, b: string)
    requires ':' !in a
    ensures SplitOnce(a + ([':'] + b)) == Some((a, b))
  {
    var s := a + ([':'] + b);
    if a == [] {
      assert s[1..] == b;
    } else {
      assert s[1..] == a[1..] + ([':'] + b);
      SplitAt(a[1..], b);
      assert a == [a[0]] + a[1..];
    }
  }

  lemma {:induction false} SplitJoins(s: string)
    requires SplitOnce(s).Some?
    ensures s == SplitOnce(s).value.0 + ([':'] + SplitOnce(s).value.1)
    ensures ':' !in SplitOnce(s).value.0
  {
    if s[0] == ':' {
      assert s == [] + ([':'] + s[1..]);
    } else {
      SplitJoins(s[1..]);
      var (a, b) := SplitOnce(s[1..]).value;
      assert SplitOnce(s).value == ([s[0]] + a, b);
      hide SplitOnce;
      assert s == [s[0]] + s[1..];
      assert [s[0]] + (a + ([':'] + b)) == ([s[0]] + a) + ([':'] + b);
    }
  }

  lemma Untrimmed(s: string)
    requires s != [] ==> !IsWhite(s[0]) && !IsWhite(s[|s| - 1])
    ensures Trim(s) == s
  {
  }

  lemma ContentUntrimmed(content: Bytes)
    ensures Trim(EncodeNoPad(UrlSafe, content)) == EncodeNoPad(UrlSafe, content)
    ensures forall k :: 0 <= k < |EncodeNoPad(UrlSafe, content)| ==> !IsWhite(EncodeNoPad(UrlSafe, content)[k])
  {
    var t := EncodeNoPad(UrlSafe, content);
    forall k | 0 <= k < |t|
      ensures !IsWhite(t[k])
    {
      EncodedSymbols(UrlSafe, content, k);
    }
    hide EncodeNoPad;
    Untrimmed(t);
  }

  lemma EnvelopeUntrimmed(version: nat, content: Bytes)
    ensures Trim(EncodeEnvelope(version, content)) == EncodeEnvelope(version, content)
  {
    var s := EncodeEnvelope(version, content);
    var b64 := EncodeNoPad(UrlSafe, content);
    ContentUntrimmed(content);
    hide EncodeNoPad, Print;
    assert s[0] == 'n';
    assert s[|s| - 1] == if b64 == [] then ':' else b64[|b64| - 1];
    Untrimmed(s);
  }

  lemma NoColon(v: nat)
    ensures ':' !in Print(v)
  {
    PrintDigits(v);
    assert forall k :: 0 <= k < |Print(v)| ==> Print(v)[k] != ':';
  }

  /** Every version and content survives the envelope. */
  lemma EnvelopeRoundTrip(version: nat, content: Bytes)
    requires version < TWO_64
    ensures ParseEnvelope(EncodeEnvelope(version, content)) == Ok(version, content)
  {
    var b64 := EncodeNoPad(UrlSafe, content);
    var rest := Print(version) + ([':'] + b64);
    EnvelopeUntrimmed(version, content);
    ContentUntrimmed(content);
    NoColon(version);
    SplitAt(Print(version), b64);
    PrintParses(version);
    NoPadRoundTrip(UrlSafe, content, b64);
    hide EncodeNoPad, DecodeNoPad, Print, Trim, ParseU64, SplitOnce;
    assert (TAG + rest)[|TAG|..] == rest;
  }

  /** What an accepted text consists of: white space around it, a version numeral, and the
      unpadded base64url of the content, itself possibly surrounded by white space. */
  lemma AcceptedShape(s: string)
    requires ParseEnvelope(s).Ok?
    ensures var r := ParseEnvelope(s);
            r.version < TWO_64 &&
            exists ver: string, b64: string ::
              Trim(s) == TAG + (ver + ([':'] + b64)) && ':' !in ver && ParseU64(ver) == Some(r.version) &&
              Trim(b64) == EncodeNoPad(UrlSafe, r.content)
  {
    var t := Trim(s);
    var rest := t[|TAG|..];
    SplitJoins(rest);
    var (ver, b64) := SplitOnce(rest).value;
    NoPadRoundTrip(UrlSafe, ParseEnvelope(s).content, Trim(b64));
    hide EncodeNoPad, DecodeNoPad;
    assert t == TAG + rest;
  }

  /** Re-encoding anything accepted gives a text that parses to the same pair. */
  lemma ReencodingIsStable(s: string)
    requires ParseEnvelope(s).Ok?
    ensures var r := ParseEnvelope(s);
            ParseEnvelope(EncodeEnvelope(r.version, r.content)) == r
  {
    AcceptedShape(s);
    EnvelopeRoundTrip(ParseEnvelope(s).version, ParseEnvelope(s).content);
  }

  /** A numeral in the form the encoder prints: no sign, no leading zero. */
  predicate PlainNumeral(ver: string) {
    ver != [] && ver[0] != '+' && (ver[0] == '0' ==> |ver| == 1)
  }

  lemma {:induction false} PlainIsPrinted(ver: string)
    requires PlainNumeral(ver) && Numeral(ver).Some?
    ensures Print(Numeral(ver).value) == ver
    ensures ver[0] != '0' ==> Numeral(ver).value >= 1
  {
    var n := |ver| - 1;
    if n == 0 {
      assert ver[..0] == [];
      assert ver == [ver[0]];
    } else {
      assert ver[..n][0] == ver[0];
      assert PlainNumeral(ver[..n]);
      PlainIsPrinted(ver[..n]);
      var v := Numeral(ver[..n]).value;
      var d := ver[n] as int - '0' as int;
      assert (v * 10 + d) / 10 == v && (v * 10 + d) % 10 == d;
      assert ver == ver[..n] + [ver[n]];
    }
  }

  lemma PrintedIsPlain(v: nat)
    ensures PlainNumeral(Print(v)) && (v >= 1 ==> Print(v)[0] != '0')
  {
    PrintDigits(v);
    assert IsDigit(Print(v)[0]);
    LeadingDigit(v);
  }

  lemma {:induction false} LeadingDigit(v: nat)
    ensures v >= 1 ==> Print(v)[0] != '0'
    ensures v < 10 ==> |Print(v)| == 1
  {
    if v >= 10 {
      LeadingDigit(v / 10);
    }
  }

  /** An accepted text is the canonical one exactly when nothing surrounds it or its content and its
      version numeral is plain: the encoder's text is unique, the parser's input is not. */
  lemma CanonicalExactly(s: string, ver: string, b64: string)
    requires ParseEnvelope(s).Ok? && Trim(s) == TAG + (ver + ([':'] + b64)) && ':' !in ver
    ensures var r := ParseEnvelope(s);
            s == EncodeEnvelope(r.version, r.content) <==> Trim(s) == s && PlainNumeral(ver) && Trim(b64) == b64
  {
    var r := ParseEnvelope(s);
    var rest := ver + ([':'] + b64);
    assert Trim(s)[|TAG|..] == rest;
    SplitAt(ver, b64);
    NoPadRoundTrip(UrlSafe, r.content, Trim(b64));
    var code := EncodeNoPad(UrlSafe, r.content);
    hide EncodeNoPad, DecodeNoPad, Trim;
    if s == EncodeEnvelope(r.version, r.content) {
      EnvelopeUntrimmed(r.version, r.content);
      ContentUntrimmed(r.content);
      NoColon(r.version);
      assert s[|TAG|..] == Print(r.version) + ([':'] + code);
      SplitAt(Print(r.version), code);
      PrintedIsPlain(r.version);
    } else if PlainNumeral(ver) && Trim(b64) == b64 {
      PlainIsPrinted(ver);
    }
  }

  /** A sign and leading zeros are accepted, so distinct texts name the same pair. */
  lemma NotOnlyCanonical()
    ensures ParseEnvelope("ndn-ctx:1:+07:") == Ok(7, []) && EncodeEnvelope(7, []) != "ndn-ctx:1:+07:"
  {
    var s := "ndn-ctx:1:+07:";
    Untrimmed(s);
    assert s[|TAG|..] == "+07:";
    assert "+07" + ([':'] + "") == "+07:";
    SplitAt("+07", "");
    assert "+07"[1..] == "07";
    assert "07"[..1] == "0" && "0"[..0] == "";
    assert Numeral("07") == Some(7);
    assert EncodeEnvelope(7, [])[|TAG|] == '7';
  }

  ghost predicate AllWhite(s: string) {
    forall k :: 0 <= k < |s| ==> IsWhite(s[k])
  }

  /** Trimming takes off exactly the white space at both ends. */
  lemma TrimExactly(s: string) returns (a: string, b: string)
    ensures s == a + Trim(s) + b && AllWhite(a) && AllWhite(b)
    ensures Trim(s) != [] ==> !IsWhite(Trim(s)[0]) && !IsWhite(Trim(s)[|Trim(s)| - 1])
  {
    var t := TrimStart(s);
    a := StartTrimmed(s);
    b := EndTrimmed(t);
    hide IsWhite, TrimStart, TrimEnd;
    assert a + (TrimEnd(t) + b) == a + TrimEnd(t) + b;
    assert TrimEnd(t) != [] ==> TrimEnd(t)[0] == t[0];
  }

  lemma {:induction false} StartTrimmed(s: string) returns (a: string)
    ensures s == a + TrimStart(s) && AllWhite(a) && (TrimStart(s) != [] ==> !IsWhite(TrimStart(s)[0]))
  {
    hide IsWhite;
    if s != [] && IsWhite(s[0]) {
      var rest := StartTrimmed(s[1..]);
      a := [s[0]] + rest;
      assert s == [s[0]] + s[1..] && TrimStart(s) == TrimStart(s[1..]);
      hide TrimStart;
      assert [s[0]] + (rest + TrimStart(s)) == a + TrimStart(s);
    } else {
      a := [];
    }
  }

  lemma {:induction false} EndTrimmed(s: string) returns (b: string)
    ensures s == TrimEnd(s) + b && AllWhite(b)
    ensures TrimEnd(s) != [] ==> !IsWhite(TrimEnd(s)[|TrimEnd(s)| - 1])
  {
    hide IsWhite;
    if s != [] && IsWhite(s[|s| - 1]) {
      var rest := EndTrimmed(s[..|s| - 1]);
      b := rest + [s[|s| - 1]];
      assert s == s[..|s| - 1] + [s[|s| - 1]] && TrimEnd(s) == TrimEnd(s[..|s| - 1]);
      hide TrimEnd;
      assert TrimEnd(s) + rest + [s[|s| - 1]] == TrimEnd(s) + b;
    } else {
      b := [];
    }
  }

  /** A version numeral is accepted exactly if it is a non-empty run of digits, possibly after a plus
      sign, whose value fits 64 bits. */
  lemma ParseU64Exactly(s: string, v: nat)
    ensures ParseU64(s) == Some(v) <==>
              v < TWO_64 && exists digits: string ::
                digits != [] && Numeral(digits) == Some(v) && (s == digits || s == ['+'] + digits)
  {
    var digits := if s != [] && s[0] == '+' then s[1..] else s;
    if s != [] && s[0] == '+' {
      SignIsNoDigit(s);
    }
    hide Numeral;
    assert s == digits || s == ['+'] + digits;
    forall ds: string | ds != [] && Numeral(ds) == Some(v) && (s == ds || s == ['+'] + ds)
      ensures ds == digits
    {
      assert s == ['+'] + ds ==> s[1..] == ds;
    }
  }

  lemma {:induction false} SignIsNoDigit(s: string)
    requires s != [] && s[0] == '+'
    ensures Numeral(s).None?
  {
    if |s| > 1 {
      SignIsNoDigit(s[..|s| - 1]);
    }
  }

  /** A text is accepted with this version and content exactly if it has the accepted shape. */
  lemma AcceptedExactly(s: string, version: nat, content: Bytes)
    ensures ParseEnvelope(s) == Ok(version, content) <==>
              exists ver: string, b64: string ::
                Trim(s) == TAG + (ver + ([':'] + b64)) && ':' !in ver && ParseU64(ver) == Some(version) &&
                Trim(b64) == EncodeNoPad(UrlSafe, content)
  {
    if ParseEnvelope(s) == Ok(version, content) {
      AcceptedShape(s);
    }
    forall ver: string, b64: string |
      Trim(s) == TAG + (ver + ([':'] + b64)) && ':' !in ver && ParseU64(ver) == Some(version) &&
      Trim(b64) == EncodeNoPad(UrlSafe, content)
      ensures ParseEnvelope(s) == Ok(version, content)
    {
      SplitAt(ver, b64);
      NoPadRoundTrip(UrlSafe, content, Trim(b64));
      hide EncodeNoPad, DecodeNoPad, Trim, ParseU64, SplitOnce;
      assert (TAG + (ver + ([':'] + b64)))[|TAG|..] == ver + ([':'] + b64);
    }
  }

  lemma {:induction false} SplitsAtColon(s: string)
    ensures SplitOnce(s).Some? <==> ':' in s
  {
    if s != [] {
      SplitsAtColon(s[1..]);
      assert s == [s[0]] + s[1..];
    }
  }

  /** Why a text is refused: no tag, no colon after it, a bad numeral before the first colon, or a text
      after it that encodes nothing - the first of these that applies. */
  lemma RefusedExactly(s: string)
    ensures ParseEnvelope(s) == Err(NotTagged) <==> !(TAG <= Trim(s))
    ensures ParseEnvelope(s) == Err(NoSeparator) <==> TAG <= Trim(s) && ':' !in Trim(s)[|TAG|..]
    ensures forall ver: string, b64: string ::
              Trim(s) == TAG + (ver + ([':'] + b64)) && ':' !in ver ==>
                (ParseEnvelope(s) == Err(BadVersion) <==> ParseU64(ver).None?) &&
                (ParseEnvelope(s) == Err(BadContent) <==>
                 ParseU64(ver).Some? && forall content: Bytes :: Trim(b64) != EncodeNoPad(UrlSafe, content))
  {
    var t := Trim(s);
    if TAG <= t {
      SplitsAtColon(t[|TAG|..]);
    }
    hide Trim;
    forall ver: string, b64: string | t == TAG + (ver + ([':'] + b64)) && ':' !in ver
      ensures (ParseEnvelope(s) == Err(BadVersion) <==> ParseU64(ver).None?) &&
              (ParseEnvelope(s) == Err(BadContent) <==>
               ParseU64(ver).Some? && forall content: Bytes :: Trim(b64) != EncodeNoPad(UrlSafe, content))
    {
      SplitAt(ver, b64);
      assert t[|TAG|..] == ver + ([':'] + b64);
      EncodesNothing(Trim(b64));
      hide SplitOnce, ParseU64, DecodeNoPad, EncodeNoPad;
    }
  }

  lemma EncodesNothing(t: string)
    ensures DecodeNoPad(UrlSafe, t).None? <==> forall content: Bytes :: t != EncodeNoPad(UrlSafe, content)
  {
    hide DecodeNoPad, EncodeNoPad;
    if DecodeNoPad(UrlSafe, t).Some? {
      NoPadRoundTrip(UrlSafe, DecodeNoPad(UrlSafe, t).value, t);
    }
    forall content: Bytes | t == EncodeNoPad(UrlSafe, content)
      ensures DecodeNoPad(UrlSafe, t).Some?
    {
      NoPadRoundTrip(UrlSafe, content, t);
    }
  }
}
