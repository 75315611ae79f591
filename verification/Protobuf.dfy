/** The protobuf wrapping of spans: the encoders that append to a buffer, and a reader of the
    wire format (base-128 varints, length-delimited fields) that undoes them. */
module Protobuf {
  import opened Prelude

  /** The base-128 varint of a number, least significant group first. */
  function Varint(v: nat): (s: Bytes)
    ensures s != []
  {
    if v < 0x80 then [v] else [v % 0x80 + 0x80] + Varint(v / 0x80)
  }

  /** A length-delimited field. */
  function Field(field: nat, payload: Bytes): Bytes {
    Varint(field * 8 + 2) + Varint(|payload|) + payload
  }

  function Fields(field: nat, payloads: seq<Bytes>): Bytes {
    if payloads == [] then [] else Fields(field, payloads[..|payloads| - 1]) + Field(field, payloads[|payloads| - 1])
  }

  const SERVICE_NAME: Bytes := [115, 101, 114, 118, 105, 99, 101, 46, 110, 97, 109, 101]

  /** The buffer the encoders append to. */
  class BytesMut {
    var data: Bytes

    constructor ()
      ensures data == []
    {
      data := [];
    }

    method PutU8(b: byte)
      modifies this
      ensures data == old(data) + [b]
    {
      data := data + [b];
    }

    method PutSlice(s: Bytes)
      modifies this
      ensures data == old(data) + s
    {
      data := data + s;
    }

    /** Emits seven bits at a time while more remain. */
    method WriteVarint(value: nat)
      modifies this
      ensures data == old(data) + Varint(value)
    {
      var v := value;
      while v >= 0x80
        invariant data + Varint(v) == old(data) + Varint(value)
        decreases v
      {
        ghost var before := data;
        assert before + ([v % 0x80 + 0x80] + Varint(v / 0x80)) == before + [v % 0x80 + 0x80] + Varint(v / 0x80);
        PutU8(v % 0x100 % 0x80 + 0x80);
        v := v / 0x80;
      }
      PutU8(v);
    }

    method EncodeLenPrefixed(field: nat, payload: Bytes)
      modifies this
      ensures data == old(data) + Field(field, payload)
    {
      WriteVarint(field * 8 + 2);
      WriteVarint(|payload|);
      PutSlice(payload);
      assert data == old(data) + (Varint(field * 8 + 2) + Varint(|payload|) + payload);
    }
  }

  function Resource(serviceName: Bytes): Bytes {
    Field(1, Field(1, SERVICE_NAME) + Field(2, Field(1, serviceName)))
  }

  function ExportRequest(serviceName: Bytes, spans: seq<Bytes>): Bytes {
    Field(1, Field(1, Resource(serviceName)) + Field(2, Fields(2, spans)))
  }

  method EncodeResource(serviceName: Bytes) returns (out: BytesMut)
    ensures fresh(out) && out.data == Resource(serviceName)
  {
    hide Field, Varint;
    var kv := new BytesMut();
    kv.EncodeLenPrefixed(1, SERVICE_NAME);
    var any := new BytesMut();
    any.EncodeLenPrefixed(1, serviceName);
    assert any.data == Field(1, serviceName);
    kv.EncodeLenPrefixed(2, any.data);
    assert kv.data == Field(1, SERVICE_NAME) + Field(2, Field(1, serviceName));
    out := new BytesMut();
    out.EncodeLenPrefixed(1, kv.data);
    assert [] + Resource(serviceName) == Resource(serviceName);
  }

  method EncodeExportRequest(serviceName: Bytes, spans: seq<Bytes>) returns (wire: Bytes)
    ensures wire == ExportRequest(serviceName, spans)
    ensures ReadExportRequest(wire) == Some((serviceName, spans))
  {
    var resource := EncodeResource(serviceName);
    var scopeSpans := new BytesMut();
    for k := 0 to |spans|
      invariant fresh(scopeSpans) && scopeSpans != resource && resource.data == Resource(serviceName)
      invariant scopeSpans.data == Fields(2, spans[..k])
    {
      assert spans[..k + 1][..k] == spans[..k];
      scopeSpans.EncodeLenPrefixed(2, spans[k]);
    }
    assert spans[..|spans|] == spans;
    var resourceSpans := new BytesMut();
    resourceSpans.EncodeLenPrefixed(1, resource.data);
    resourceSpans.EncodeLenPrefixed(2, scopeSpans.data);
    assert resourceSpans.data == Field(1, Resource(serviceName)) + Field(2, Fields(2, spans));
    var out := new BytesMut();
    out.EncodeLenPrefixed(1, resourceSpans.data);
    assert [] + ExportRequest(serviceName, spans) == ExportRequest(serviceName, spans);
    ReadsBack(serviceName, spans);
    return out.data;
  }

  /** A varint at the start of `s`: its value and what follows; None if `s` ends inside it. */
  function ReadVarint(s: Bytes): Option<(nat, Bytes)> {
    if s == [] then None
    else if s[0] < 0x80 then Some((s[0], s[1..]))
    else
      match ReadVarint(s[1..])
      case None => None
      case Some((high, rest)) => Some((high * 0x80 + (s[0] as int - 0x80), rest))
  }

  lemma {:induction false} ReadVarintShrinks(s: Bytes)
    ensures ReadVarint(s).Some? ==> |ReadVarint(s).value.1| < |s|
  {
    if s != [] && s[0] >= 0x80 {
      ReadVarintShrinks(s[1..]);
    }
  }

  /** A message of length-delimited fields, in order; None if anything else is met. */
  function ReadMessage(s: Bytes): Option<seq<(nat, Bytes)>>
    decreases |s|
  {
    if s == [] then Some([])
    else
      match ReadVarint(s)
      case None => None
      case Some((tag, afterTag)) =>
        match ReadVarint(afterTag)
        case None => None
        case Some((len, afterLen)) =>
          ReadVarintShrinks(s);
          ReadVarintShrinks(afterTag);
          if tag % 8 != 2 || len > |afterLen| then None
          else
            match ReadMessage(afterLen[len..])
            case None => None
            case Some(rest) => Some([(tag / 8, afterLen[..len])] + rest)
  }

  function AllOf(fields: seq<(nat, Bytes)>, field: nat): seq<Bytes> {
    if fields == [] then []
    else (if fields[0].0 == field then [fields[0].1] else []) + AllOf(fields[1..], field)
  }

  /** The one field of a message with this number. */
  function TheField(s: Bytes, field: nat): Option<Bytes> {
    match ReadMessage(s)
    case None => None
    case Some(fields) => if |AllOf(fields, field)| == 1 then Some(AllOf(fields, field)[0]) else None
  }

  function ReadServiceName(resource: Bytes): Option<Bytes> {
    match TheField(resource, 1)
    case None => None
    case Some(kv) =>
      match (TheField(kv, 1), TheField(kv, 2))
      case (Some(key), Some(any)) => if key == SERVICE_NAME then TheField(any, 1) else None
      case _ => None
  }

  /** Service name and span bodies of an ExportTraceServiceRequest with one ResourceSpans and one ScopeSpans. */
  function ReadExportRequest(wire: Bytes): Option<(Bytes, seq<Bytes>)> {
    match TheField(wire, 1)
    case None => None
    case Some(resourceSpans) =>
      match (TheField(resourceSpans, 1), TheField(resourceSpans, 2))
      case (Some(resource), Some(scopeSpans)) =>
        (match (ReadServiceName(resource), ReadMessage(scopeSpans))
         case (Some(name), Some(fields)) => Some((name, AllOf(fields, 2)))
         case _ => None)
      case _ => None
  }

  lemma {:induction false} VarintReadsBack(v: nat, rest: Bytes)
    ensures ReadVarint(Varint(v) + rest) == Some((v, rest))
  {
    var s := Varint(v) + rest;
    if v < 0x80 {
      assert s[1..] == rest;
    } else {
      VarintReadsBack(v / 0x80, rest);
      assert s[1..] == Varint(v / 0x80) + rest;
    }
  }

  lemma FieldReadsBack(field: nat, payload: Bytes, rest: Bytes)
    ensures ReadMessage(Field(field, payload) + rest) ==
              match ReadMessage(rest) { case None => None case Some(fs) => Some([(field, payload)] + fs) }
  {
    var tail := Varint(|payload|) + (payload + rest);
    var s := Field(field, payload) + rest;
    assert s == Varint(field * 8 + 2) + tail;
    VarintReadsBack(field * 8 + 2, tail);
    VarintReadsBack(|payload|, payload + rest);
    assert (payload + rest)[|payload|..] == rest && (payload + rest)[..|payload|] == payload;
  }

  lemma OneField(field: nat, payload: Bytes)
    ensures ReadMessage(Field(field, payload)) == Some([(field, payload)])
    ensures TheField(Field(field, payload), field) == Some(payload)
  {
    FieldReadsBack(field, payload, []);
    assert Field(field, payload) + [] == Field(field, payload);
    assert [(field, payload)] + [] == [(field, payload)];
    assert AllOf([(field, payload)], field) == [payload];
  }

  lemma TwoFields(first: Bytes, second: Bytes)
    ensures var s := Field(1, first) + Field(2, second);
            TheField(s, 1) == Some(first) && TheField(s, 2) == Some(second)
  {
    FieldReadsBack(1, first, Field(2, second));
    OneField(2, second);
    var fields: seq<(nat, Bytes)> := [(1, first)] + [(2, second)];
    assert fields[1..] == [(2, second)];
    assert AllOf(fields[1..], 1) == [] && AllOf(fields[1..], 2) == [second] by {
      assert |fields[1..][1..]| == 0;
    }
  }

  function Tagged(field: nat, payloads: seq<Bytes>): seq<(nat, Bytes)> {
    seq(|payloads|, i requires 0 <= i < |payloads| => (field, payloads[i]))
  }

  lemma Regroup<T>(a: seq<T>, b: seq<T>, c: seq<T>)
    ensures (a + b) + c == a + (b + c)
  {
  }

  lemma {:induction false} FieldsReadBack(field: nat, payloads: seq<Bytes>, rest: Bytes, more: seq<(nat, Bytes)>)
    requires ReadMessage(rest) == Some(more)
    ensures ReadMessage(Fields(field, payloads) + rest) == Some(Tagged(field, payloads) + more)
  {
    if payloads == [] {
      assert Fields(field, payloads) + rest == rest && Tagged(field, payloads) + more == more;
    } else {
      var init, last := payloads[..|payloads| - 1], payloads[|payloads| - 1];
      FieldReadsBack(field, last, rest);
      var before, one := Fields(field, init), Field(field, last);
      assert Fields(field, payloads) == before + one;
      hide Field, Fields, ReadMessage, Tagged;
      FieldsReadBack(field, init, one + rest, [(field, last)] + more);
      Regroup(before, one, rest);
      Regroup(Tagged(field, init), [(field, last)], more);
      TaggedAppend(field, init, last);
      assert payloads == init + [last];
    }
  }

  lemma TaggedAppend(field: nat, payloads: seq<Bytes>, last: Bytes)
    ensures Tagged(field, payloads + [last]) == Tagged(field, payloads) + [(field, last)]
  {
  }

  lemma {:induction false} AllTagged(field: nat, payloads: seq<Bytes>)
    ensures AllOf(Tagged(field, payloads), field) == payloads
  {
    if payloads != [] {
      AllTagged(field, payloads[1..]);
      assert Tagged(field, payloads)[1..] == Tagged(field, payloads[1..]);
    }
  }

  lemma ServiceNameReadsBack(serviceName: Bytes)
    ensures ReadServiceName(Resource(serviceName)) == Some(serviceName)
  {
    OneField(1, serviceName);
    TwoFields(SERVICE_NAME, Field(1, serviceName));
    OneField(1, Field(1, SERVICE_NAME) + Field(2, Field(1, serviceName)));
    hide TheField, Field;
  }

  /** Through all levels of nesting and for all lengths, the reader recovers exactly the service
      name and the span bodies, in order. */
  lemma ReadsBack(serviceName: Bytes, spans: seq<Bytes>)
    ensures ReadExportRequest(ExportRequest(serviceName, spans)) == Some((serviceName, spans))
  {
    var resource, scopeSpans := Resource(serviceName), Fields(2, spans);
    ServiceNameReadsBack(serviceName);
    FieldsReadBack(2, spans, [], []);
    AllTagged(2, spans);
    assert scopeSpans + [] == scopeSpans && Tagged(2, spans) + [] == Tagged(2, spans);
    TwoFields(resource, scopeSpans);
    OneField(1, Field(1, resource) + Field(2, scopeSpans));
    hide TheField, Field, Fields, ReadServiceName, ReadMessage, Resource, Tagged, AllOf;
  }
}
