/** `ndn-put`: the producer side of the segmented transfer. */
module Put {
  import opened Prelude
  import opened Naming

  datatype Data = Data(name: Name, content: Bytes, finalBlockId: Option<Bytes>)

  /** A published object: its payload, the segment size and the versioned name it is served under. */
  datatype Published = Published(payload: Bytes, chunkSize: nat, served: Name) {
    ghost predicate Valid() {
      0 < |payload| < TWO_64 && 0 < chunkSize
    }
  }

  /** The producer's cut of the payload into segments. */
  function Chunks(payload: Bytes, chunkSize: nat): (cs: seq<Bytes>)
    requires 0 < chunkSize
    ensures 1 <= |cs|
    ensures payload != [] ==> |cs| <= |payload|
  {
    if |payload| <= chunkSize then [payload]
    else [payload[..chunkSize]] + Chunks(payload[chunkSize..], chunkSize)
  }

  function Count(o: Published): (n: nat)
    requires o.Valid()
    ensures 1 <= n < TWO_64
  {
    |Chunks(o.payload, o.chunkSize)|
  }

  /** Segment `i` is exactly the bytes from `i * chunkSize` up to the next cut or the end. */
  lemma {:induction false} ChunkBytes(payload: Bytes, chunkSize: nat, i: nat)
    requires 0 < chunkSize && i < |Chunks(payload, chunkSize)|
    ensures 0 <= i * chunkSize <= |payload|
    ensures var end := if (i + 1) * chunkSize < |payload| then (i + 1) * chunkSize else |payload|;
            i * chunkSize <= end && Chunks(payload, chunkSize)[i] == payload[i * chunkSize..end]
  {
    if |payload| <= chunkSize {
      assert i == 0;
    } else if i > 0 {
      ChunkBytes(payload[chunkSize..], chunkSize, i - 1);
      assert (i - 1) * chunkSize + chunkSize == i * chunkSize;
      assert (i - 1 + 1) * chunkSize + chunkSize == (i + 1) * chunkSize;
    }
  }

  lemma {:induction false} ChunksFlatten(payload: Bytes, chunkSize: nat)
    requires 0 < chunkSize
    ensures Flatten(Chunks(payload, chunkSize)) == payload
  {
    if |payload| <= chunkSize {
      assert Flatten([payload]) == payload + Flatten([]);
    } else {
      ChunksFlatten(payload[chunkSize..], chunkSize);
    }
  }

  /** The segment an Interest asks for: its last component, or 0 for a discovery Interest. */
  function Asked(interest: Name): nat {
    match LastSegment(interest)
    case Some(i) => i
    case None => 0
  }

  /** The reply to one Interest; None is the out-of-range case, which is counted but not answered. */
  function Reply(o: Published, interest: Name): Option<Data>
    requires o.Valid()
  {
    if Asked(interest) >= Count(o) then None
    else
      var i := Asked(interest);
      var name := if LastSegment(interest).Some? then interest else AppendSegment(o.served, i);
      Some(Data(name, Chunks(o.payload, o.chunkSize)[i], Some(FinalBlockId(Count(o) - 1))))
  }

  /** Every Data the producer emits names the segment it carries, carries that segment's bytes,
      and announces the true last segment - whatever the Interest was. */
  ghost predicate Genuine(o: Published, d: Data)
    requires o.Valid()
  {
    && d.name != []
    && d.name[|d.name| - 1].typ == SEGMENT
    && LastSegment(d.name).Some?
    && LastSegment(d.name).value < Count(o)
    && d.content == Chunks(o.payload, o.chunkSize)[LastSegment(d.name).value]
    && d.finalBlockId == Some(FinalBlockId(Count(o) - 1))
  }

  lemma ReplyIsGenuine(o: Published, interest: Name)
    requires o.Valid()
    ensures Reply(o, interest).Some? <==> Asked(interest) < Count(o)
    ensures Reply(o, interest).Some? ==>
              Genuine(o, Reply(o, interest).value) &&
              LastSegment(Reply(o, interest).value.name) == Some(Asked(interest))
  {
    if Asked(interest) < Count(o) {
      LastSegmentOfAppend(o.served, Asked(interest));
    }
  }

  /** The Data answers the Interest: a segment Interest by a Data of its very name; any other one by a
      Data named by the served versioned name and a segment, which extends the Interest's name if the
      served name does. */
  lemma ReplyAnswers(o: Published, interest: Name)
    requires o.Valid() && Reply(o, interest).Some?
    ensures var d := Reply(o, interest).value;
            && (LastSegment(interest).Some? ==> d.name == interest)
            && (LastSegment(interest).None? ==> d.name != [] && d.name[..|d.name| - 1] == o.served)
            && (LastSegment(interest).Some? || interest <= o.served ==> interest <= d.name)
  {
    LastSegmentOfAppend(o.served, Asked(interest));
  }

  /** Which segment is served: the one named, if there is one of that index, and otherwise segment 0. */
  lemma ReplySegment(o: Published, interest: Name)
    requires o.Valid()
    ensures LastSegment(interest).Some? ==> (Reply(o, interest).Some? <==> LastSegment(interest).value < Count(o))
    ensures LastSegment(interest).None? ==>
              Reply(o, interest).Some? && Reply(o, interest).value.name == AppendSegment(o.served, 0) &&
              Reply(o, interest).value.content == Chunks(o.payload, o.chunkSize)[0]
  {
  }

  /** One turn of the serve loop: it leaves - cancelled, past its deadline or disconnected - or takes a
      packet, which decodes to an Interest or to nothing, and whose reply may fail to be sent. */
  datatype Turn = Leave | Incoming(interest: Option<Name>, sendOk: bool)

  /** The turn that ends the loop: leaving, or failing to send a reply that is due. */
  predicate Ends(o: Published, t: Turn)
    requires o.Valid()
  {
    t.Leave? || (t.interest.Some? && !t.sendOk && Reply(o, t.interest.value).Some?)
  }

  /** How many turns come before the one that ends the loop. */
  function Taken(o: Published, turns: seq<Turn>): (n: nat)
    requires o.Valid()
    ensures n <= |turns| && (n < |turns| ==> Ends(o, turns[n]))
    ensures forall k :: 0 <= k < n ==> !Ends(o, turns[k])
  {
    if turns == [] || Ends(o, turns[0]) then 0 else 1 + Taken(o, turns[1..])
  }

  function Interests(turns: seq<Turn>): seq<Name> {
    if turns == [] then []
    else
      var last := turns[|turns| - 1];
      Interests(turns[..|turns| - 1]) + if last.Incoming? && last.interest.Some? then [last.interest.value] else []
  }

  /** At most one reply per Interest, in order of arrival. */
  function Replies(o: Published, interests: seq<Name>): seq<Data>
    requires o.Valid()
  {
    if interests == [] then []
    else
      var reply := Reply(o, interests[|interests| - 1]);
      Replies(o, interests[..|interests| - 1]) + if reply.Some? then [reply.value] else []
  }

  lemma RepliesAppend(o: Published, interests: seq<Name>, interest: Name)
    requires o.Valid()
    ensures Reply(o, interest).None? ==> Replies(o, interests + [interest]) == Replies(o, interests)
    ensures Reply(o, interest).Some? ==>
              Replies(o, interests + [interest]) == Replies(o, interests) + [Reply(o, interest).value]
  {
    assert (interests + [interest])[..|interests|] == interests;
    hide Reply;
  }

  lemma InterestsStep(turns: seq<Turn>, k: nat)
    requires k < |turns|
    ensures Interests(turns[..k + 1]) ==
            if turns[k].Incoming? && turns[k].interest.Some? then Interests(turns[..k]) + [turns[k].interest.value]
            else Interests(turns[..k])
  {
    assert turns[..k + 1][..k] == turns[..k];
    assert Interests(turns[..k]) + [] == Interests(turns[..k]);
  }

  lemma {:induction false} RepliesAreGenuine(o: Published, interests: seq<Name>)
    requires o.Valid()
    ensures forall d :: d in Replies(o, interests) ==> Genuine(o, d)
  {
    if interests != [] {
      RepliesAreGenuine(o, interests[..|interests| - 1]);
      ReplyIsGenuine(o, interests[|interests| - 1]);
      hide Reply, Genuine;
    }
  }

  /** The serve loop: every Interest before the turn that ends it is answered or counted as unknown. */
  method Serve(o: Published, turns: seq<Turn>) returns (outbox: seq<Data>, served: nat, unknown: nat)
    requires o.Valid()
    ensures var taken := Interests(turns[..Taken(o, turns)]);
            outbox == Replies(o, taken) && served == |outbox| && served + unknown == |taken|
    ensures forall d :: d in outbox ==> Genuine(o, d)
  {
    outbox, served, unknown := [], 0, 0;
    var k := 0;
    ghost var taken: seq<Name> := [];
    assert Replies(o, taken) == [] && Interests(turns[..k]) == taken;
    hide Interests, Replies, Reply, Genuine, Asked, Chunks, Count;
    while k < |turns|
      invariant k <= |turns| && k <= Taken(o, turns) && taken == Interests(turns[..k])
      invariant outbox == Replies(o, taken) && served == |outbox| && served + unknown == |taken|
    {
      InterestsStep(turns, k);
      match turns[k] {
        case Leave => break;
        case Incoming(None, _) =>
        case Incoming(Some(interest), sendOk) =>
          var reply := Reply(o, interest);
          if reply.Some? && !sendOk {
            break;
          }
          RepliesAppend(o, taken, interest);
          if reply.Some? {
            outbox := outbox + [reply.value];
            served := served + 1;
          } else {
            unknown := unknown + 1;
          }
          taken := taken + [interest];
      }
      k := k + 1;
    }
    assert k == Taken(o, turns);
    RepliesAreGenuine(o, taken);
  }
}
