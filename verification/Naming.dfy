/** Names and the segment component (type 0x32) that `ndn-put` and `ndn-peek` agree on. */
module Naming {
  import opened Prelude
  import BigEndian

  datatype Component = Component(typ: nat, value: Bytes)

  type Name = seq<Component>

  const SEGMENT: nat := 0x32

  /** NonNegativeInteger of the NDN packet format: the shortest of 1, 2, 4 and 8 bytes. */
  function NonNegativeInteger(v: nat): (s: Bytes)
    ensures |s| in {1, 2, 4, 8}
  {
    BigEndian.Digits(v, if v < 0x100 then 1 else if v < 0x1_0000 then 2 else if v < 0x1_0000_0000 then 4 else 8)
  }

  function AsSegment(c: Component): Option<nat> {
    if c.typ == SEGMENT && |c.value| in {1, 2, 4, 8} then Some(BigEndian.Value(c.value)) else None
  }

  function LastSegment(name: Name): Option<nat> {
    if name == [] then None else AsSegment(name[|name| - 1])
  }

  function AppendSegment(name: Name, i: nat): Name {
    name + [Component(SEGMENT, NonNegativeInteger(i))]
  }

  /** The FinalBlockId that `ndn-put` attaches: the last segment's component as a TLV. */
  function FinalBlockId(last: nat): Bytes {
    [SEGMENT, |NonNegativeInteger(last)|] + NonNegativeInteger(last)
  }

  lemma NonNegativeIntegerValue(v: nat)
    requires v < TWO_64
    ensures BigEndian.Value(NonNegativeInteger(v)) == v
  {
    BigEndian.Power256Of8();
    BigEndian.ValueOfDigits(v, |NonNegativeInteger(v)|);
  }

  lemma LastSegmentOfAppend(name: Name, i: nat)
    requires i < TWO_64
    ensures LastSegment(AppendSegment(name, i)) == Some(i)
    ensures AppendSegment(name, i) != [] && AppendSegment(name, i)[..|AppendSegment(name, i)| - 1] == name
  {
    NonNegativeIntegerValue(i);
  }

  /** No allowed width that holds the value is shorter. */
  lemma NonNegativeIntegerShortest(v: nat, width: nat)
    requires v < TWO_64 && width in {1, 2, 4, 8} && v < BigEndian.Power256(width)
    ensures |NonNegativeInteger(v)| <= width
  {
    BigEndian.Power256Of8();
  }
}
