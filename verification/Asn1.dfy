/** What the readers of src/asn1reader.cpp accept: values between a position and a limit of a buffer. */
module Asn1 {
  import opened Bytes
  import opened Wrappers

  /** The outcome of a reader: a value and the position behind it, a refusal (false), or a step that C++
      leaves undefined (signed overflow, an access outside an array). */
  datatype Reading<+T> = Got(value: T, pos: nat) | Refused | Undefined

  datatype Header = Header(tag: byte, start: nat, end: nat)

  const INT_BOUND: int := 0x8000_0000
  const OID_MAX: nat := 128      // ASN1_OID_MAXLEN
  const STRING_MAX: nat := 255   // ASN1_STRING_MAXLEN

  const TAG_INTEGER: byte := 0x02
  const TAG_STRING: byte := 0x04
  const TAG_NULL: byte := 0x05
  const TAG_OID: byte := 0x06

  /** Two's complement (section 8.3 of X.690). */
  function Signed(bs: seq<byte>): int {
    if bs == [] then 0
    else if bs[0] < 128 then Number(bs)
    else Number(bs) - Number([1] + Zeros(|bs|))
  }

  function Zeros(n: nat): seq<byte> { seq(n, _ => 0) }

  function ReadHeader(d: seq<byte>, p: nat, limit: nat): (h: Option<Header>)
    requires limit <= |d|
    ensures h.Some? ==> p + 2 <= h.value.start <= h.value.end <= limit
  {
    if p + 1 >= limit then None
    else if d[p + 1] >= 0x80 then
      var c := d[p + 1] as nat - 0x80;
      if c > 4 || p + 2 + c > limit || p + 2 + c + Number(d[p + 2..p + 2 + c]) > limit then None
      else Some(Header(d[p], p + 2 + c, p + 2 + c + Number(d[p + 2..p + 2 + c])))
    else if p + 2 + d[p + 1] as nat > limit then None
    else Some(Header(d[p], p + 2, p + 2 + d[p + 1] as nat))
  }

  /** A header with the type the reader asks for. */
  function ReadTag(d: seq<byte>, p: nat, limit: nat, tag: byte): (h: Option<Header>)
    requires limit <= |d|
    ensures h.Some? ==> h.value.tag == tag && p + 2 <= h.value.start <= h.value.end <= limit
  {
    var h := ReadHeader(d, p, limit);
    if h.Some? && h.value.tag == tag then h else None
  }

  function ReadInt(d: seq<byte>, p: nat, limit: nat): (r: Reading<int>)
    requires limit <= |d|
    ensures r.Got? ==> p < r.pos <= limit
  {
    match ReadTag(d, p, limit, TAG_INTEGER)
    case None => Refused
    case Some(h) =>
      if h.end - h.start == 3 || h.end - h.start > 4 then Undefined
      else Got(Signed(d[h.start..h.end]), h.end)
  }

  function ReadString(d: seq<byte>, p: nat, limit: nat): (r: Reading<seq<byte>>)
    requires limit <= |d|
    ensures r.Got? ==> p < r.pos <= limit && |r.value| <= STRING_MAX
  {
    match ReadTag(d, p, limit, TAG_STRING)
    case None => Refused
    case Some(h) =>
      if h.end - h.start > STRING_MAX then Refused else Got(d[h.start..h.end], h.end)
  }

  function ReadNull(d: seq<byte>, p: nat, limit: nat): (r: Reading<()>)
    requires limit <= |d|
    ensures r.Got? ==> p < r.pos <= limit
  {
    match ReadTag(d, p, limit, TAG_NULL)
    case None => Refused
    case Some(h) => Got((), h.end)
  }

  /** Base-128 groups, most significant first, until one without the high bit or until the limit
      (section 8.19.2 of X.690). */
  function ReadItem(d: seq<byte>, p: nat, limit: nat, item: nat): (r: Reading<nat>)
    requires p <= limit <= |d| && item < INT_BOUND
    ensures !r.Refused? && (r.Got? ==> p <= r.pos <= limit && r.value < INT_BOUND && (p < limit ==> p < r.pos))
    decreases limit - p
  {
    if p == limit then Got(item, p)
    else
      var next := item * 128 + d[p] as nat % 128;
      if next >= INT_BOUND then Undefined
      else if d[p] < 0x80 then Got(next, p + 1)
      else ReadItem(d, p + 1, limit, next)
  }

  /** The items after the first two. Groups are bounded by limit, the list of items by end. */
  function ReadItems(d: seq<byte>, p: nat, end: nat, limit: nat, oid: seq<int>): Reading<seq<int>>
    requires p <= limit <= |d| && end <= limit
    decreases limit - p
  {
    if p >= end then Got(oid, end)
    else
      match ReadItem(d, p, limit, 0)
      case Refused => Refused
      case Undefined => Undefined
      case Got(item, q) => if |oid| >= OID_MAX then Undefined else ReadItems(d, q, end, limit, oid + [item])
  }

  function ReadOid(d: seq<byte>, p: nat, limit: nat): Reading<seq<int>>
    requires limit <= |d|
  {
    match ReadTag(d, p, limit, TAG_OID)
    case None => Refused
    case Some(h) =>
      match ReadItem(d, h.start, h.end, 0)
      case Refused => Refused
      case Undefined => Undefined
      case Got(first, q) => ReadItems(d, q, h.end, limit, [first / 40, first % 40])
  }

  lemma {:induction false} ReadItemsEnd(d: seq<byte>, p: nat, end: nat, limit: nat, oid: seq<int>)
    requires p <= limit <= |d| && end <= limit
    ensures var r := ReadItems(d, p, end, limit, oid); r.Got? ==> r.pos == end
    decreases limit - p
  {
    if p < end {
      var r := ReadItem(d, p, limit, 0);
      if r.Got? && |oid| < OID_MAX {
        ReadItemsEnd(d, r.pos, end, limit, oid + [r.value]);
      }
    }
  }
}
