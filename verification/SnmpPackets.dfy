/** GET packets as byte strings (section 3 of RFC 1901, section 3 of RFC 3416), and the builder that writes
    them through a moving offset (src/snmpbuilder.cpp). */
module SnmpPackets {
  import opened Bytes
  import opened Asn1

  // ----- Object identifiers

  /** Base-128 groups of a number, most significant first, all with the high bit; none for zero. */
  function Continued(v: nat): seq<byte> {
    if v == 0 then [] else Continued(v / 128) + [(v % 128 + 128) as byte]
  }

  /** The groups of one item: the last one without the high bit. */
  function Item(v: nat): (groups: seq<byte>)
    ensures groups != []
  {
    Continued(v / 128) + [(v % 128) as byte]
  }

  function Items(vs: seq<int>): seq<byte> {
    if vs == [] then [] else Item(Unsigned(vs[0])) + Items(vs[1..])
  }

  /** An int passed as unsigned int. */
  function Unsigned(v: int): nat { v % 0x1_0000_0000 }

  /** oid[0] * 40 + oid[1], which must not overflow, leads the contents. */
  predicate Writable(oid: seq<int>) {
    && |oid| >= 2
    && (forall k :: 0 <= k < |oid| ==> -INT_BOUND <= oid[k] < INT_BOUND)
    && -INT_BOUND <= oid[0] * 40 < INT_BOUND
    && -INT_BOUND <= oid[0] * 40 + oid[1] < INT_BOUND
  }

  function Contents(oid: seq<int>): seq<byte>
    requires |oid| >= 2
  {
    Item(Unsigned(oid[0] * 40 + oid[1])) + Items(oid[2..])
  }

  /** Lengths go into one byte, whatever they are. */
  function Low(n: nat): byte { (n % 256) as byte }

  function Named(oid: seq<int>): seq<byte>
    requires |oid| >= 2
  {
    [TAG_OID, Low(|Contents(oid)|)] + Contents(oid)
  }

  function Binding(oid: seq<int>): seq<byte>
    requires |oid| >= 2
  {
    [0x30, Low(|Named(oid)| + 2)] + (Named(oid) + [TAG_NULL, 0])
  }

  predicate AllWritable(oids: seq<seq<int>>) { forall k :: 0 <= k < |oids| ==> Writable(oids[k]) }

  function Bindings(oids: seq<seq<int>>): seq<byte>
    requires AllWritable(oids)
  {
    if oids == [] then [] else Bindings(oids[..|oids| - 1]) + Binding(oids[|oids| - 1])
  }

  // ----- Packets

  /** Two bytes, written by saveLen. */
  datatype Pair = Pair(high: byte, low: byte)

  function Size(n: nat): Pair { Pair((n / 256 % 256) as byte, (n % 256) as byte) }

  /** A packet under construction: the two-byte lengths are whatever the buffer holds until commit. */
  datatype Draft = Draft(
    size: Pair, community: seq<byte>, command: byte, commandSize: Pair, id: seq<byte>, listSize: Pair,
    oids: seq<seq<int>>)

  predicate Proper(d: Draft) { |d.community| < 128 && |d.id| == 4 && AllWritable(d.oids) }

  function LongHeader(tag: byte, size: Pair): seq<byte> { [tag, 0x82, size.high, size.low] }

  function Intro(d: Draft): seq<byte>
    requires Proper(d)
  {
    [TAG_INTEGER, 1, 1, TAG_STRING, |d.community| as byte] + d.community
  }

  function Numbers(d: Draft): seq<byte> {
    [TAG_INTEGER, 4] + d.id + [TAG_INTEGER, 1, 0, TAG_INTEGER, 1, 0]
  }

  function Packet(d: Draft): seq<byte>
    requires Proper(d)
  {
    LongHeader(0x30, d.size) + (Intro(d) + (LongHeader(d.command, d.commandSize) + (Numbers(d) +
    (LongHeader(0x30, d.listSize) + Bindings(d.oids)))))
  }

  /** Where the command, the request id and the list begin. */
  function CommandAt(d: Draft): nat { 9 + |d.community| }
  function IdAt(d: Draft): nat { CommandAt(d) + 6 }
  function ListAt(d: Draft): nat { CommandAt(d) + 16 }

  /** The four bytes of a request id, most significant first. */
  function IdBytes(id: nat): (bytes: seq<byte>)
    ensures |bytes| == 4
  {
    [(id / 0x100_0000 % 256) as byte, (id / 0x1_0000 % 256) as byte, (id / 0x100 % 256) as byte, (id % 256) as byte]
  }

  /** Every length field says how many bytes follow it. */
  function Committed(d: Draft): Draft
    requires Proper(d)
  {
    var n := |Packet(d)|;
    d.(size := Size(n - 4), commandSize := Size(n - CommandAt(d) - 4), listSize := Size(n - ListAt(d) - 4))
  }
}
