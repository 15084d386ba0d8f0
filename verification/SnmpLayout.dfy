/** The bytes of a GET request by their layout alone: sections 8.1, 8.3, 8.7, 8.8 and 8.19 of X.690, section 3 of
    RFC 1901 and section 3 of RFC 3416, with the tags as numbers. The parser reads what is laid out so, whoever
    wrote it, and the builder writes it. */
module SnmpLayouts {
  import opened Bytes
  import opened Wrappers
  import opened Asn1
  import opened SnmpRequests
  import opened SnmpPackets
  import opened SnmpBuilders
  import opened SnmpParsers
  import opened SnmpRoundTrip
  import opened Seqs

  // ----- The layout

  /** The length n, in the short form or in the long form with up to four more bytes. */
  predicate IsLength(o: seq<byte>, n: nat) {
    if |o| == 1 then o[0] < 0x80 && n == o[0] as nat
    else if |o| == 2 then o[0] == 0x81 && n == o[1] as nat
    else if |o| == 3 then o[0] == 0x82 && n == o[1] as nat * 256 + o[2] as nat
    else if |o| == 4 then o[0] == 0x83 && n == (o[1] as nat * 256 + o[2] as nat) * 256 + o[3] as nat
    else |o| == 5 && o[0] == 0x84
         && n == ((o[1] as nat * 256 + o[2] as nat) * 256 + o[3] as nat) * 256 + o[4] as nat
  }

  /** The integer v in two's complement, in one, two or four bytes. */
  predicate IsInteger(c: seq<byte>, v: int) {
    if |c| == 1 then v == c[0] as int - (if c[0] < 0x80 then 0 else 0x100)
    else if |c| == 2 then v == c[0] as int * 256 + c[1] as int - (if c[0] < 0x80 then 0 else 0x1_0000)
    else |c| == 4
         && v == ((c[0] as int * 256 + c[1] as int) * 256 + c[2] as int) * 256 + c[3] as int
                 - (if c[0] < 0x80 then 0 else 0x1_0000_0000)
  }

  /** A number in base 128. */
  function Base128(groups: seq<byte>): nat {
    if groups == [] then 0 else Base128(groups[..|groups| - 1]) * 128 + groups[|groups| - 1] as nat % 128
  }

  /** One arc: all groups but the last have the high bit. */
  predicate IsArc(groups: seq<byte>, v: int) {
    && groups != [] && groups[|groups| - 1] < 0x80
    && (forall k :: 0 <= k < |groups| - 1 ==> groups[k] >= 0x80)
    && v == Base128(groups) && v < 0x8000_0000
  }

  /** The first two arcs of an object identifier are one. */
  function Arcs(oid: seq<int>): seq<int>
    requires |oid| >= 2
  {
    [oid[0] * 40 + oid[1]] + oid[2..]
  }

  predicate AreArcs(groups: seq<seq<byte>>, arcs: seq<int>) {
    |groups| == |arcs| && forall k :: 0 <= k < |arcs| ==> IsArc(groups[k], arcs[k])
  }

  predicate IsOid(groups: seq<seq<byte>>, oid: seq<int>) {
    2 <= |oid| <= 128 && 0 <= oid[0] && 0 <= oid[1] < 40 && AreArcs(groups, Arcs(oid))
  }

  function Flat(groups: seq<seq<byte>>): seq<byte> {
    if groups == [] then [] else groups[0] + Flat(groups[1..])
  }

  /** A variable: a sequence of an object identifier and a NULL. */
  datatype Variable = Variable(length: seq<byte>, nameLength: seq<byte>, name: seq<seq<byte>>)

  function NameBytes(v: Variable): seq<byte> { [0x06] + v.nameLength + Flat(v.name) }

  function VariableBytes(v: Variable): seq<byte> { [0x30] + v.length + (NameBytes(v) + [0x05, 0x00]) }

  predicate Asks(v: Variable, oid: seq<int>) {
    IsOid(v.name, oid) && IsLength(v.nameLength, |Flat(v.name)|) && IsLength(v.length, |NameBytes(v)| + 2)
  }

  function ListBytes(vs: seq<Variable>): seq<byte> {
    if vs == [] then [] else ListBytes(vs[..|vs| - 1]) + VariableBytes(vs[|vs| - 1])
  }

  predicate AllAsk(vs: seq<Variable>, oids: seq<seq<int>>) {
    |vs| == |oids| && forall k :: 0 <= k < |vs| ==> Asks(vs[k], oids[k])
  }

  /** The length and the contents of an integer or a string. */
  datatype Field = Field(length: seq<byte>, contents: seq<byte>)

  function Coded(tag: byte, f: Field): seq<byte> { [tag] + f.length + f.contents }

  predicate Measured(f: Field) { IsLength(f.length, |f.contents|) }

  /** version and community of the message; id, errorStatus, errorIndex and variables of the request in it. */
  datatype Message = Message(
    length: seq<byte>, version: Field, community: Field,
    command: byte, requestLength: seq<byte>, id: Field, status: Field, index: Field,
    listLength: seq<byte>, variables: seq<Variable>)

  function RequestBytes(m: Message): seq<byte> {
    Coded(0x02, m.id) + (Coded(0x02, m.status) + (Coded(0x02, m.index) +
    ([0x30] + m.listLength + ListBytes(m.variables))))
  }

  function BodyBytes(m: Message): seq<byte> {
    Coded(0x02, m.version) + (Coded(0x04, m.community) + ([m.command] + m.requestLength + RequestBytes(m)))
  }

  function MessageBytes(m: Message): seq<byte> { [0x30] + m.length + BodyBytes(m) }

  /** The message says: this version, this community, and a request with these numbers and OIDs. */
  predicate Says(
      m: Message, version: int, community: seq<byte>, id: int, status: int, index: int, oids: seq<seq<int>>) {
    && IsLength(m.length, |BodyBytes(m)|) && IsLength(m.requestLength, |RequestBytes(m)|)
    && IsLength(m.listLength, |ListBytes(m.variables)|)
    && Measured(m.version) && IsInteger(m.version.contents, version)
    && Measured(m.community) && m.community.contents == community
    && Measured(m.id) && IsInteger(m.id.contents, id)
    && Measured(m.status) && IsInteger(m.status.contents, status)
    && Measured(m.index) && IsInteger(m.index.contents, index)
    && AllAsk(m.variables, oids)
  }

  // ----- Reading

  lemma LengthIsNumber(o: seq<byte>, n: nat)
    requires IsLength(o, n) && |o| > 1
    ensures o[0] as nat == 0x80 + |o| - 1 && Number(o[1..]) == n
  {
    if |o| == 2 {
      NumberOfOne(o[1]);
      assert o[1..] == [o[1]];
    } else if |o| == 3 {
      NumberOfTwo(o[1], o[2]);
      assert o[1..] == [o[1], o[2]];
    } else if |o| == 4 {
      NumberOfThree(o[1], o[2], o[3]);
      assert o[1..] == [o[1], o[2], o[3]];
    } else {
      NumberOfFour(o[1], o[2], o[3], o[4]);
      assert o[1..] == [o[1], o[2], o[3], o[4]];
    }
  }

  lemma NumberOfTwo(a: byte, b: byte)
    ensures Number([a, b]) == a as nat * 256 + b as nat
  {
    NumberOfOne(a);
    NumberSnoc([a], b);
    assert [a] + [b] == [a, b];
  }

  /** A header is read in each form. */
  lemma HeaderIsRead(d: seq<byte>, p: nat, limit: nat, tag: byte, o: seq<byte>, n: nat)
    requires IsLength(o, n) && Holds(d, p, [tag] + o) && p + 1 + |o| + n <= limit <= |d|
    ensures ReadHeader(d, p, limit) == Some(Header(tag, p + 1 + |o|, p + 1 + |o| + n))
  {
    var h := d[p..p + 1 + |o|];
    assert h[0] == tag && h[1] == o[0];
    assert d[p + 1..p + 1 + |o|] == o by {
      assert h[1..] == o;
    }
    if |o| > 1 {
      LengthIsNumber(o, n);
      assert d[p + 2..p + 1 + |o|] == o[1..];
    }
  }

  lemma IntegerIsSigned(c: seq<byte>, v: int)
    requires IsInteger(c, v)
    ensures |c| in {1, 2, 4} && Signed(c) == v
  {
    NumberOfTwo(1, 0);
    NumberOfThree(1, 0, 0);
    NumberOfFour(1, 0, 0, 0);
    NumberSnoc([1, 0, 0, 0], 0);
    if |c| == 1 {
      NumberOfOne(c[0]);
      assert c == [c[0]] && [1] + Zeros(1) == [1, 0];
    } else if |c| == 2 {
      NumberOfTwo(c[0], c[1]);
      assert c == [c[0], c[1]] && [1] + Zeros(2) == [1, 0, 0];
    } else {
      NumberOfFour(c[0], c[1], c[2], c[3]);
      assert c == [c[0], c[1], c[2], c[3]] && [1] + Zeros(4) == [1, 0, 0, 0] + [0];
    }
  }

  lemma IntegerIsRead(d: seq<byte>, p: nat, limit: nat, f: Field, v: int)
    requires Measured(f) && IsInteger(f.contents, v) && Holds(d, p, Coded(0x02, f))
    requires p + |Coded(0x02, f)| <= limit <= |d|
    ensures ReadInt(d, p, limit) == Got(v, p + |Coded(0x02, f)|)
  {
    hide IsLength, Signed, ReadHeader, Holds;
    HoldsSplit(d, p, [0x02] + f.length, f.contents);
    HeaderIsRead(d, p, limit, 0x02, f.length, |f.contents|);
    IntegerIsSigned(f.contents, v);
    HeldSo(d, p + 1 + |f.length|, f.contents);
  }

  lemma HeldSo(d: seq<byte>, p: nat, chunk: seq<byte>)
    requires Holds(d, p, chunk)
    ensures p + |chunk| <= |d| && d[p..p + |chunk|] == chunk
  {
  }

  lemma StringIsRead(d: seq<byte>, p: nat, limit: nat, f: Field)
    requires Measured(f) && Holds(d, p, Coded(0x04, f)) && p + |Coded(0x04, f)| <= limit <= |d|
    ensures ReadString(d, p, limit) ==
            if |f.contents| > 255 then Refused else Got(f.contents, p + |Coded(0x04, f)|)
  {
    hide IsLength, ReadHeader, Holds;
    HoldsSplit(d, p, [0x04] + f.length, f.contents);
    HeaderIsRead(d, p, limit, 0x04, f.length, |f.contents|);
    HeldSo(d, p + 1 + |f.length|, f.contents);
  }

  lemma {:induction false} HighGroupsAreRead(d: seq<byte>, p: nat, limit: nat, groups: seq<byte>)
    requires forall k :: 0 <= k < |groups| ==> groups[k] >= 0x80
    requires Base128(groups) < 0x8000_0000 && p + |groups| <= limit <= |d| && Holds(d, p, groups)
    ensures ReadItem(d, p, limit, 0) == ReadItem(d, p + |groups|, limit, Base128(groups))
  {
    if groups != [] {
      var n := |groups| - 1;
      assert groups == groups[..n] + [groups[n]];
      HoldsSplit(d, p, groups[..n], [groups[n]]);
      HighGroupsAreRead(d, p, limit, groups[..n]);
      assert d[p + n..p + n + 1][0] == groups[n];
    }
  }

  lemma ArcIsRead(d: seq<byte>, p: nat, limit: nat, groups: seq<byte>, v: int)
    requires IsArc(groups, v) && Holds(d, p, groups) && p + |groups| <= limit <= |d|
    ensures v >= 0 && ReadItem(d, p, limit, 0) == Got(v, p + |groups|)
  {
    var n := |groups| - 1;
    assert groups == groups[..n] + [groups[n]];
    HoldsSplit(d, p, groups[..n], [groups[n]]);
    HighGroupsAreRead(d, p, limit, groups[..n]);
    assert d[p + n..p + n + 1][0] == groups[n];
  }

  lemma {:induction false} ArcsAreRead(
      d: seq<byte>, p: nat, end: nat, limit: nat, oid: seq<int>, groups: seq<seq<byte>>, arcs: seq<int>)
    requires AreArcs(groups, arcs) && |oid| + |arcs| <= OID_MAX
    requires p + |Flat(groups)| == end <= limit <= |d| && Holds(d, p, Flat(groups))
    ensures ReadItems(d, p, end, limit, oid) == Got(oid + arcs, end)
    decreases |groups|
  {
    hide ReadItem, Holds, IsArc;
    if groups == [] {
      Empty(oid);
    } else {
      assert IsArc(groups[0], arcs[0]);
      FirstArcTakesRoom(groups[0], arcs[0]);
      HoldsSplit(d, p, groups[0], Flat(groups[1..]));
      ArcIsRead(d, p, limit, groups[0], arcs[0]);
      forall k | 0 <= k < |arcs[1..]| ensures IsArc(groups[1..][k], arcs[1..][k]) {
        assert IsArc(groups[k + 1], arcs[k + 1]);
      }
      ArcsAreRead(d, p + |groups[0]|, end, limit, oid + [arcs[0]], groups[1..], arcs[1..]);
      assert arcs == [arcs[0]] + arcs[1..];
      Assoc(oid, [arcs[0]], arcs[1..]);
    }
  }

  lemma FirstArcTakesRoom(groups: seq<byte>, v: int)
    requires IsArc(groups, v)
    ensures |groups| > 0
  {
  }

  lemma NameIsRead(d: seq<byte>, p: nat, limit: nat, v: Variable, oid: seq<int>)
    requires Asks(v, oid) && Holds(d, p, NameBytes(v)) && p + |NameBytes(v)| <= limit <= |d|
    ensures ReadOid(d, p, limit) == Got(oid, p + |NameBytes(v)|)
  {
    hide IsLength, ReadHeader, ReadItem, ReadItems, IsArc, Holds;
    var first, rest := v.name[0], v.name[1..];
    var start := p + 1 + |v.nameLength|;
    var end := start + |Flat(v.name)|;
    HoldsSplit(d, p, [0x06] + v.nameLength, Flat(v.name));
    HeaderIsRead(d, p, limit, 0x06, v.nameLength, |Flat(v.name)|);
    HoldsSplit(d, start, first, Flat(rest));
    var arcs := Arcs(oid);
    assert IsArc(first, arcs[0]);
    ArcIsRead(d, start, end, first, arcs[0]);
    forall k | 0 <= k < |oid[2..]| ensures IsArc(rest[k], oid[2..][k]) {
      assert IsArc(v.name[k + 1], arcs[k + 1]);
    }
    ArcsAreRead(d, start + |first|, end, limit, [oid[0], oid[1]], rest, oid[2..]);
    assert oid == [oid[0], oid[1]] + oid[2..];
  }

  /** A variable is read as the OID it asks for, in whichever form its lengths are. */
  lemma VariableIsRead(d: seq<byte>, p: nat, limit: nat, v: Variable, oid: seq<int>)
    requires Asks(v, oid) && Holds(d, p, VariableBytes(v)) && p + |VariableBytes(v)| <= limit <= |d|
    ensures GetValue(d, p, limit) == Got(oid, p + |VariableBytes(v)|)
  {
    hide IsLength, ReadHeader, ReadOid, IsOid, Holds, NameBytes;
    var start := p + 1 + |v.length|;
    HoldsSplit(d, p, [0x30] + v.length, NameBytes(v) + [0x05, 0x00]);
    HeaderIsRead(d, p, limit, 0x30, v.length, |NameBytes(v)| + 2);
    HoldsSplit(d, start, NameBytes(v), [0x05, 0x00]);
    NameIsRead(d, start, start + |NameBytes(v)| + 2, v, oid);
    ShortHeaderIsRead(d, start + |NameBytes(v)|, start + |NameBytes(v)| + 2, 0x05, 0x00);
  }

  lemma {:induction false} VariablesAreRead(
      d: seq<byte>, p: nat, end: nat, vs: seq<Variable>, oids: seq<seq<int>>, got: seq<seq<int>>)
    requires AllAsk(vs, oids) && p + |ListBytes(vs)| <= end <= |d| && Holds(d, p, ListBytes(vs))
    ensures GetValues(d, p, end, got) == GetValues(d, p + |ListBytes(vs)|, end, got + oids)
  {
    hide GetValue, Holds, VariableBytes, Asks;
    if vs == [] {
      Empty(got);
    } else {
      var n := |vs| - 1;
      HoldsSplit(d, p, ListBytes(vs[..n]), VariableBytes(vs[n]));
      VariablesAreRead(d, p, end, vs[..n], oids[..n], got);
      var q := p + |ListBytes(vs[..n])|;
      assert Asks(vs[n], oids[n]);
      VariableIsRead(d, q, end, vs[n], oids[n]);
      assert got + oids == (got + oids[..n]) + [oids[n]];
      assert q < end;
    }
  }

  lemma RequestIsLaid(
      f: Fields, d: seq<byte>, p: nat, m: Message, id: int, status: int, index: int, oids: seq<seq<int>>)
    requires Measured(m.id) && IsInteger(m.id.contents, id)
    requires Measured(m.status) && IsInteger(m.status.contents, status)
    requires Measured(m.index) && IsInteger(m.index.contents, index)
    requires IsLength(m.listLength, |ListBytes(m.variables)|) && AllAsk(m.variables, oids)
    requires Holds(d, p, RequestBytes(m)) && p + |RequestBytes(m)| == |d|
    ensures GetRequest(f, d, p, |d|) ==
            (Accepted, f.(requestId := id, errorStatus := status, errorIndex := index, got := f.got + oids))
  {
    hide IsLength, IsInteger, ReadHeader, ReadInt, GetValue, Holds, AllAsk, Coded, Measured, ListBytes;
    var list := [0x30] + m.listLength + ListBytes(m.variables);
    var second := p + |Coded(0x02, m.id)|;
    var third := second + |Coded(0x02, m.status)|;
    var fourth := third + |Coded(0x02, m.index)|;
    HoldsSplit(d, p, Coded(0x02, m.id), Coded(0x02, m.status) + (Coded(0x02, m.index) + list));
    HoldsSplit(d, second, Coded(0x02, m.status), Coded(0x02, m.index) + list);
    HoldsSplit(d, third, Coded(0x02, m.index), list);
    HoldsSplit(d, fourth, [0x30] + m.listLength, ListBytes(m.variables));
    IntegerIsRead(d, p, |d|, m.id, id);
    IntegerIsRead(d, second, |d|, m.status, status);
    IntegerIsRead(d, third, |d|, m.index, index);
    HeaderIsRead(d, fourth, |d|, 0x30, m.listLength, |ListBytes(m.variables)|);
    VariablesAreRead(d, fourth + 1 + |m.listLength|, |d|, m.variables, oids, f.got);
  }

  /** Whoever wrote it: a GET request that is laid out so, of version 1 (SNMPv2c) and with a community of at most
      255 bytes, is accepted and reported as what it says. In all other cases nothing behind the fault is. */
  lemma MessageIsRead(
      f: Fields, m: Message, version: int, community: seq<byte>, id: int, status: int, index: int, oids: seq<seq<int>>)
    requires Says(m, version, community, id, status, index, oids)
    ensures Parse(f, MessageBytes(m)) ==
            if version != 1 then (Rejected, f.(version := version))
            else if |community| > 255 then (Rejected, f.(version := 1))
            else if m.command == 0xA0 then (Accepted, Fields(1, CString(community), id, status, index, f.got + oids))
            else if m.command == 0xA2 then (Elsewhere(0xA2), f.(version := 1, community := CString(community)))
            else if m.command == 0xA7 then (Elsewhere(0xA7), f.(version := 1, community := CString(community)))
            else (Rejected, f.(version := 1, community := CString(community)))
  {
    hide IsLength, IsInteger, ReadHeader, ReadInt, ReadString, GetRequest, Holds, AllAsk, Coded, Measured, RequestBytes;
    hide ListBytes, CString;
    var d := MessageBytes(m);
    var request := [m.command] + m.requestLength + RequestBytes(m);
    var first := 1 + |m.length|;
    var second := first + |Coded(0x02, m.version)|;
    var third := second + |Coded(0x04, m.community)|;
    assert Holds(d, 0, d) by {
      WholeHolds(d);
    }
    HoldsSplit(d, 0, [0x30] + m.length, BodyBytes(m));
    HoldsSplit(d, first, Coded(0x02, m.version), Coded(0x04, m.community) + request);
    HoldsSplit(d, second, Coded(0x04, m.community), request);
    HoldsSplit(d, third, [m.command] + m.requestLength, RequestBytes(m));
    HeaderIsRead(d, 0, |d|, 0x30, m.length, |BodyBytes(m)|);
    IntegerIsRead(d, first, |d|, m.version, version);
    StringIsRead(d, second, |d|, m.community);
    if version == 1 && |community| <= 255 {
      HeaderIsRead(d, third, |d|, m.command, m.requestLength, |RequestBytes(m)|);
      if m.command == 0xA0 {
        var g, p := f.(version := 1, community := CString(community)), third + 1 + |m.requestLength|;
        RequestIsLaid(g, d, p, m, id, status, index, oids);
      }
    }
  }

  /** Nothing is reported of a message that is cut off anywhere. */
  lemma CutIsRejected(f: Fields, o: seq<byte>, body: seq<byte>, k: nat)
    requires IsLength(o, |body|) && k < 1 + |o| + |body|
    ensures Parse(f, ([0x30] + o + body)[..k]) == (Rejected, f)
  {
    hide IsLength;
    var d := ([0x30] + o + body)[..k];
    LengthTakesRoom(o, |body|);
    if k > 1 {
      assert d[1] == o[0];
      if k >= 1 + |o| {
        assert d[..1 + |o|] == [0x30] + o;
        CutHeader(d, 0x30, o, |body|);
      } else {
        LengthIsNumber(o, |body|);
      }
    }
  }

  lemma LengthTakesRoom(o: seq<byte>, n: nat)
    requires IsLength(o, n)
    ensures 1 <= |o| <= 5
  {
  }

  lemma CutHeader(d: seq<byte>, tag: byte, o: seq<byte>, n: nat)
    requires IsLength(o, n) && 1 + |o| <= |d| < 1 + |o| + n && d[..1 + |o|] == [tag] + o
    ensures ReadHeader(d, 0, |d|).None?
  {
    assert d[1] == d[..1 + |o|][1] == o[0];
    if |o| > 1 {
      LengthIsNumber(o, n);
      assert d[2..1 + |o|] == d[..1 + |o|][2..] == o[1..];
    }
  }

  /** Each reader refuses what has another tag. */
  lemma OtherTagsAreRefused(d: seq<byte>, p: nat, limit: nat)
    requires p < limit <= |d|
    ensures d[p] != 0x02 ==> ReadInt(d, p, limit) == Refused
    ensures d[p] != 0x04 ==> ReadString(d, p, limit) == Refused
    ensures d[p] != 0x05 ==> ReadNull(d, p, limit) == Refused
    ensures d[p] != 0x06 ==> ReadOid(d, p, limit) == Refused
  {
  }

  lemma WholeHolds(d: seq<byte>)
    ensures Holds(d, 0, d)
  {
  }

  // ----- Writing

  /** The bytes that the groups of a number take. */
  function SizeOf(v: int): nat {
    if v < 0x80 then 1 else if v < 0x4000 then 2 else if v < 0x20_0000 then 3 else if v < 0x1000_0000 then 4 else 5
  }

  function SizeOfAll(arcs: seq<int>): nat {
    if arcs == [] then 0 else SizeOf(arcs[0]) + SizeOfAll(arcs[1..])
  }

  /** What an agent can be asked for: two arcs or more, none negative, all below 2^31, the second below 40, and
      in at most 123 bytes, so that the variable has a length of one byte. */
  predicate Askable(oid: seq<int>) {
    && |oid| >= 2 && (forall k :: 0 <= k < |oid| ==> 0 <= oid[k] < 0x8000_0000)
    && oid[1] < 40 && oid[0] * 40 + oid[1] < 0x8000_0000
    && SizeOfAll(Arcs(oid)) <= 123
  }

  predicate AllAskable(oids: seq<seq<int>>) { forall k :: 0 <= k < |oids| ==> Askable(oids[k]) }

  /** The bytes that the variables take. */
  function SizeOfList(oids: seq<seq<int>>): nat
    requires AllAskable(oids)
  {
    if oids == [] then 0 else SizeOfList(oids[..|oids| - 1]) + SizeOfAll(Arcs(oids[|oids| - 1])) + 6
  }

  lemma {:induction false} ContinuedIsBase128(v: nat)
    ensures Base128(Continued(v)) == v && AllHigh(Continued(v))
    ensures v != 0 ==> Continued(v) != [] && Continued(v)[0] != 0x80
  {
    hide Base128, AllHigh;
    if v == 0 {
      NoGroup();
    } else {
      var before, last := Continued(v / 128), (v % 128 + 128) as byte;
      ContinuedIsBase128(v / 128);
      Base128Snoc(before, last);
      assert AllHigh(before + [last]) by {
        OneMoreHigh(before, last);
      }
      assert Continued(v) == before + [last];
    }
  }

  predicate AllHigh(groups: seq<byte>) { forall k :: 0 <= k < |groups| ==> groups[k] >= 0x80 }

  lemma OneMoreHigh(groups: seq<byte>, last: byte)
    requires AllHigh(groups) && last >= 0x80
    ensures AllHigh(groups + [last])
  {
  }

  lemma NoGroup()
    ensures Base128([]) == 0 && AllHigh([])
  {
  }

  lemma Base128Snoc(groups: seq<byte>, last: byte)
    ensures Base128(groups + [last]) == Base128(groups) * 128 + last as nat % 128
  {
    Snoc(groups, last);
  }

  /** The groups that are written are those of the number, and none of them could be left out. */
  lemma ItemIsArc(v: nat)
    requires v < 0x8000_0000
    ensures IsArc(Item(v), v) && Item(v)[0] != 0x80
  {
    ContinuedIsBase128(v / 128);
    Base128Snoc(Continued(v / 128), (v % 128) as byte);
  }

  lemma {:induction false} ContinuedSize(v: nat)
    requires v != 0
    ensures |Continued(v)| == if v < 128 then 1 else |Continued(v / 128)| + 1
  {
    if v < 128 {
      assert Continued(v / 128) == [];
    }
  }

  lemma ItemSize(v: nat)
    requires v < 0x8000_0000
    ensures |Item(v)| == SizeOf(v)
  {
    var a := v / 128;
    var b := a / 128;
    var c := b / 128;
    if a != 0 { ContinuedSize(a); }
    if b != 0 { ContinuedSize(b); }
    if c != 0 { ContinuedSize(c); }
    if c / 128 != 0 { ContinuedSize(c / 128); }
  }

  /** The groups of all arcs. */
  function Grouped(arcs: seq<int>): seq<seq<byte>> {
    if arcs == [] then [] else [Item(Unsigned(arcs[0]))] + Grouped(arcs[1..])
  }

  lemma {:induction false} GroupedAreArcs(arcs: seq<int>)
    requires forall k :: 0 <= k < |arcs| ==> 0 <= arcs[k] < 0x8000_0000
    ensures AreArcs(Grouped(arcs), arcs) && Flat(Grouped(arcs)) == Items(arcs) && |Items(arcs)| == SizeOfAll(arcs)
    ensures forall k :: 0 <= k < |arcs| ==> Grouped(arcs)[k] != [] && Grouped(arcs)[k][0] != 0x80
  {
    hide IsArc, Item;
    if arcs != [] {
      var rest := arcs[1..];
      GroupedAreArcs(rest);
      ItemIsArc(arcs[0]);
      ItemSize(arcs[0]);
      forall k | 0 <= k < |arcs|
        ensures IsArc(Grouped(arcs)[k], arcs[k]) && Grouped(arcs)[k] != [] && Grouped(arcs)[k][0] != 0x80
      {
        if k > 0 {
          assert IsArc(Grouped(rest)[k - 1], rest[k - 1]);
        }
      }
    }
  }

  /** The variable that is written for an OID. */
  function Laid(oid: seq<int>): Variable
    requires |oid| >= 2
  {
    var n := |Items(Arcs(oid))|;
    Variable([Low(n + 4)], [Low(n)], Grouped(Arcs(oid)))
  }

  lemma BindingIsLaid(oid: seq<int>)
    requires Askable(oid)
    ensures |oid| >= 2 && Writable(oid) && Asks(Laid(oid), oid) && VariableBytes(Laid(oid)) == Binding(oid)
    ensures |Binding(oid)| == SizeOfAll(Arcs(oid)) + 6
  {
    hide Item, IsArc, SizeOf;
    var arcs := Arcs(oid);
    GroupedAreArcs(arcs);
    assert arcs[1..] == oid[2..];
    assert Items(arcs) == Contents(oid);
    ItemsLength(arcs);
    assert IsOid(Grouped(arcs), oid);
    assert |NameBytes(Laid(oid))| == |Contents(oid)| + 2;
  }

  function LaidAll(oids: seq<seq<int>>): seq<Variable>
    requires AllAskable(oids)
  {
    if oids == [] then [] else LaidAll(oids[..|oids| - 1]) + [Laid(oids[|oids| - 1])]
  }

  lemma {:induction false} BindingsAreLaid(oids: seq<seq<int>>)
    requires AllAskable(oids)
    ensures AllWritable(oids) && AllAsk(LaidAll(oids), oids) && ListBytes(LaidAll(oids)) == Bindings(oids)
    ensures |Bindings(oids)| == SizeOfList(oids)
  {
    hide Askable, AllAsk, AllWritable, Binding, Arcs, VariableBytes, SizeOfAll, Bindings, ListBytes, Laid;
    if oids == [] {
      NoneAreLaid();
    } else {
      var n := |oids| - 1;
      BindingsAreLaid(oids[..n]);
      assert Askable(oids[n]);
      BindingIsLaid(oids[n]);
      OneMoreIsLaid(oids[..n], oids[n], LaidAll(oids[..n]), Laid(oids[n]));
      assert oids[..n] + [oids[n]] == oids;
    }
  }

  lemma NoneAreLaid()
    ensures AllWritable([]) && AllAsk([], []) && ListBytes([]) == Bindings([]) == []
  {
  }

  lemma OneMoreIsLaid(oids: seq<seq<int>>, oid: seq<int>, vs: seq<Variable>, v: Variable)
    requires AllWritable(oids) && AllAsk(vs, oids) && Writable(oid) && Asks(v, oid)
    ensures AllWritable(oids + [oid]) && AllAsk(vs + [v], oids + [oid])
    ensures ListBytes(vs + [v]) == ListBytes(vs) + VariableBytes(v)
    ensures Bindings(oids + [oid]) == Bindings(oids) + Binding(oid)
  {
    hide Asks, Writable, Binding, VariableBytes, Bindings;
    Snoc(vs, v);
    assert AllWritable(oids + [oid]);
    BindingsSnoc(oids, oid);
  }

  /** Two bytes behind 0x82. */
  function TwoBytes(n: nat): seq<byte> { [0x82, (n / 256 % 256) as byte, (n % 256) as byte] }

  lemma TwoBytesAreLength(n: nat)
    requires n < 0x1_0000
    ensures IsLength(TwoBytes(n), n)
  {
  }

  /** The message that is written. */
  function Whole(name: seq<byte>, id: seq<byte>, oids: seq<seq<int>>): Message
    requires |name| < 128 && |id| == 4 && AllAskable(oids)
  {
    var n := SizeOfList(oids);
    Message(TwoBytes(|name| + 25 + n), Field([1], [1]), Field([|name| as byte], name),
            0xA0, TwoBytes(n + 16), Field([4], id), Field([1], [0]), Field([1], [0]),
            TwoBytes(n), LaidAll(oids))
  }

  lemma PacketIsLaid(d: Draft, name: seq<byte>, id: nat, oids: seq<seq<int>>)
    requires Written(d, name, id, oids) && AllAskable(oids)
    ensures Packet(Committed(d)) == MessageBytes(Whole(name, IdBytes(id), oids))
    ensures |Packet(Committed(d))| == |name| + 29 + SizeOfList(oids)
  {
    hide AllAskable, Bindings, ListBytes, SizeOfList, LaidAll, IdBytes, AllWritable, AllAsk;
    BindingsAreLaid(oids);
    PacketLength(d);
    PacketLength(Committed(d));
    var m := Whole(name, IdBytes(id), oids);
    PacketParts(Committed(d), m);
  }

  lemma PacketParts(c: Draft, m: Message)
    requires Proper(c) && Bindings(c.oids) == ListBytes(m.variables)
    requires LongHeader(0x30, c.size) == [0x30] + m.length
    requires Intro(c) == Coded(0x02, m.version) + Coded(0x04, m.community)
    requires LongHeader(c.command, c.commandSize) == [m.command] + m.requestLength
    requires Numbers(c) == Coded(0x02, m.id) + (Coded(0x02, m.status) + Coded(0x02, m.index))
    requires LongHeader(0x30, c.listSize) == [0x30] + m.listLength
    ensures Packet(c) == MessageBytes(m)
  {
    hide Bindings, ListBytes, Intro, LongHeader, Coded, Numbers;
    var id, status, index := Coded(0x02, m.id), Coded(0x02, m.status), Coded(0x02, m.index);
    var list := [0x30] + m.listLength + ListBytes(m.variables);
    Assoc4(id, status, index, list);
    Assoc(id, status, index);
    Assoc(id, status + index, list);
    Assoc(status, index, list);
    var request := [m.command] + m.requestLength + RequestBytes(m);
    Assoc(Coded(0x02, m.version), Coded(0x04, m.community), request);
  }

  lemma WholeSays(name: seq<byte>, id: nat, oids: seq<seq<int>>)
    requires |name| < 128 && id < 0x1_0000_0000 && AllAskable(oids) && |name| + 25 + SizeOfList(oids) < 0x1_0000
    ensures var signed := if id < 0x8000_0000 then id else id - 0x1_0000_0000;
            Says(Whole(name, IdBytes(id), oids), 1, name, signed, 0, 0, oids)
  {
    hide AllAskable, Bindings, ListBytes, SizeOfList, LaidAll, AllWritable, AllAsk;
    BindingsAreLaid(oids);
    IdSplit(id);
    var n := SizeOfList(oids);
    TwoBytesAreLength(|name| + 25 + n);
    TwoBytesAreLength(n + 16);
    TwoBytesAreLength(n);
  }

  /** No group could be left out. */
  predicate Tight(vs: seq<Variable>) {
    forall k, j :: 0 <= k < |vs| && 0 <= j < |vs[k].name| ==> vs[k].name[j] != [] && vs[k].name[j][0] != 0x80
  }

  lemma {:induction false} LaidAreTight(oids: seq<seq<int>>)
    requires AllAskable(oids)
    ensures Tight(LaidAll(oids))
  {
    if oids != [] {
      var n := |oids| - 1;
      LaidAreTight(oids[..n]);
      GroupedAreArcs(Arcs(oids[n]));
    }
  }

  /** What the builder leaves in its buffer, from reset to commit: the layout of this request, in as many bytes
      as its groups take, and not one more. */
  method BuildsLayout(builder: SnmpBuilder, name: seq<byte>, id: nat, oids: seq<seq<int>>) returns (ghost m: Message)
    requires |name| < 128 && 0 !in name && id < 0x1_0000_0000 && AllAskable(oids)
    requires |name| + 29 + SizeOfList(oids) <= builder.buffer.Length && |name| + 25 + SizeOfList(oids) < 0x1_0000
    modifies builder, builder.buffer
    ensures builder.offset == |name| + 29 + SizeOfList(oids) <= builder.buffer.Length
    ensures builder.buffer[..builder.offset] == MessageBytes(m) && m.command == 0xA0 && Tight(m.variables)
    ensures Says(m, 1, name, if id < 0x8000_0000 then id else id - 0x1_0000_0000, 0, 0, oids)
  {
    hide AllAskable, Bindings, SizeOfList, Whole, Packet, Committed, Says, IdBytes, Tight, MessageBytes, AllWritable;
    BindingsAreLaid(oids);
    ghost var d := Build(builder, name, id, oids);
    PacketIsLaid(d, name, id, oids);
    WholeSays(name, id, oids);
    m := Whole(name, IdBytes(id), oids);
    assert m.command == 0xA0 && Tight(m.variables) by {
      WholeIsTight(name, IdBytes(id), oids);
    }
  }

  lemma WholeIsTight(name: seq<byte>, id: seq<byte>, oids: seq<seq<int>>)
    requires |name| < 128 && |id| == 4 && AllAskable(oids)
    ensures Whole(name, id, oids).command == 0xA0 && Tight(Whole(name, id, oids).variables)
  {
    LaidAreTight(oids);
  }

  /** What the parser object makes of any bytes that are laid out as a GET request. */
  method HearsLayout(
      parser: SnmpParser, data: seq<byte>, ghost m: Message, ghost community: seq<byte>, ghost id: int,
      ghost status: int, ghost index: int, ghost oids: seq<seq<int>>)
    returns (s: Status)
    requires parser.community.Length == STRING_MAX + 1
    requires data == MessageBytes(m) && m.command == 0xA0 && Says(m, 1, community, id, status, index, oids)
    requires |community| <= 255 && 0 !in community
    modifies parser, parser.community
    ensures s == Accepted && parser.version == 1 && CString(parser.community[..]) == community
    ensures parser.requestId == id && parser.errorStatus == status && parser.errorIndex == index
    ensures parser.got == old(parser.got) + oids
  {
    hide Says, MessageBytes, Parse, CString;
    ghost var f := parser.View();
    s := parser.ParsePacket(data);
    MessageIsRead(f, m, 1, community, id, status, index, oids);
    TextIsKept(community);
  }
}
