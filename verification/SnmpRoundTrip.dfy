/** What the parser makes of the packets the builder writes. */
module SnmpRoundTrip {
  import opened Bytes
  import opened Wrappers
  import opened Asn1
  import opened SnmpRequests
  import opened SnmpPackets
  import opened SnmpBuilders
  import opened SnmpParsers
  import opened Seqs

  /** The bytes of chunk lie in d from position p on. */
  ghost predicate Holds(d: seq<byte>, p: nat, chunk: seq<byte>) {
    p + |chunk| <= |d| && d[p..p + |chunk|] == chunk
  }

  lemma HoldsSplit(d: seq<byte>, p: nat, a: seq<byte>, b: seq<byte>)
    requires Holds(d, p, a + b)
    ensures Holds(d, p, a) && Holds(d, p + |a|, b)
  {
    var s := d[p..p + |a + b|];
    assert d[p..p + |a|] == s[..|a|];
    assert d[p + |a|..p + |a| + |b|] == s[|a|..];
  }

  // ----- Numbers

  lemma {:induction false} ContinuedIsRead(d: seq<byte>, p: nat, limit: nat, v: nat)
    requires v < INT_BOUND && p + |Continued(v)| <= limit <= |d| && Holds(d, p, Continued(v))
    ensures ReadItem(d, p, limit, 0) == ReadItem(d, p + |Continued(v)|, limit, v)
  {
    if v != 0 {
      HoldsSplit(d, p, Continued(v / 128), [(v % 128 + 128) as byte]);
      ContinuedIsRead(d, p, limit, v / 128);
      var q := p + |Continued(v / 128)|;
      assert d[q..q + 1][0] == (v % 128 + 128) as byte;
    }
  }

  /** A number is read back as long as it fits an int; the encoder also writes larger ones. */
  lemma ItemIsRead(d: seq<byte>, p: nat, limit: nat, v: nat)
    requires v < 0x1_0000_0000 && p + |Item(v)| <= limit <= |d| && Holds(d, p, Item(v))
    ensures ReadItem(d, p, limit, 0) == if v < INT_BOUND then Got(v, p + |Item(v)|) else Undefined
  {
    var q := p + |Continued(v / 128)|;
    HoldsSplit(d, p, Continued(v / 128), [(v % 128) as byte]);
    assert d[q] == (v % 128) as byte by {
      assert d[q..q + 1][0] == (v % 128) as byte;
    }
    hide Holds, Continued;
    ContinuedIsRead(d, p, limit, v / 128);
  }

  predicate NonNegative(vs: seq<int>) { forall k :: 0 <= k < |vs| ==> 0 <= vs[k] }

  lemma NonNegativeTail(vs: seq<int>)
    requires vs != [] && vs[0] >= 0
    ensures NonNegative(vs) <==> NonNegative(vs[1..])
  {
    if NonNegative(vs[1..]) {
      forall k | 0 <= k < |vs| ensures 0 <= vs[k] {
        if k > 0 {
          assert vs[1..][k - 1] == vs[k];
        }
      }
    }
  }

  lemma {:induction false} ItemsAreRead(d: seq<byte>, p: nat, end: nat, limit: nat, oid: seq<int>, vs: seq<int>)
    requires p + |Items(vs)| == end <= limit <= |d| && Holds(d, p, Items(vs)) && |oid| + |vs| <= OID_MAX
    requires forall k :: 0 <= k < |vs| ==> -INT_BOUND <= vs[k] < INT_BOUND
    ensures ReadItems(d, p, end, limit, oid) == if NonNegative(vs) then Got(oid + vs, end) else Undefined
    decreases vs
  {
    hide ReadItem, Item, Holds;
    if vs == [] {
      Empty(oid);
    } else {
      var u := Unsigned(vs[0]);
      HoldsSplit(d, p, Item(u), Items(vs[1..]));
      ItemIsRead(d, p, limit, u);
      if vs[0] >= 0 {
        ItemsAreRead(d, p + |Item(u)|, end, limit, oid + [vs[0]], vs[1..]);
        Assoc(oid, [vs[0]], vs[1..]);
        assert [vs[0]] + vs[1..] == vs;
        NonNegativeTail(vs);
      }
    }
  }

  // ----- One variable

  /** The OID that is read where oid was written. */
  function Heard(oid: seq<int>): Option<seq<int>>
    requires |oid| >= 2
  {
    var first := oid[0] * 40 + oid[1];
    if first < 0 || !NonNegative(oid[2..]) then None else Some([first / 40, first % 40] + oid[2..])
  }

  /** The OIDs that survive: the second arc below 40, nothing negative. */
  predicate Plain(oid: seq<int>) {
    |oid| >= 2 && oid[1] < 40 && NonNegative(oid)
  }

  lemma HeardExactly(oid: seq<int>)
    requires |oid| >= 2
    ensures Heard(oid) == Some(oid) <==> Plain(oid)
  {
    var first := oid[0] * 40 + oid[1];
    assert oid == [oid[0], oid[1]] + oid[2..];
    if Plain(oid) {
      assert first / 40 == oid[0] && first % 40 == oid[1];
      assert NonNegative(oid[2..]);
    }
    if Heard(oid) == Some(oid) {
      var heard := [first / 40, first % 40] + oid[2..];
      assert heard[0] == first / 40 && heard[1] == first % 40;
      forall k | 0 <= k < |oid| ensures 0 <= oid[k] {
        if k >= 2 {
          assert oid[2..][k - 2] == oid[k];
        }
      }
    }
  }

  /** The varbind has a one-byte length. */
  predicate Short(oid: seq<int>) { |oid| >= 2 && |Contents(oid)| <= 123 }

  lemma {:induction false} ItemsLength(vs: seq<int>)
    ensures |vs| <= |Items(vs)|
  {
    if vs != [] {
      ItemsLength(vs[1..]);
    }
  }

  lemma ShortHeaderIsRead(d: seq<byte>, p: nat, limit: nat, tag: byte, n: byte)
    requires n < 128 && p + 2 + n as nat <= limit <= |d| && Holds(d, p, [tag, n])
    ensures ReadHeader(d, p, limit) == Some(Header(tag, p + 2, p + 2 + n as nat))
  {
    assert d[p..p + 2][0] == tag && d[p..p + 2][1] == n;
  }

  lemma OidIsRead(d: seq<byte>, p: nat, limit: nat, oid: seq<int>)
    requires Writable(oid) && Short(oid) && p + |Named(oid)| <= limit <= |d| && Holds(d, p, Named(oid))
    ensures ReadOid(d, p, limit) == if Heard(oid).Some? then Got(Heard(oid).value, p + |Named(oid)|) else Undefined
  {
    hide ReadItem, ReadItems, Item, Items, Holds;
    var first := oid[0] * 40 + oid[1];
    var u := Unsigned(first);
    var n := |Contents(oid)|;
    HoldsSplit(d, p, [TAG_OID, Low(n)], Contents(oid));
    ShortHeaderIsRead(d, p, limit, TAG_OID, Low(n));
    HoldsSplit(d, p + 2, Item(u), Items(oid[2..]));
    ItemIsRead(d, p + 2, p + 2 + n, u);
    ItemsLength(oid[2..]);
    if first >= 0 {
      ItemsAreRead(d, p + 2 + |Item(u)|, p + 2 + n, limit, [first / 40, first % 40], oid[2..]);
    }
  }

  lemma SmallName(oid: seq<int>)
    requires Short(oid)
    ensures |oid| >= 2 && |Named(oid)| <= 125
  {
  }

  lemma BindingIsRead(d: seq<byte>, p: nat, limit: nat, oid: seq<int>)
    requires Writable(oid) && Short(oid) && p + |Binding(oid)| <= limit <= |d| && Holds(d, p, Binding(oid))
    ensures GetValue(d, p, limit) == if Heard(oid).Some? then Got(Heard(oid).value, p + |Binding(oid)|) else Undefined
  {
    hide Heard, ReadOid, Holds, Contents, Writable, Short;
    SmallName(oid);
    var n := |Named(oid)| + 2;
    HoldsSplit(d, p, [0x30, Low(n)], Named(oid) + [TAG_NULL, 0]);
    ShortHeaderIsRead(d, p, limit, 0x30, Low(n));
    HoldsSplit(d, p + 2, Named(oid), [TAG_NULL, 0]);
    OidIsRead(d, p + 2, p + 2 + n, oid);
    ShortHeaderIsRead(d, p + 2 + |Named(oid)|, p + 2 + n, TAG_NULL, 0);
  }

  // ----- Variables whose length does not fit one byte

  lemma {:induction false} ContinuedLength(v: nat, k: nat)
    requires v < Power128(k)
    ensures |Continued(v)| <= k
    decreases k
  {
    if v > 0 {
      ContinuedLength(v / 128, k - 1);
    }
  }

  function Power128(k: nat): nat { if k == 0 then 1 else 128 * Power128(k - 1) }

  lemma ItemLength(v: nat)
    requires v < 0x1_0000_0000
    ensures 1 <= |Item(v)| <= 5
  {
    assert Power128(1) == 128 && Power128(2) == 0x4000 && Power128(3) == 0x20_0000 && Power128(4) == 0x1000_0000;
    ContinuedLength(v / 128, 4);
  }

  /** A number is read to its end, or up to the limit. */
  lemma ItemEnds(d: seq<byte>, p: nat, limit: nat, v: nat)
    requires v < 0x1_0000_0000 && p <= limit <= |d| && Holds(d, p, Item(v))
    ensures var r := ReadItem(d, p, limit, 0); r.Got? ==>
              r.pos == if p + |Item(v)| <= limit then p + |Item(v)| else limit
  {
    if p + |Item(v)| <= limit {
      ItemIsRead(d, p, limit, v);
    } else {
      HoldsSplit(d, p, Continued(v / 128), [(v % 128) as byte]);
      GroupsGoOn(d, p, limit, v / 128, 0);
    }
  }

  lemma {:induction false} AllContinued(v: nat)
    ensures forall g <- Continued(v) :: g >= 0x80
  {
    if v != 0 {
      AllContinued(v / 128);
    }
  }

  /** A limit among groups with the high bit cuts the number off. */
  lemma GroupsGoOn(d: seq<byte>, p: nat, limit: nat, v: nat, item: nat)
    requires p <= limit <= p + |Continued(v)| && limit <= |d| && Holds(d, p, Continued(v)) && item < INT_BOUND
    ensures var r := ReadItem(d, p, limit, item); r.Got? ==> r.pos == limit
  {
    AllContinued(v);
    forall q | p <= q < limit ensures d[q] >= 0x80 {
      assert d[q] == Continued(v)[q - p] && Continued(v)[q - p] in Continued(v);
    }
    RunsToLimit(d, p, limit, item);
  }

  lemma {:induction false} RunsToLimit(d: seq<byte>, p: nat, limit: nat, item: nat)
    requires p <= limit <= |d| && item < INT_BOUND && forall q :: p <= q < limit ==> d[q] >= 0x80
    ensures var r := ReadItem(d, p, limit, item); r.Got? ==> r.pos == limit
    decreases limit - p
  {
    if p < limit {
      var next := item * 128 + d[p] as nat % 128;
      if next < INT_BOUND {
        RunsToLimit(d, p + 1, limit, next);
      }
    }
  }

  /** If the list of items ends before the last number begins, not all of them are read. */
  lemma {:induction false} FewerItems(d: seq<byte>, p: nat, end: nat, limit: nat, oid: seq<int>, vs: seq<int>)
    requires p <= limit <= |d| && end <= limit && Holds(d, p, Items(vs)) && vs != [] && end + 5 <= p + |Items(vs)|
    ensures var r := ReadItems(d, p, end, limit, oid); r.Got? ==> |r.value| < |oid| + |vs|
    decreases |vs|
  {
    hide ReadItem, Item, Holds;
    if p < end {
      var u := Unsigned(vs[0]);
      HoldsSplit(d, p, Item(u), Items(vs[1..]));
      ItemLength(u);
      ItemEnds(d, p, limit, u);
      var r := ReadItem(d, p, limit, 0);
      if r.Got? && |oid| < OID_MAX && p + |Item(u)| <= limit {
        FewerItems(d, r.pos, end, limit, oid + [r.value], vs[1..]);
      }
    }
  }

  /** An OID whose length is cut to one byte is not read as itself. */
  lemma CutOidIsNotRead(d: seq<byte>, p: nat, limit: nat, oid: seq<int>)
    requires Writable(oid) && |Contents(oid)| >= 252 && p + 2 + |Contents(oid)| <= |d| && Holds(d, p, Named(oid))
    requires limit <= |d|
    requires Low(|Contents(oid)|) < 128
    ensures var r := ReadOid(d, p, limit); r.Got? ==> r.value != oid
  {
    hide ReadItem, ReadItems, Item, Items, Holds;
    var first := oid[0] * 40 + oid[1];
    var u, n := Unsigned(first), |Contents(oid)|;
    HoldsSplit(d, p, [TAG_OID, Low(n)], Contents(oid));
    HoldsSplit(d, p + 2, Item(u), Items(oid[2..]));
    HeaderBytes(d, p, TAG_OID, Low(n));
    ItemLength(u);
    var h := ReadTag(d, p, limit, TAG_OID);
    if h.Some? {
      var end := p + 2 + Low(n) as nat;
      ItemEnds(d, p + 2, end, u);
      var r := ReadItem(d, p + 2, end, 0);
      if r.Got? {
        NoItems();
        assert oid[2..] != [];
        if p + 2 + |Item(u)| <= end {
          FewerItems(d, r.pos, end, limit, [r.value / 40, r.value % 40], oid[2..]);
        } else {
          AtTheEnd(d, end, limit, [r.value / 40, r.value % 40]);
        }
      }
    }
  }

  lemma NoItems()
    ensures Items([]) == []
  {
  }

  lemma AtTheEnd(d: seq<byte>, end: nat, limit: nat, oid: seq<int>)
    requires end <= limit <= |d|
    ensures ReadItems(d, end, end, limit, oid) == Got(oid, end)
  {
  }

  lemma HeaderBytes(d: seq<byte>, p: nat, tag: byte, n: byte)
    requires Holds(d, p, [tag, n])
    ensures p + 2 <= |d| && d[p] == tag && d[p + 1] == n
  {
    assert d[p..p + 2][0] == tag && d[p..p + 2][1] == n;
  }

  lemma NumberOfNone()
    ensures Number([]) == 0
  {
  }

  lemma NumberOfOne(a: byte)
    ensures Number([a]) == a as nat
  {
    NumberSnoc([], a);
    assert [] + [a] == [a];
  }

  /** The bytes of a length whose first is 6 are a number of at least that many times 256. */
  lemma LengthFromTag(d: seq<byte>, p: nat, c: nat)
    requires 3 <= c <= 4 && p + c <= |d| && d[p] == TAG_OID
    ensures Number(d[p..p + c]) >= 0x6_0000
  {
    if c == 3 {
      NumberOfThree(d[p], d[p + 1], d[p + 2]);
      assert d[p..p + c] == [d[p], d[p + 1], d[p + 2]];
    } else {
      NumberOfFour(d[p], d[p + 1], d[p + 2], d[p + 3]);
      assert d[p..p + c] == [d[p], d[p + 1], d[p + 2], d[p + 3]];
    }
  }

  /** The one case whose reading depends on what comes later in the packet: the second length byte is taken
      for a length of two bytes, and the OID begins with the tag of an OID. */
  predicate Ambiguous(oid: seq<int>) {
    |oid| >= 2 && |Contents(oid)| % 256 == 126 && oid[0] * 40 + oid[1] == TAG_OID as int
  }

  /** A variable of 128 bytes or more, whose length is written into one byte, is never read as itself. */
  lemma LongBindingIsNotRead(d: seq<byte>, p: nat, limit: nat, oid: seq<int>)
    requires Writable(oid) && p + |Binding(oid)| <= limit <= |d| && Holds(d, p, Binding(oid)) && limit < 0x1_0100
    requires !Short(oid) && !Ambiguous(oid)
    ensures var r := GetValue(d, p, limit); r.Got? ==> r.value != oid
    ensures |Contents(oid)| <= 251 ==> GetValue(d, p, limit) == Refused
  {
    hide ReadItem, ReadItems, ReadNull, Item, Items, Holds;
    var n := |Contents(oid)|;
    var m, k := Low(n + 4), Low(n);
    HoldsSplit(d, p, [0x30, m], Named(oid) + [TAG_NULL, 0]);
    HoldsSplit(d, p + 2, Named(oid), [TAG_NULL, 0]);
    HoldsSplit(d, p + 2, [TAG_OID, k], Contents(oid));
    HeaderBytes(d, p, 0x30, m);
    HeaderBytes(d, p + 2, TAG_OID, k);
    if m < 4 {
      assert k as nat == m as nat + 252;
    } else if m < 128 {
      assert k as nat == m as nat - 4;
      CutOidIsNotRead(d, p + 2, p + 2 + m as nat, oid);
    } else {
      assert k as nat == m as nat - 4;
      LongFormIsRefused(d, p, limit, oid, m);
    }
  }

  /** The length byte has the high bit: it is taken for the length of a length. */
  lemma LongFormIsRefused(d: seq<byte>, p: nat, limit: nat, oid: seq<int>, m: byte)
    requires |oid| >= 2 && p + 4 + |Contents(oid)| <= limit <= |d| && limit < 0x1_0100
    requires m >= 128 && m as nat == (|Contents(oid)| + 4) % 256
    requires d[p + 1] == m && d[p + 2] == TAG_OID && d[p + 3] as nat == m as nat - 4 && Holds(d, p + 4, Contents(oid))
    requires Writable(oid) && !Ambiguous(oid)
    ensures GetValue(d, p, limit) == Refused
  {
    hide ReadItem, ReadItems, ReadNull, Items, Number, Holds, Contents, Writable;
    var c := m as nat - 128;
    if c == 0 {
      NumberOfNone();
      assert d[p + 2..p + 2] == [];
    } else if c == 1 {
      assert d[p + 2..p + 3] == [TAG_OID];
      NumberOfOne(TAG_OID);
    } else if c == 2 {
      FirstByte(d, p + 4, oid);
    } else if c == 3 || c == 4 {
      LengthFromTag(d, p + 2, c);
    }
  }

  /** The first byte of the contents is 6 only if the first number is. */
  lemma FirstByte(d: seq<byte>, p: nat, oid: seq<int>)
    requires Writable(oid) && Holds(d, p, Contents(oid)) && oid[0] * 40 + oid[1] != TAG_OID as int
    ensures p < |d| && d[p] != TAG_OID
  {
    var u := Unsigned(oid[0] * 40 + oid[1]);
    var item := Item(u);
    assert d[p] == d[p..p + |Contents(oid)|][0] == item[0];
    if u >= 128 {
      AllContinued(u / 128);
      assert item[0] == Continued(u / 128)[0];
      assert Continued(u / 128)[0] in Continued(u / 128);
    }
  }

  // ----- All variables

  predicate AllShort(oids: seq<seq<int>>) { forall k :: 0 <= k < |oids| ==> Short(oids[k]) }

  predicate AllPlain(oids: seq<seq<int>>) { forall k :: 0 <= k < |oids| ==> Plain(oids[k]) }

  /** What onGetValue is called with: everything up to the first variable whose reading is undefined. */
  function HeardAll(oids: seq<seq<int>>, got: seq<seq<int>>): (Status, seq<seq<int>>)
    requires AllWritable(oids)
  {
    if oids == [] then (Accepted, got)
    else
      var n := |oids| - 1;
      var (s, heard) := HeardAll(oids[..n], got);
      if s != Accepted then (s, heard)
      else match Heard(oids[n])
        case Some(oid) => (Accepted, heard + [oid])
        case None => (Broken, heard)
  }

  lemma {:induction false} HeardAllExactly(oids: seq<seq<int>>, got: seq<seq<int>>)
    requires AllWritable(oids)
    ensures HeardAll(oids, got).0 == Accepted ==> |HeardAll(oids, got).1| == |got| + |oids|
    ensures HeardAll(oids, got) == (Accepted, got + oids) <==> AllPlain(oids)
  {
    if oids == [] {
      Empty(got);
    } else {
      var n := |oids| - 1;
      var (s, heard) := HeardAll(oids[..n], got);
      HeardAllExactly(oids[..n], got);
      HeardExactly(oids[n]);
      assert AllPlain(oids) <==> AllPlain(oids[..n]) && Plain(oids[n]);
      assert got + oids == (got + oids[..n]) + [oids[n]];
      if s == Accepted && Heard(oids[n]).Some? {
        var last := Heard(oids[n]).value;
        Snoc(heard, last);
        Snoc(got + oids[..n], oids[n]);
      }
    }
  }

  lemma OneMoreIsRead(d: seq<byte>, p: nat, end: nat, oid: seq<int>, got: seq<seq<int>>)
    requires Writable(oid) && Short(oid) && p + |Binding(oid)| <= end <= |d| && Holds(d, p, Binding(oid))
    ensures GetValues(d, p, end, got) ==
            if Heard(oid).Some? then GetValues(d, p + |Binding(oid)|, end, got + [Heard(oid).value]) else (Broken, got)
  {
    hide GetValue, Heard, Holds, Writable, Binding, Contents;
    BindingNotEmpty(oid);
    BindingIsRead(d, p, end, oid);
  }

  /** Reading the variables one after the other, up to any of them. */
  lemma {:induction false} BindingsAreRead(d: seq<byte>, p: nat, end: nat, oids: seq<seq<int>>, got: seq<seq<int>>)
    requires AllWritable(oids) && AllShort(oids)
    requires p + |Bindings(oids)| <= end <= |d| && Holds(d, p, Bindings(oids))
    ensures var (s, heard) := HeardAll(oids, got);
            GetValues(d, p, end, got) ==
            if s == Accepted then GetValues(d, p + |Bindings(oids)|, end, heard) else (s, heard)
    decreases |oids|
  {
    hide Heard, GetValues, Binding, Holds;
    if oids != [] {
      var n := |oids| - 1;
      HoldsSplit(d, p, Bindings(oids[..n]), Binding(oids[n]));
      BindingsAreRead(d, p, end, oids[..n], got);
      OneMoreIsRead(d, p + |Bindings(oids[..n])|, end, oids[n], HeardAll(oids[..n], got).1);
    }
  }

  // ----- The packet

  lemma LongHeaderIsRead(d: seq<byte>, p: nat, limit: nat, tag: byte, n: nat)
    requires n < 0x1_0000 && p + 4 + n <= limit <= |d| && Holds(d, p, LongHeader(tag, Size(n)))
    ensures ReadHeader(d, p, limit) == Some(Header(tag, p + 4, p + 4 + n))
  {
    var h := d[p..p + 4];
    assert h[0] == tag && h[1] == 0x82 && h[2] == Size(n).high && h[3] == Size(n).low;
    var two := d[p + 2..p + 4];
    assert two[..1][..0] == [];
    assert Number(two[..1]) == Size(n).high as nat;
    assert Number(two) == n;
  }

  lemma SmallIntIsRead(d: seq<byte>, p: nat, limit: nat, n: byte)
    requires n < 128 && p + 3 <= limit <= |d| && Holds(d, p, [TAG_INTEGER, 1, n])
    ensures ReadInt(d, p, limit) == Got(n as int, p + 3)
  {
    HoldsSplit(d, p, [TAG_INTEGER, 1], [n]);
    ShortHeaderIsRead(d, p, limit, TAG_INTEGER, 1);
    assert [n][..0] == [];
    assert Number([n]) == n as nat;
  }

  /** The id as the int it is stored in: modulo 2^32. */
  function AsInt(id: nat): int
    requires id < 0x1_0000_0000
  {
    if id < INT_BOUND then id else id - 0x1_0000_0000
  }

  lemma NumberOfThree(a: byte, b: byte, c: byte)
    ensures Number([a, b, c]) == (a as nat * 256 + b as nat) * 256 + c as nat
  {
    NumberSnoc([], a);
    NumberSnoc([a], b);
    NumberSnoc([a, b], c);
    assert [] + [a] == [a] && [a] + [b] == [a, b] && [a, b] + [c] == [a, b, c];
  }

  lemma NumberOfFour(a: byte, b: byte, c: byte, d: byte)
    ensures Number([a, b, c, d]) == ((a as nat * 256 + b as nat) * 256 + c as nat) * 256 + d as nat
  {
    NumberSnoc([], a);
    NumberSnoc([a], b);
    NumberSnoc([a, b], c);
    NumberSnoc([a, b, c], d);
    assert [] + [a] == [a] && [a] + [b] == [a, b] && [a, b] + [c] == [a, b, c] && [a, b, c] + [d] == [a, b, c, d];
  }

  lemma IdIsSigned(id: nat)
    requires id < 0x1_0000_0000
    ensures Signed(IdBytes(id)) == AsInt(id)
  {
    var b := IdBytes(id);
    NumberOfFour(b[0], b[1], b[2], b[3]);
    assert b == [b[0], b[1], b[2], b[3]];
    NumberOfFour(1, 0, 0, 0);
    NumberSnoc([1, 0, 0, 0], 0);
    assert [1] + Zeros(4) == [1, 0, 0, 0] + [0];
    IdSplit(id);
  }

  lemma IdSplit(id: nat)
    requires id < 0x1_0000_0000
    ensures ((id / 0x100_0000 % 256 * 256 + id / 0x1_0000 % 256) * 256 + id / 0x100 % 256) * 256 + id % 256 == id
    ensures id < INT_BOUND <==> id / 0x100_0000 % 256 < 128
  {
    assert id / 0x100_0000 == id / 0x1_0000 / 256 && id / 0x1_0000 == id / 0x100 / 256;
  }

  lemma IdIsRead(d: seq<byte>, p: nat, limit: nat, id: nat)
    requires id < 0x1_0000_0000 && p + 6 <= limit <= |d| && Holds(d, p, [TAG_INTEGER, 4] + IdBytes(id))
    ensures ReadInt(d, p, limit) == Got(AsInt(id), p + 6)
  {
    hide IdBytes, Signed, AsInt;
    HoldsSplit(d, p, [TAG_INTEGER, 4], IdBytes(id));
    ShortHeaderIsRead(d, p, limit, TAG_INTEGER, 4);
    IdIsSigned(id);
  }

  lemma {:induction false} TextIsKept(s: seq<byte>)
    requires 0 !in s
    ensures CString(s) == s
  {
    if s != [] {
      TextIsKept(s[1..]);
    }
  }

  lemma CommunityIsRead(d: seq<byte>, p: nat, limit: nat, name: seq<byte>)
    requires |name| < 128 && p + 2 + |name| <= limit <= |d| && Holds(d, p, [TAG_STRING, |name| as byte] + name)
    ensures ReadString(d, p, limit) == Got(name, p + 2 + |name|)
  {
    HoldsSplit(d, p, [TAG_STRING, |name| as byte], name);
    ShortHeaderIsRead(d, p, limit, TAG_STRING, |name| as byte);
  }

  /** A request whose outer lengths fit two bytes. */
  predicate Request(d: Draft, id: nat) {
    && Proper(d) && 0 !in d.community && d.command == 0xA0
    && id < 0x1_0000_0000 && d.id == IdBytes(id)
    && |Packet(d)| < 0x1_0000 + 4
  }

  lemma ListIsRead(d: Draft, id: nat, p: nat, packet: seq<byte>, got: seq<seq<int>>)
    requires Request(d, id)
    requires p + 4 + |Bindings(d.oids)| == |packet|
    requires Holds(packet, p, LongHeader(0x30, Size(|packet| - p - 4)) + Bindings(d.oids))
    requires |packet| - p - 4 < 0x1_0000
    ensures GetBindings(packet, p, |packet|, got) == GetValues(packet, p + 4, |packet|, got)
    ensures Holds(packet, p + 4, Bindings(d.oids))
  {
    hide Bindings, GetValue;
    var header := LongHeader(0x30, Size(|packet| - p - 4));
    HoldsSplit(packet, p, header, Bindings(d.oids));
    LongHeaderIsRead(packet, p, |packet|, 0x30, |packet| - p - 4);
  }

  lemma RequestIsRead(f: Fields, d: Draft, id: nat, p: nat, packet: seq<byte>)
    requires Request(d, id)
    requires p + 16 <= |packet| < 0x1_0000 + 4 && p + 16 + |Bindings(d.oids)| == |packet|
    requires Holds(packet, p, Numbers(d) + (LongHeader(0x30, Size(|packet| - p - 16)) + Bindings(d.oids)))
    ensures var (s, got) := GetValues(packet, p + 16, |packet|, f.got);
            GetRequest(f, packet, p, |packet|) ==
            (s, f.(requestId := AsInt(id), errorStatus := 0, errorIndex := 0, got := got))
    ensures Holds(packet, p + 16, Bindings(d.oids))
  {
    hide Bindings, GetValues, ReadInt, IdBytes, Size, LongHeader;
    var rest := LongHeader(0x30, Size(|packet| - p - 16)) + Bindings(d.oids);
    HoldsSplit(packet, p, Numbers(d), rest);
    HoldsSplit(packet, p, [TAG_INTEGER, 4] + d.id, [TAG_INTEGER, 1, 0, TAG_INTEGER, 1, 0]);
    assert [TAG_INTEGER, 1, 0, TAG_INTEGER, 1, 0] == [TAG_INTEGER, 1, 0] + [TAG_INTEGER, 1, 0];
    HoldsSplit(packet, p + 6, [TAG_INTEGER, 1, 0], [TAG_INTEGER, 1, 0]);
    IdIsRead(packet, p, |packet|, id);
    SmallIntIsRead(packet, p + 6, |packet|, 0);
    SmallIntIsRead(packet, p + 9, |packet|, 0);
    ListIsRead(d, id, p + 12, packet, f.got);
  }

  lemma CommittedLength(d: Draft)
    requires Proper(d)
    ensures Proper(Committed(d)) && |Packet(Committed(d))| == |Packet(d)| == ListAt(d) + 4 + |Bindings(d.oids)|
  {
    PacketLength(d);
    PacketLength(Committed(d));
  }

  /** Where the parts of a packet lie. */
  lemma Parts(c: Draft)
    requires Proper(c)
    ensures var s := Packet(c);
            && Holds(s, 0, LongHeader(0x30, c.size))
            && Holds(s, 4, [TAG_INTEGER, 1, 1])
            && Holds(s, 7, [TAG_STRING, |c.community| as byte] + c.community)
            && Holds(s, CommandAt(c), LongHeader(c.command, c.commandSize))
            && Holds(s, CommandAt(c) + 4, Numbers(c) + (LongHeader(0x30, c.listSize) + Bindings(c.oids)))
  {
    hide Bindings, Numbers;
    var s := Packet(c);
    var after := Numbers(c) + (LongHeader(0x30, c.listSize) + Bindings(c.oids));
    assert Holds(s, 0, s) by {
      assert s[0..|s|] == s;
    }
    HoldsSplit(s, 0, LongHeader(0x30, c.size), Intro(c) + (LongHeader(c.command, c.commandSize) + after));
    HoldsSplit(s, 4, Intro(c), LongHeader(c.command, c.commandSize) + after);
    HoldsSplit(s, CommandAt(c), LongHeader(c.command, c.commandSize), after);
    assert Intro(c) == [TAG_INTEGER, 1, 1] + ([TAG_STRING, |c.community| as byte] + c.community);
    HoldsSplit(s, 4, [TAG_INTEGER, 1, 1], [TAG_STRING, |c.community| as byte] + c.community);
  }

  /** Up to the variables, a committed packet is read as what went into it. */
  lemma FrontIsRead(f: Fields, d: Draft, id: nat)
    requires Request(d, id)
    ensures var packet := Packet(Committed(d));
            && ListAt(d) + 4 + |Bindings(d.oids)| == |packet| < 0x1_0000 + 4
              && Holds(packet, ListAt(d) + 4, Bindings(d.oids))
            && var (s, got) := GetValues(packet, ListAt(d) + 4, |packet|, f.got);
               Parse(f, packet) == (s, Fields(1, d.community, AsInt(id), 0, 0, got))
  {
    hide Bindings, GetValues, ReadInt, ReadString, ReadHeader, GetRequest, LongHeader, Numbers, Size, CString;
    hide IdBytes, AsInt, Packet, Holds;
    var c := Committed(d);
    var packet := Packet(c);
    CommittedLength(d);
    Parts(c);
    assert Numbers(c) == Numbers(d) by {
      SameNumbers(c, d);
    }
    LongHeaderIsRead(packet, 0, |packet|, 0x30, |packet| - 4);
    SmallIntIsRead(packet, 4, |packet|, 1);
    CommunityIsRead(packet, 7, |packet|, d.community);
    TextIsKept(d.community);
    LongHeaderIsRead(packet, CommandAt(d), |packet|, 0xA0, |packet| - CommandAt(d) - 4);
    RequestIsRead(f.(version := 1, community := d.community), d, id, CommandAt(d) + 4, packet);
  }

  /** A committed packet is read as what went into it: version, community, the request id modulo 2^32 and
      the variables in order, each as its numbers allow. */
  lemma PacketIsRead(f: Fields, d: Draft, id: nat)
    requires Request(d, id) && AllShort(d.oids)
    ensures var (s, got) := HeardAll(d.oids, f.got);
            Parse(f, Packet(Committed(d))) == (s, Fields(1, d.community, AsInt(id), 0, 0, got))
  {
    hide Packet, Parse, Bindings, Holds, HeardAll;
    var packet := Packet(Committed(d));
    FrontIsRead(f, d, id);
    BindingsAreRead(packet, ListAt(d) + 4, |packet|, d.oids, f.got);
  }

  lemma SameNumbers(c: Draft, d: Draft)
    requires c.id == d.id
    ensures Numbers(c) == Numbers(d)
  {
  }

  // ----- A variable that is too long

  lemma {:induction false} ValuesGrow(d: seq<byte>, p: nat, end: nat, got: seq<seq<int>>)
    requires end <= |d|
    ensures got <= GetValues(d, p, end, got).1
    decreases end - p
  {
    hide GetValue;
    if p < end {
      var r := GetValue(d, p, end);
      if r.Got? {
        ValuesGrow(d, r.pos, end, got + [r.value]);
      }
    }
  }

  /** The first variable that is too long. */
  lemma {:induction false} FirstLong(oids: seq<seq<int>>) returns (k: nat)
    requires !AllShort(oids)
    ensures k < |oids| && !Short(oids[k]) && AllShort(oids[..k])
  {
    var n := |oids| - 1;
    if AllShort(oids[..n]) {
      k := n;
    } else {
      k := FirstLong(oids[..n]);
      assert oids[..n][..k] == oids[..k];
    }
  }

  lemma BindingsSplit(oids: seq<seq<int>>, k: nat)
    requires AllWritable(oids) && k < |oids|
    ensures AllWritable(oids[..k]) && Bindings(oids[..k]) + Binding(oids[k]) <= Bindings(oids)
  {
    hide Bindings, Binding, Writable, AllWritable;
    BindingsPrefix(oids, k);
    BindingsPrefix(oids, k + 1);
    assert oids[..k + 1] == oids[..k] + [oids[k]];
    BindingsSnoc(oids[..k], oids[k]);
  }

  lemma BindingsSnoc(oids: seq<seq<int>>, oid: seq<int>)
    requires AllWritable(oids + [oid]) && AllWritable(oids)
    ensures |oid| >= 2 && Bindings(oids + [oid]) == Bindings(oids) + Binding(oid)
  {
    Snoc(oids, oid);
    assert Writable((oids + [oid])[|oids|]);
  }

  lemma {:induction false} BindingsPrefix(oids: seq<seq<int>>, k: nat)
    requires AllWritable(oids) && k <= |oids|
    ensures AllWritable(oids[..k]) && Bindings(oids[..k]) <= Bindings(oids)
    decreases |oids|
  {
    hide Binding, Writable;
    if k == |oids| {
      assert oids[..k] == oids;
    } else {
      var n := |oids| - 1;
      BindingsPrefix(oids[..n], k);
      assert oids[..n][..k] == oids[..k];
    }
  }

  lemma HoldsPrefix(d: seq<byte>, p: nat, a: seq<byte>, chunk: seq<byte>)
    requires Holds(d, p, chunk) && a <= chunk
    ensures Holds(d, p, a)
  {
    assert chunk == a + chunk[|a|..];
    HoldsSplit(d, p, a, chunk[|a|..]);
  }

  /** Whatever comes after it, a variable that is too long is not among what is read. */
  lemma LongIsNotHeard(d: seq<byte>, p: nat, end: nat, oids: seq<seq<int>>, got: seq<seq<int>>, k: nat)
    requires AllWritable(oids) && p + |Bindings(oids)| <= end <= |d| && end < 0x1_0100 && Holds(d, p, Bindings(oids))
    requires k < |oids| && !Short(oids[k]) && !Ambiguous(oids[k]) && AllShort(oids[..k])
    ensures GetValues(d, p, end, got) != (Accepted, got + oids)
  {
    hide Bindings, Binding, GetValue, HeardAll, Ambiguous, Short, Holds;
    var before := oids[..k];
    var q := p + |Bindings(before)|;
    BindingsSplit(oids, k);
    HoldsPrefix(d, p, Bindings(before) + Binding(oids[k]), Bindings(oids));
    HoldsSplit(d, p, Bindings(before), Binding(oids[k]));
    BindingsAreRead(d, p, end, before, got);
    HeardAllExactly(before, got);
    var (s, heard) := HeardAll(before, got);
    if s == Accepted {
      LongBindingIsNotRead(d, q, end, oids[k]);
      BindingNotEmpty(oids[k]);
      var r := GetValue(d, q, end);
      if r.Got? {
        ValuesGrow(d, r.pos, end, heard + [r.value]);
        assert (heard + [r.value])[|got| + k] == r.value && (got + oids)[|got| + k] == oids[k];
      }
    }
  }

  lemma BindingNotEmpty(oid: seq<int>)
    requires |oid| >= 2
    ensures Binding(oid) != []
  {
  }

  /** Build then parse is the identity, exactly for lists of OIDs whose lengths fit one byte, without negative
      numbers and with second arcs below 40. */
  lemma RoundTrip(f: Fields, d: Draft, id: nat)
    requires Request(d, id) && forall oid <- d.oids :: !Ambiguous(oid)
    ensures Parse(f, Packet(Committed(d))) == (Accepted, Fields(1, d.community, AsInt(id), 0, 0, f.got + d.oids)) <==>
            AllShort(d.oids) && AllPlain(d.oids)
  {
    hide Parse, Packet, HeardAll, Bindings, Holds, GetValues, Ambiguous;
    if AllShort(d.oids) {
      PacketIsRead(f, d, id);
      HeardAllExactly(d.oids, f.got);
    } else {
      var k := FirstLong(d.oids);
      FrontIsRead(f, d, id);
      var packet := Packet(Committed(d));
      LongIsNotHeard(packet, ListAt(d) + 4, |packet|, d.oids, f.got, k);
    }
  }

  lemma NextFits(oids: seq<seq<int>>, i: nat)
    requires AllWritable(oids) && i < |oids|
    ensures oids[..i + 1] == oids[..i] + [oids[i]]
    ensures |Bindings(oids[..i])| + |Binding(oids[i])| <= |Bindings(oids)|
  {
    hide Binding, Writable;
    BindingsPrefix(oids, i + 1);
    assert oids[..i + 1][..i] == oids[..i];
  }

  /** A whole packet, from reset to commit. */
  method Build(builder: SnmpBuilder, name: seq<byte>, id: nat, oids: seq<seq<int>>) returns (ghost d: Draft)
    requires |name| < 128 && 0 !in name && id < 0x1_0000_0000 && AllWritable(oids)
    requires |name| + 29 + |Bindings(oids)| <= builder.buffer.Length
    modifies builder, builder.buffer
    ensures builder.offset <= builder.buffer.Length
    ensures Written(d, name, id, oids) && builder.buffer[..builder.offset] == Packet(Committed(d))
  {
    var ok := builder.Reset(name);
    builder.SetCommand(0xA0);
    builder.SetRequestId(id);
    var i := 0;
    while i < |oids|
      invariant i <= |oids| && builder.Valid() && Written(builder.draft, name, id, oids[..i])
    {
      NextFits(oids, i);
      PacketLength(builder.draft);
      ok := builder.AddNull(oids[i]);
      i := i + 1;
    }
    assert oids[..i] == oids;
    d := builder.draft;
    builder.Commit();
  }

  ghost predicate Written(d: Draft, name: seq<byte>, id: nat, oids: seq<seq<int>>) {
    Proper(d) && d.community == name && d.command == 0xA0 && d.id == IdBytes(id) && d.oids == oids
  }

  /** The objects together: whatever a builder wrote, a parser hears again. */
  method Exchange(builder: SnmpBuilder, parser: SnmpParser, name: seq<byte>, id: nat, oids: seq<seq<int>>)
    returns (s: Status)
    requires |name| < 128 && 0 !in name && id < 0x1_0000_0000
    requires AllWritable(oids) && forall oid <- oids :: !Ambiguous(oid)
    requires |name| + 29 + |Bindings(oids)| <= builder.buffer.Length && |name| + 25 + |Bindings(oids)| < 0x1_0000
    requires parser.community.Length == STRING_MAX + 1 && parser.community != builder.buffer
    modifies builder, builder.buffer, parser, parser.community
    ensures s == Accepted && parser.View() == Fields(1, name, AsInt(id), 0, 0, old(parser.got) + oids) <==>
              AllShort(oids) && AllPlain(oids)
  {
    hide Packet, Parse, Bindings, Writable, Short, Plain, AsInt, IdBytes, CString, Committed;
    ghost var d := Build(builder, name, id, oids);
    ghost var f := parser.View();
    s := parser.ParsePacket(builder.buffer[..builder.offset]);
    PacketLength(d);
    RoundTrip(f, d, id);
  }
}
