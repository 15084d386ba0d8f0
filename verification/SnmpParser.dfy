/** The readers and the parser with their loops and fields (src/asn1reader.cpp, src/snmpparser.cpp), each
    proved against the functions of Asn1 and SnmpRequests. */
module SnmpParsers {
  import opened Bytes
  import opened Wrappers
  import opened Asn1
  import opened SnmpRequests

  lemma NumberSnoc(bs: seq<byte>, b: byte)
    ensures Number(bs + [b]) == Number(bs) * 256 + b as nat
  {
    assert (bs + [b])[..|bs|] == bs;
  }

  method ScanHeader(d: seq<byte>, p: nat, limit: nat) returns (h: Option<Header>)
    requires limit <= |d|
    ensures h == ReadHeader(d, p, limit)
  {
    if p + 1 >= limit {
      return None;
    }
    var start, length := p + 2, d[p + 1] as nat;
    if d[p + 1] >= 0x80 {
      var c := d[p + 1] as nat - 0x80;
      if c > 4 {
        return None;
      }
      start := p + 2 + c;
      if start > limit {
        return None;
      }
      length := 0;
      var i := 0;
      while i < c
        invariant i <= c && length == Number(d[p + 2..p + 2 + i])
      {
        NumberSnoc(d[p + 2..p + 2 + i], d[p + 2 + i]);
        assert d[p + 2..p + 2 + i + 1] == d[p + 2..p + 2 + i] + [d[p + 2 + i]];
        length := length * 256 + d[p + i + 2] as nat;
        i := i + 1;
      }
    }
    if start + length > limit {
      return None;
    }
    return Some(Header(d[p], start, start + length));
  }

  /** Bytes of memory read as a signed integer, least significant first. */
  function SignedWord(bs: seq<byte>): int
    requires |bs| in {1, 2, 4}
  {
    var n := Word(bs);
    var size := if |bs| == 1 then 0x100 else if |bs| == 2 then 0x1_0000 else 0x1_0000_0000;
    if bs[|bs| - 1] < 128 then n else n - size
  }

  function Word(bs: seq<byte>): nat {
    if bs == [] then 0 else bs[0] as nat + 256 * Word(bs[1..])
  }

  function Backwards(bs: seq<byte>): seq<byte> {
    if bs == [] then [] else Backwards(bs[1..]) + [bs[0]]
  }

  lemma {:induction false} BackwardsLength(bs: seq<byte>)
    ensures |Backwards(bs)| == |bs|
  {
    if bs != [] {
      BackwardsLength(bs[1..]);
    }
  }

  lemma {:induction false} WordBackwards(bs: seq<byte>)
    ensures Word(Backwards(bs)) == Number(bs)
  {
    if bs != [] {
      var n := |bs| - 1;
      BackwardsSnoc(bs[..n], bs[n]);
      assert bs == bs[..n] + [bs[n]];
      WordBackwards(bs[..n]);
    }
  }

  lemma {:induction false} BackwardsSnoc(bs: seq<byte>, b: byte)
    ensures Backwards(bs + [b]) == [b] + Backwards(bs)
  {
    if bs == [] {
      assert Backwards([b]) == Backwards([b][1..]) + [b];
    } else {
      BackwardsSnoc(bs[1..], b);
      assert (bs + [b])[1..] == bs[1..] + [b];
    }
  }

  lemma SignedBackwards(bs: seq<byte>)
    requires |bs| in {1, 2, 4}
    ensures |Backwards(bs)| == |bs| && SignedWord(Backwards(bs)) == Signed(bs)
  {
    BackwardsLength(bs);
    WordBackwards(bs);
    var one := [1] + Zeros(|bs|);
    assert one[..1] == [1] && one[..1][..0] == [];
    assert Number(one[..1]) == 1;
    assert one[..2][..1] == one[..1];
    assert Number(one[..2]) == 0x100;
    if |bs| > 1 {
      assert one[..3][..2] == one[..2];
      assert Number(one[..3]) == 0x1_0000;
    }
    if |bs| == 4 {
      assert one[..4][..3] == one[..3];
      assert one[..5][..4] == one[..4];
      assert Number(one[..5]) == 0x1_0000_0000;
    }
    assert one[..|bs| + 1] == one;
  }

  lemma {:induction false} IsBackwards(s: seq<byte>, bs: seq<byte>)
    requires |s| == |bs| && forall k :: 0 <= k < |s| ==> s[k] == bs[|bs| - 1 - k]
    ensures s == Backwards(bs)
  {
    if bs != [] {
      var n := |bs| - 1;
      IsBackwards(s[..n], bs[1..]);
      assert s == s[..n] + [s[n]];
    }
  }

  /** while ( p < end ) value[i--] = *p++; the end is where i stops. */
  method FillFromEnd(value: array<byte>, contents: seq<byte>) returns (i: int)
    requires value.Length == 4 && |contents| <= 4
    modifies value
    ensures i == 3 - |contents|
    ensures forall k :: i < k <= 3 ==> value[k] == contents[3 - k]
  {
    i := 3;
    while i > 3 - |contents|
      invariant 3 - |contents| <= i <= 3
      invariant forall k :: i < k <= 3 ==> value[k] == contents[3 - k]
    {
      value[i] := contents[3 - i];
      i := i - 1;
    }
  }

  /** readInt: the bytes go into an array from its end and are then read in place as a char, a short or an
      int, which is right because the machine is little-endian. */
  method ScanInt(d: seq<byte>, p: nat, limit: nat) returns (r: Reading<int>)
    requires limit <= |d|
    ensures r == ReadInt(d, p, limit)
  {
    var h := ScanHeader(d, p, limit);
    if h.None? || h.value.tag != TAG_INTEGER {
      return Refused;
    }
    var contents := d[h.value.start..h.value.end];
    if |contents| > 4 {
      return Undefined;
    }
    var value := new byte[4](_ => 0);
    var i := FillFromEnd(value, contents);
    if i == 0 {
      return Undefined;
    }
    if i == 3 {
      return Got(0, h.value.end);
    }
    IsBackwards(value[i + 1..], contents);
    SignedBackwards(contents);
    return Got(SignedWord(value[i + 1..]), h.value.end);
  }

  /** readString: result has room for 255 characters and the terminator. */
  method ScanString(result: array<byte>, d: seq<byte>, p: nat, limit: nat) returns (r: Reading<nat>)
    requires limit <= |d| && result.Length == STRING_MAX + 1
    modifies result
    ensures match ReadString(d, p, limit)
            case Got(s, pos) => r == Got(|s|, pos) && result[..|s|] == s && result[|s|] == 0
            case Refused => r.Refused? && result[..] == old(result[..])
            case Undefined => false
  {
    var h := ScanHeader(d, p, limit);
    if h.None? || h.value.tag != TAG_STRING || h.value.end - h.value.start > STRING_MAX {
      return Refused;
    }
    var q := h.value.start;
    var n := 0;
    while q < h.value.end
      invariant h.value.start <= q <= h.value.end && n == q - h.value.start
      invariant result[..n] == d[h.value.start..q]
    {
      result[n] := d[q];
      n, q := n + 1, q + 1;
    }
    result[n] := 0;
    return Got(n, h.value.end);
  }

  method ScanNull(d: seq<byte>, p: nat, limit: nat) returns (r: Reading<()>)
    requires limit <= |d|
    ensures r == ReadNull(d, p, limit)
  {
    var h := ScanHeader(d, p, limit);
    if h.None? || h.value.tag != TAG_NULL {
      return Refused;
    }
    return Got((), h.value.end);
  }

  method ScanItem(d: seq<byte>, p: nat, limit: nat) returns (r: Reading<nat>)
    requires p <= limit <= |d|
    ensures r == ReadItem(d, p, limit, 0)
  {
    var item, q := 0, p;
    while q < limit
      invariant p <= q <= limit && 0 <= item < INT_BOUND
      invariant ReadItem(d, q, limit, item) == ReadItem(d, p, limit, 0)
    {
      var c := d[q];
      var next := item * 128 + c as nat % 128;
      if next >= INT_BOUND {
        return Undefined;
      }
      item, q := next, q + 1;
      if c < 0x80 {
        return Got(item, q);
      }
    }
    return Got(item, q);
  }

  method ScanOid(d: seq<byte>, p: nat, limit: nat) returns (r: Reading<seq<int>>)
    requires limit <= |d|
    ensures r == ReadOid(d, p, limit)
  {
    var h := ScanHeader(d, p, limit);
    if h.None? || h.value.tag != TAG_OID {
      return Refused;
    }
    var end := h.value.end;
    var first := ScanItem(d, h.value.start, end);
    if !first.Got? {
      return Undefined;
    }
    var q := first.pos;
    var result := [first.value / 40, first.value % 40];
    while q < end
      invariant q <= limit
      invariant ReadItems(d, q, end, limit, result) == ReadOid(d, p, limit)
      decreases limit - q
    {
      var item := ScanItem(d, q, limit);
      if !item.Got? || |result| >= OID_MAX {
        return Undefined;
      }
      result := result + [item.value];
      q := item.pos;
    }
    return Got(result, end);
  }

  class SnmpParser {
    var version: int
    const community: array<byte>
    var requestId: int
    var errorStatus: int
    var errorIndex: int
    var got: seq<seq<int>>      // the calls of onGetValue

    constructor ()
      ensures community.Length == STRING_MAX + 1 && fresh(community) && got == []
    {
      community := new byte[STRING_MAX + 1];
      got := [];
    }

    ghost function View(): Fields
      reads this, community
    {
      Fields(version, CString(community[..]), requestId, errorStatus, errorIndex, got)
    }

    method ParseGetValue(d: seq<byte>, p: nat, limit: nat) returns (r: Reading<()>)
      requires limit <= |d|
      modifies `got
      ensures match GetValue(d, p, limit)
              case Got(oid, q) => r == Got((), q) && got == old(got) + [oid]
              case Refused => r == Refused && got == old(got)
              case Undefined => r == Undefined && got == old(got)
    {
      var h := ScanHeader(d, p, limit);
      if h.None? {
        return Refused;
      }
      var oid := ScanOid(d, h.value.start, h.value.end);
      if !oid.Got? {
        return if oid.Refused? then Refused else Undefined;
      }
      var nothing := ScanNull(d, oid.pos, h.value.end);
      if !nothing.Got? {
        return Refused;
      }
      got := got + [oid.value];
      return Got((), h.value.end);
    }

    method ParseGetBindings(d: seq<byte>, p: nat, limit: nat) returns (s: Status)
      requires limit <= |d|
      modifies `got
      ensures (s, got) == GetBindings(d, p, limit, old(got))
    {
      var h := ScanHeader(d, p, limit);
      if h.None? {
        return Rejected;
      }
      var q, end := h.value.start, h.value.end;
      while q < end
        invariant q <= end
        invariant GetValues(d, q, end, got) == GetBindings(d, p, limit, old(got))
        decreases end - q
      {
        var r := ParseGetValue(d, q, end);
        if !r.Got? {
          return Fault(r);
        }
        q := r.pos;
      }
      return Accepted;
    }

    method ParseGetRequest(d: seq<byte>, p: nat, limit: nat) returns (s: Status)
      requires limit <= |d|
      modifies `requestId, `errorStatus, `errorIndex, `got
      ensures (s, View()) == GetRequest(old(View()), d, p, limit)
    {
      var id := ScanInt(d, p, limit);
      if !id.Got? {
        return Fault(id);
      }
      requestId := id.value;
      var status := ScanInt(d, id.pos, limit);
      if !status.Got? {
        return Fault(status);
      }
      errorStatus := status.value;
      var index := ScanInt(d, status.pos, limit);
      if !index.Got? {
        return Fault(index);
      }
      errorIndex := index.value;
      s := ParseGetBindings(d, index.pos, limit);
    }

    method ParsePacket(d: seq<byte>) returns (s: Status)
      requires community.Length == STRING_MAX + 1
      modifies this, community
      ensures (s, View()) == Parse(old(View()), d)
    {
      var h := ScanHeader(d, 0, |d|);
      if h.None? {
        return Rejected;
      }
      var v := ScanInt(d, h.value.start, |d|);
      if !v.Got? {
        return Fault(v);
      }
      version := v.value;
      if version != 1 {
        return Rejected;
      }
      var name := ScanString(community, d, v.pos, |d|);
      if !name.Got? {
        return Fault(name);
      }
      TextUpToTerminator(community[..], name.value);
      h := ScanHeader(d, name.pos, |d|);
      if h.None? {
        return Rejected;
      }
      match h.value.tag
      case 0xA0 => s := ParseGetRequest(d, h.value.start, |d|);
      case 0xA2 => s := Elsewhere(0xA2);
      case 0xA7 => s := Elsewhere(0xA7);
      case _ => s := Rejected;
    }
  }

  lemma {:induction false} TextUpToTerminator(bs: seq<byte>, n: nat)
    requires n < |bs| && bs[n] == 0
    ensures CString(bs) == CString(bs[..n])
  {
    if n > 0 && bs[0] != 0 {
      TextUpToTerminator(bs[1..], n - 1);
      assert bs[1..][..n - 1] == bs[..n][1..];
    }
  }
}
