/** SNMPBuilder: the buffer, its moving offset and the lengths written back at the end. */
module SnmpBuilders {
  import opened Bytes
  import opened Asn1
  import opened SnmpPackets
  import opened Seqs

  // ----- Changing a few bytes of a packet

  lemma AtCommand(d: Draft)
    requires Proper(d)
    ensures Packet(d) ==
            (LongHeader(0x30, d.size) + Intro(d)) +
            (LongHeader(d.command, d.commandSize) + (Numbers(d) + (LongHeader(0x30, d.listSize) + Bindings(d.oids))))
  {
    Assoc(LongHeader(0x30, d.size), Intro(d),
          LongHeader(d.command, d.commandSize) + (Numbers(d) + (LongHeader(0x30, d.listSize) + Bindings(d.oids))));
  }

  lemma AtNumbers(d: Draft)
    requires Proper(d)
    ensures Packet(d) ==
            ((LongHeader(0x30, d.size) + Intro(d)) + LongHeader(d.command, d.commandSize)) +
            (Numbers(d) + (LongHeader(0x30, d.listSize) + Bindings(d.oids)))
  {
    AtCommand(d);
    Assoc(LongHeader(0x30, d.size) + Intro(d), LongHeader(d.command, d.commandSize),
          Numbers(d) + (LongHeader(0x30, d.listSize) + Bindings(d.oids)));
  }

  lemma AtList(d: Draft)
    requires Proper(d)
    ensures Packet(d) ==
            (((LongHeader(0x30, d.size) + Intro(d)) + LongHeader(d.command, d.commandSize)) + Numbers(d)) +
            (LongHeader(0x30, d.listSize) + Bindings(d.oids))
  {
    AtNumbers(d);
    Assoc((LongHeader(0x30, d.size) + Intro(d)) + LongHeader(d.command, d.commandSize), Numbers(d),
          LongHeader(0x30, d.listSize) + Bindings(d.oids));
  }

  /** s with b written over it from position k on. */
  function Over(s: seq<byte>, k: nat, b: seq<byte>): seq<byte>
    requires k + |b| <= |s|
  {
    s[..k] + b + s[k + |b|..]
  }

  lemma OverMiddle(front: seq<byte>, old_: seq<byte>, back: seq<byte>, b: seq<byte>, k: nat)
    requires k + |b| <= |old_|
    ensures Over(front + (old_ + back), |front| + k, b) == front + (Over(old_, k, b) + back)
  {
  }

  lemma OverFront(old_: seq<byte>, back: seq<byte>, b: seq<byte>, k: nat)
    requires k + |b| <= |old_|
    ensures Over(old_ + back, k, b) == Over(old_, k, b) + back
  {
  }

  lemma SetSize(d: Draft, p: Pair)
    requires Proper(d)
    ensures Over(Packet(d), 2, [p.high, p.low]) == Packet(d.(size := p))
  {
    hide Bindings;
    var list := LongHeader(0x30, d.listSize) + Bindings(d.oids);
    var back := Intro(d) + (LongHeader(d.command, d.commandSize) + (Numbers(d) + list));
    OverFront(LongHeader(0x30, d.size), back, [p.high, p.low], 2);
    assert Over(LongHeader(0x30, d.size), 2, [p.high, p.low]) == LongHeader(0x30, p);
  }

  lemma SetCommandByte(d: Draft, command: byte)
    requires Proper(d)
    ensures Over(Packet(d), CommandAt(d), [command]) == Packet(d.(command := command))
  {
    AtCommand(d);
    AtCommand(d.(command := command));
    OverMiddle(LongHeader(0x30, d.size) + Intro(d), LongHeader(d.command, d.commandSize),
               Numbers(d) + (LongHeader(0x30, d.listSize) + Bindings(d.oids)), [command], 0);
    assert Over(LongHeader(d.command, d.commandSize), 0, [command]) == LongHeader(command, d.commandSize);
  }

  lemma SetCommandSize(d: Draft, p: Pair)
    requires Proper(d)
    ensures Over(Packet(d), CommandAt(d) + 2, [p.high, p.low]) == Packet(d.(commandSize := p))
  {
    AtCommand(d);
    AtCommand(d.(commandSize := p));
    OverMiddle(LongHeader(0x30, d.size) + Intro(d), LongHeader(d.command, d.commandSize),
               Numbers(d) + (LongHeader(0x30, d.listSize) + Bindings(d.oids)), [p.high, p.low], 2);
    assert Over(LongHeader(d.command, d.commandSize), 2, [p.high, p.low]) == LongHeader(d.command, p);
  }

  lemma SetId(d: Draft, id: seq<byte>)
    requires Proper(d) && |id| == 4
    ensures Over(Packet(d), IdAt(d), id) == Packet(d.(id := id))
  {
    AtNumbers(d);
    AtNumbers(d.(id := id));
    OverMiddle((LongHeader(0x30, d.size) + Intro(d)) + LongHeader(d.command, d.commandSize), Numbers(d),
               LongHeader(0x30, d.listSize) + Bindings(d.oids), id, 2);
    assert Over(Numbers(d), 2, id) == Numbers(d.(id := id));
  }

  lemma SetListSize(d: Draft, p: Pair)
    requires Proper(d)
    ensures Over(Packet(d), ListAt(d) + 2, [p.high, p.low]) == Packet(d.(listSize := p))
  {
    AtList(d);
    AtList(d.(listSize := p));
    OverMiddle(((LongHeader(0x30, d.size) + Intro(d)) + LongHeader(d.command, d.commandSize)) + Numbers(d),
               LongHeader(0x30, d.listSize), Bindings(d.oids), [p.high, p.low], 2);
    assert Over(LongHeader(0x30, d.listSize), 2, [p.high, p.low]) == LongHeader(0x30, p);
  }

  lemma AddBinding(d: Draft, oid: seq<int>)
    requires Proper(d) && Writable(oid)
    ensures Packet(d) + Binding(oid) == Packet(d.(oids := d.oids + [oid]))
  {
    var e := d.(oids := d.oids + [oid]);
    var front := (((LongHeader(0x30, d.size) + Intro(d)) + LongHeader(d.command, d.commandSize)) + Numbers(d));
    AtList(d);
    AtList(e);
    Snoc(d.oids, oid);
    Assoc(front, LongHeader(0x30, d.listSize) + Bindings(d.oids), Binding(oid));
    Assoc(LongHeader(0x30, d.listSize), Bindings(d.oids), Binding(oid));
  }

  lemma PacketLength(d: Draft)
    requires Proper(d)
    ensures |Packet(d)| == ListAt(d) + 4 + |Bindings(d.oids)|
  {
  }

  // ----- One number

  /** b | 0x80 */
  function HighBit(b: byte): byte { if b < 0x80 then b + 0x80 else b }

  /** Groups collected least significant first, in the order they are written. */
  function Marked(groups: seq<byte>): seq<byte> {
    if groups == [] then [] else [HighBit(groups[|groups| - 1])] + Marked(groups[..|groups| - 1])
  }

  lemma MarkedSnoc(groups: seq<byte>, group: byte)
    ensures Marked(groups + [group]) == [HighBit(group)] + Marked(groups)
  {
    Snoc(groups, group);
  }

  lemma GroupMoves(rest: nat, groups: seq<byte>)
    requires rest != 0
    ensures Continued(rest) + Marked(groups) == Continued(rest / 128) + Marked(groups + [(rest % 128) as byte])
  {
    hide Marked;
    var group := (rest % 128) as byte;
    MarkedSnoc(groups, group);
    Assoc(Continued(rest / 128), [HighBit(group)], Marked(groups));
  }

  /** What may be left of a 32-bit number after n groups. */
  predicate Room(n: nat, rest: nat) {
    match n
    case 1 => rest < 0x200_0000
    case 2 => rest < 0x4_0000
    case 3 => rest < 0x800
    case 4 => rest < 16
    case _ => rest == 0
  }

  lemma RoomLeft(n: nat, rest: nat)
    requires 1 <= n <= 5 && Room(n, rest) && rest != 0
    ensures n < 5 && Room(n + 1, rest / 128)
  {
  }

  /** The first loop of saveOIDItem: five groups at most, so its buffer of eight is never overfull. */
  method CollectGroups(value: nat) returns (groups: seq<byte>)
    requires value < 0x1_0000_0000
    ensures 1 <= |groups| <= 5 && groups[0] == (value % 128) as byte
    ensures Marked(groups[1..]) == Continued(value / 128)
  {
    groups := [(value % 128) as byte];
    var rest: nat := value / 128;
    assert Marked(groups[1..]) == [];
    Empty(Continued(rest));
    hide Continued, Marked, Room;
    while rest != 0
      invariant 1 <= |groups| <= 5 && groups[0] == (value % 128) as byte
      invariant Room(|groups|, rest)
      invariant Continued(value / 128) == Continued(rest) + Marked(groups[1..])
    {
      var group := (rest % 128) as byte;
      GroupMoves(rest, groups[1..]);
      RoomLeft(|groups|, rest);
      assert (groups + [group])[1..] == groups[1..] + [group];
      groups := groups + [group];
      rest := rest / 128;
    }
    assert Continued(rest) == [] by {
      NoGroups();
    }
    Empty(Marked(groups[1..]));
  }

  lemma NoGroups()
    ensures Continued(0) == []
  {
  }

  /** saveOIDItem */
  method SaveOidItem(buffer: array<byte>, p: nat, value: nat) returns (q: nat)
    requires value < 0x1_0000_0000 && p + |Item(value)| <= buffer.Length
    modifies buffer
    ensures q == p + |Item(value)|
    ensures buffer[..q] == old(buffer[..p]) + Item(value)
  {
    if value == 0 {
      buffer[p] := 0;
      assert Continued(0) == [];
      return p + 1;
    }
    hide Continued, Marked;
    var groups := CollectGroups(value);
    q := EmitGroups(buffer, p, groups);
    ghost var before := buffer[..q];
    buffer[q] := groups[0];
    assert buffer[..q + 1] == before + [groups[0]];
    Assoc(old(buffer[..p]), Continued(value / 128), [groups[0]]);
    q := q + 1;
  }

  /** The second loop of saveOIDItem: all groups but the first collected, from the last one down. */
  method EmitGroups(buffer: array<byte>, p: nat, groups: seq<byte>) returns (q: nat)
    requires groups != [] && p + |Marked(groups[1..])| <= buffer.Length
    modifies buffer
    ensures q == p + |Marked(groups[1..])|
    ensures buffer[..q] == old(buffer[..p]) + Marked(groups[1..])
  {
    q := p;
    var i := |groups| - 1;
    assert groups[1..i + 1] == groups[1..];
    while i > 0
      invariant 0 <= i < |groups| && p <= q && q + |Marked(groups[1..i + 1])| == p + |Marked(groups[1..])|
      invariant buffer[..q] + Marked(groups[1..i + 1]) == old(buffer[..p]) + Marked(groups[1..])
    {
      MarkedSnoc(groups[1..i], groups[i]);
      assert groups[1..i + 1] == groups[1..i] + [groups[i]];
      Assoc(buffer[..q], [HighBit(groups[i])], Marked(groups[1..i]));
      ghost var before := buffer[..q];
      buffer[q] := HighBit(groups[i]);
      assert buffer[..q + 1] == before + [HighBit(groups[i])];
      q, i := q + 1, i - 1;
    }
    Empty(buffer[..q]);
  }

  lemma HeaderFirst(before: seq<byte>, old_: seq<byte>, body: seq<byte>, header: seq<byte>)
    requires |old_| == |header| == 2
    ensures Over((before + old_) + body, |before|, header) == before + (header + body)
  {
  }

  /** Writing two bytes over what the array holds. */
  method Patch(buffer: array<byte>, p: nat, first: byte, second: byte, ghost end: nat)
    requires p + 2 <= end <= buffer.Length
    modifies buffer
    ensures buffer[..end] == Over(old(buffer[..end]), p, [first, second])
  {
    buffer[p], buffer[p + 1] := first, second;
  }

  method PatchFour(buffer: array<byte>, p: nat, bytes: seq<byte>, ghost end: nat)
    requires |bytes| == 4 && p + 4 <= end <= buffer.Length
    modifies buffer
    ensures buffer[..end] == Over(old(buffer[..end]), p, bytes)
  {
    buffer[p], buffer[p + 1], buffer[p + 2], buffer[p + 3] := bytes[0], bytes[1], bytes[2], bytes[3];
  }

  lemma ItemsStep(oid: seq<int>, i: nat)
    requires i < |oid|
    ensures Items(oid[i..]) == Item(Unsigned(oid[i])) + Items(oid[i + 1..])
  {
    assert oid[i..][1..] == oid[i + 1..];
  }

  lemma ItemsEnd(oid: seq<int>)
    ensures Items(oid[|oid|..]) == []
  {
  }

  /** saveOID */
  method SaveOid(buffer: array<byte>, offset: nat, oid: seq<int>) returns (p: nat)
    requires Writable(oid) && offset + |Named(oid)| <= buffer.Length
    modifies buffer
    ensures p == offset + |Named(oid)|
    ensures buffer[..p] == old(buffer[..offset]) + Named(oid)
  {
    hide Item, Items, Over;
    ghost var before := buffer[..offset + 2];
    assert before == buffer[..offset] + buffer[offset..offset + 2];
    p := SaveOidItem(buffer, offset + 2, Unsigned(oid[0] * 40 + oid[1]));
    Assoc(before, Item(Unsigned(oid[0] * 40 + oid[1])), Items(oid[2..]));
    var i := 2;
    while i < |oid|
      invariant 2 <= i <= |oid| && p <= buffer.Length && p + |Items(oid[i..])| == offset + |Named(oid)|
      invariant buffer[..p] + Items(oid[i..]) == before + Contents(oid)
    {
      ItemsStep(oid, i);
      Assoc(buffer[..p], Item(Unsigned(oid[i])), Items(oid[i + 1..]));
      p := SaveOidItem(buffer, p, Unsigned(oid[i]));
      i := i + 1;
    }
    ItemsEnd(oid);
    Empty(buffer[..p]);
    Patch(buffer, offset, TAG_OID, Low(p - offset - 2), p);
    HeaderFirst(old(buffer[..offset]), old(buffer[offset..offset + 2]), Contents(oid), [TAG_OID, Low(|Contents(oid)|)]);
  }

  lemma BindingBytes(oid: seq<int>)
    requires |oid| >= 2
    ensures var c := Contents(oid);
            Binding(oid) == [0x30, ((|c| + 4) % 256) as byte, 0x06, (|c| % 256) as byte] + c + [0x05, 0x00]
  {
    hide Contents;
  }

  /** The part of addNull that writes: one variable with the value NULL. */
  method SaveNull(buffer: array<byte>, offset: nat, oid: seq<int>) returns (p: nat)
    requires Writable(oid) && offset + |Binding(oid)| <= buffer.Length
    modifies buffer
    ensures p == offset + |Binding(oid)|
    ensures buffer[..p] == old(buffer[..offset]) + Binding(oid)
  {
    ghost var before := buffer[..offset + 2];
    assert before == buffer[..offset] + buffer[offset..offset + 2];
    p := SaveOid(buffer, offset + 2, oid);
    ghost var named := buffer[..p];
    buffer[p], buffer[p + 1] := TAG_NULL, 0;
    p := p + 2;
    assert buffer[..p] == named + [TAG_NULL, 0];
    Assoc(before, Named(oid), [TAG_NULL, 0]);
    Patch(buffer, offset, 0x30, Low(p - offset - 2), p);
    HeaderFirst(old(buffer[..offset]), old(buffer[offset..offset + 2]), Named(oid) + [TAG_NULL, 0],
                [0x30, Low(|Named(oid)| + 2)]);
  }

  class SnmpBuilder {
    const buffer: array<byte>
    var offset: nat
    var commandOffset: nat
    var idOffset: nat
    var listOffset: nat
    ghost var draft: Draft

    constructor (capacity: nat)
      ensures buffer.Length == capacity && fresh(buffer)
    {
      buffer := new byte[capacity];
      offset, commandOffset, idOffset, listOffset := 0, 0, 0, 0;
    }

    /** The bytes up to the offset are a packet under construction. */
    ghost predicate Valid()
      reads this, buffer
    {
      && Proper(draft)
      && offset <= buffer.Length
      && buffer[..offset] == Packet(draft)
      && commandOffset == CommandAt(draft) && idOffset == IdAt(draft) && listOffset == ListAt(draft)
    }

    /** A community of 128 bytes or more is refused; the text is copied up to its terminator otherwise. */
    method Reset(name: seq<byte>) returns (ok: bool)
      requires 0 !in name
      requires buffer.Length >= if |name| < 128 then |name| + 29 else 8
      modifies this, buffer
      ensures ok == (|name| < 128)
      ensures ok ==> Valid() && draft.community == name && draft.oids == []
    {
      offset := 0;
      buffer[0], buffer[1] := 0x30, 0x82;
      buffer[4], buffer[5], buffer[6] := TAG_INTEGER, 1, 1;
      buffer[7] := TAG_STRING;
      if |name| >= 128 {
        return false;
      }
      buffer[8] := |name| as byte;
      offset := 9;
      assert buffer[..9] ==
             LongHeader(0x30, Pair(buffer[2], buffer[3])) + [TAG_INTEGER, 1, 1, TAG_STRING, |name| as byte];
      WriteRest(name);
      return true;
    }

    method WriteRest(name: seq<byte>)
      requires |name| < 128 && offset == 9 && buffer.Length >= |name| + 29
      requires buffer[..9] ==
                LongHeader(0x30, Pair(buffer[2], buffer[3])) + [TAG_INTEGER, 1, 1, TAG_STRING, |name| as byte]
      modifies this, buffer
      ensures Valid() && draft.community == name && draft.oids == []
    {
      ghost var size := Pair(buffer[2], buffer[3]);
      Copy(buffer, offset, name);
      Assoc(LongHeader(0x30, size), [TAG_INTEGER, 1, 1, TAG_STRING, |name| as byte], name);
      commandOffset := offset + |name|;
      idOffset := commandOffset + 6;
      listOffset := commandOffset + 16;
      Fixed(buffer, commandOffset);
      offset := commandOffset + 20;
      ghost var tail := buffer[commandOffset..offset];
      draft := Draft(size, name, tail[0], Pair(tail[2], tail[3]), tail[6..10], Pair(tail[18], tail[19]), []);
      assert buffer[..offset] == buffer[..commandOffset] + tail;
      FixedTail(draft, tail);
    }

    /** setCommand */
    method SetCommand(command: byte)
      requires Valid()
      modifies buffer, `draft
      ensures Valid() && draft == old(draft).(command := command)
    {
      PacketLength(draft);
      buffer[commandOffset] := command;
      assert buffer[..offset] == Over(old(buffer[..offset]), commandOffset, [command]);
      SetCommandByte(draft, command);
      draft := draft.(command := command);
    }

    /** setRequestID */
    method SetRequestId(id: nat)
      requires Valid() && id < 0x1_0000_0000
      modifies buffer, `draft
      ensures Valid() && draft == old(draft).(id := IdBytes(id))
    {
      PacketLength(draft);
      PatchFour(buffer, idOffset, IdBytes(id), offset);
      SetId(draft, IdBytes(id));
      draft := draft.(id := IdBytes(id));
    }

    /** addNull */
    method AddNull(oid: seq<int>) returns (ok: bool)
      requires Valid() && Writable(oid) && offset + |Binding(oid)| <= buffer.Length
      modifies buffer, `offset, `draft
      ensures ok && Valid() && draft == old(draft).(oids := old(draft).oids + [oid])
      ensures var c := Contents(oid);
              buffer[..offset] ==
              old(buffer[..offset]) + ([0x30, ((|c| + 4) % 256) as byte, 0x06, (|c| % 256) as byte] + c + [0x05, 0x00])
    {
      BindingBytes(oid);
      AddBinding(draft, oid);
      offset := SaveNull(buffer, offset, oid);
      draft := draft.(oids := draft.oids + [oid]);
      return true;
    }

    /** saveLen, for one of the three lengths */
    method SaveLen(p: nat, n: nat)
      requires p + 2 <= offset <= buffer.Length
      modifies buffer
      ensures buffer[..offset] == Over(old(buffer[..offset]), p, [Size(n).high, Size(n).low])
    {
      Patch(buffer, p, (n / 256 % 256) as byte, (n % 256) as byte, offset);
    }

    /** commit */
    method Commit()
      requires Valid()
      modifies buffer, `draft
      ensures Valid() && draft == Committed(old(draft))
    {
      hide Packet, Over, Size;
      PacketLength(draft);
      SetSize(draft, Size(offset - 4));
      SaveLen(2, offset - 4);
      draft := draft.(size := Size(offset - 4));
      SetCommandSize(draft, Size(offset - commandOffset - 4));
      SaveLen(commandOffset + 2, offset - commandOffset - 4);
      draft := draft.(commandSize := Size(offset - commandOffset - 4));
      SetListSize(draft, Size(offset - listOffset - 4));
      SaveLen(listOffset + 2, offset - listOffset - 4);
      draft := draft.(listSize := Size(offset - listOffset - 4));
    }
  }

  method Copy(buffer: array<byte>, at: nat, bytes: seq<byte>)
    requires at + |bytes| <= buffer.Length
    modifies buffer
    ensures buffer[..at + |bytes|] == old(buffer[..at]) + bytes
  {
    var i := 0;
    while i < |bytes|
      invariant i <= |bytes|
      invariant buffer[..at + i] == old(buffer[..at]) + bytes[..i]
    {
      buffer[at + i] := bytes[i];
      i := i + 1;
    }
  }

  /** The fixed bytes of the command, the request id, the two error fields and the list. */
  method Fixed(buffer: array<byte>, at: nat)
    requires at + 20 <= buffer.Length
    modifies buffer
    ensures buffer[..at] == old(buffer[..at])
    ensures IsFixed(buffer[at..at + 20])
  {
    buffer[at + 1] := 0x82;
    buffer[at + 4], buffer[at + 5] := TAG_INTEGER, 4;
    buffer[at + 10], buffer[at + 11], buffer[at + 12] := TAG_INTEGER, 1, 0;
    buffer[at + 13], buffer[at + 14], buffer[at + 15] := TAG_INTEGER, 1, 0;
    buffer[at + 16], buffer[at + 17] := 0x30, 0x82;
  }

  ghost predicate IsFixed(s: seq<byte>) {
    && |s| == 20 && s[1] == 0x82 && s[4] == TAG_INTEGER && s[5] == 4
    && s[10] == TAG_INTEGER && s[11] == 1 && s[12] == 0
    && s[13] == TAG_INTEGER && s[14] == 1 && s[15] == 0
    && s[16] == 0x30 && s[17] == 0x82
  }

  lemma FixedTail(d: Draft, s: seq<byte>)
    requires Proper(d) && IsFixed(s) && d.oids == []
    requires d.command == s[0] && d.commandSize == Pair(s[2], s[3]) && d.id == s[6..10]
    requires d.listSize == Pair(s[18], s[19])
    ensures Packet(d) == (LongHeader(0x30, d.size) + Intro(d)) + s
  {
    AtCommand(d);
    assert s[0..4] == LongHeader(d.command, d.commandSize);
    assert s[4..16] == Numbers(d);
    assert s[16..20] == LongHeader(0x30, d.listSize);
    Empty(LongHeader(0x30, d.listSize));
    assert s == s[0..4] + (s[4..16] + s[16..20]);
  }
}
