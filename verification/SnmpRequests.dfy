/** Parsing a GET request (src/snmpparser.cpp:24-95, 432-465) as functions of the buffer. */
module SnmpRequests {
  import opened Bytes
  import opened Asn1

  /** true, false, undefined in C++, or a command whose parser is not part of this model. */
  datatype Status = Accepted | Rejected | Broken | Elsewhere(command: byte)

  /** The fields of the parser, and the OIDs it has handed to onGetValue. */
  datatype Fields = Fields(
    version: int, community: seq<byte>, requestId: int, errorStatus: int, errorIndex: int, got: seq<seq<int>>)

  function Fault<T>(r: Reading<T>): Status
    requires !r.Got?
  {
    if r.Refused? then Rejected else Broken
  }

  function GetValue(d: seq<byte>, p: nat, limit: nat): (r: Reading<seq<int>>)
    requires limit <= |d|
    ensures r.Got? ==> p < r.pos <= limit
  {
    match ReadHeader(d, p, limit)
    case None => Refused
    case Some(h) =>
      match ReadOid(d, h.start, h.end)
      case Refused => Refused
      case Undefined => Undefined
      case Got(oid, q) => if ReadNull(d, q, h.end).Got? then Got(oid, h.end) else Refused
  }

  /** The values between p and end: those handed over before a fault stay handed over. */
  function GetValues(d: seq<byte>, p: nat, end: nat, got: seq<seq<int>>): (Status, seq<seq<int>>)
    requires end <= |d|
    decreases end - p
  {
    if p >= end then (Accepted, got)
    else
      match GetValue(d, p, end)
      case Got(oid, q) => GetValues(d, q, end, got + [oid])
      case Refused => (Rejected, got)
      case Undefined => (Broken, got)
  }

  function GetBindings(d: seq<byte>, p: nat, limit: nat, got: seq<seq<int>>): (Status, seq<seq<int>>)
    requires limit <= |d|
  {
    match ReadHeader(d, p, limit)
    case None => (Rejected, got)
    case Some(h) => GetValues(d, h.start, h.end, got)
  }

  function GetRequest(f: Fields, d: seq<byte>, p: nat, limit: nat): (Status, Fields)
    requires limit <= |d|
  {
    var id := ReadInt(d, p, limit);
    if !id.Got? then (Fault(id), f)
    else
      var f1 := f.(requestId := id.value);
      var status := ReadInt(d, id.pos, limit);
      if !status.Got? then (Fault(status), f1)
      else
        var f2 := f1.(errorStatus := status.value);
        var index := ReadInt(d, status.pos, limit);
        if !index.Got? then (Fault(index), f2)
        else
          var f3 := f2.(errorIndex := index.value);
          var (s, got) := GetBindings(d, index.pos, limit, f3.got);
          (s, f3.(got := got))
  }

  function Parse(f: Fields, d: seq<byte>): (Status, Fields) {
    var limit := |d|;
    match ReadHeader(d, 0, limit)
    case None => (Rejected, f)
    case Some(h) =>
      var version := ReadInt(d, h.start, limit);
      if !version.Got? then (Fault(version), f)
      else
        var f1 := f.(version := version.value);
        if version.value != 1 then (Rejected, f1)
        else
          var community := ReadString(d, version.pos, limit);
          if !community.Got? then (Fault(community), f1)
          else
            var f2 := f1.(community := CString(community.value));
            match ReadHeader(d, community.pos, limit)
            case None => (Rejected, f2)
            case Some(command) =>
              if command.tag == 0xA0 then GetRequest(f2, d, command.start, limit)
              else if command.tag == 0xA2 || command.tag == 0xA7 then (Elsewhere(command.tag), f2)
              else (Rejected, f2)
  }
}
