/** base64_decode and urldecode (src/easylib.cpp:266-306, 327-383) against the encodings they undo. */
module Codecs {
  import opened Bytes
  import opened Seqs

  // ----- base64

  /** The alphabet of section 4 of RFC 4648. */
  function Symbol(v: nat): byte
    requires v < 64
  {
    if v < 26 then (65 + v) as byte
    else if v < 52 then (97 + v - 26) as byte
    else if v < 62 then (48 + v - 52) as byte
    else if v == 62 then 43 else 47
  }

  /** base64_chars.find as an unsigned char: 255 for what is not in the alphabet. */
  function Value(c: byte): nat {
    if 65 <= c <= 90 then c as nat - 65
    else if 97 <= c <= 122 then c as nat - 97 + 26
    else if 48 <= c <= 57 then c as nat - 48 + 52
    else if c == 43 then 62
    else if c == 47 then 63
    else 255
  }

  const PAD: byte := 61

  /** isalnum, '+' or '/' */
  predicate IsBase64(c: byte) { Value(c) != 255 }

  function Encode(bs: seq<byte>): seq<byte>
    decreases |bs|
  {
    if bs == [] then []
    else if |bs| == 1 then
      var n := bs[0] as nat;
      [Symbol(n / 4), Symbol(n % 4 * 16), PAD, PAD]
    else if |bs| == 2 then
      var n, m := bs[0] as nat, bs[1] as nat;
      [Symbol(n / 4), Symbol(n % 4 * 16 + m / 16), Symbol(m % 16 * 4), PAD]
    else Quad(bs[0], bs[1], bs[2]) + Encode(bs[3..])
  }

  function Quad(a: byte, b: byte, c: byte): seq<byte> {
    [Symbol(a as nat / 4), Symbol(a as nat % 4 * 16 + b as nat / 16), Symbol(b as nat % 16 * 4 + c as nat / 64),
     Symbol(c as nat % 64)]
  }

  /** The shifts and masks of the decoder, in unsigned char. */
  function Triple(a: nat, b: nat, c: nat, d: nat): seq<byte> {
    [((a * 4 + b / 16 % 4) % 256) as byte, ((b % 16 * 16 + c / 4 % 16) % 256) as byte, ((c % 4 * 64 + d) % 256) as byte]
  }

  /** The characters before the first that ends the data. */
  function Body(s: seq<byte>): seq<byte> {
    if s == [] || !IsBase64(s[0]) then [] else [s[0]] + Body(s[1..])
  }

  /** Groups of four, and what is left over. */
  function DecodeBody(s: seq<byte>): seq<byte>
    decreases |s|
  {
    if |s| >= 4 then Triple(Value(s[0]), Value(s[1]), Value(s[2]), Value(s[3])) + DecodeBody(s[4..])
    else if s == [] then []
    else
      var t := s + [0, 0, 0, 0];
      Triple(Value(t[0]), Value(t[1]), Value(t[2]), Value(t[3]))[..|s| - 1]
  }

  function Decode(s: seq<byte>): seq<byte> { DecodeBody(Body(s)) }

  const UPPER := "ABCDEFGHIJKLMNOPQRSTUVWXYZ"
  const LOWER := "abcdefghijklmnopqrstuvwxyz"
  const DIGITS := "0123456789"
  const ALPHABET := UPPER + LOWER + DIGITS + "+/"

  /** The table of section 4 of RFC 4648, symbol by symbol. */
  lemma SymbolsAreTheAlphabet(v: nat)
    requires v < 64
    ensures Symbol(v) as char == ALPHABET[v]
  {
    if v < 26 {
      assert ALPHABET[v] == UPPER[v];
      Letters(v);
    } else if v < 52 {
      assert ALPHABET[v] == LOWER[v - 26];
      Letters(v - 26);
    } else if v < 62 {
      assert ALPHABET[v] == DIGITS[v - 52];
      TenDigits(v - 52);
    } else {
      assert ALPHABET[v] == "+/"[v - 62];
    }
  }

  lemma Letters(v: nat)
    requires v < 26
    ensures UPPER[v] == (65 + v) as char && LOWER[v] == (97 + v) as char
  {
    assert v == 0 || v == 1 || v == 2 || v == 3 || v == 4 || v == 5 || v == 6 || v == 7 || v == 8 ||
           v == 9 || v == 10 || v == 11 || v == 12 || v == 13 || v == 14 || v == 15 || v == 16 || v == 17 ||
           v == 18 || v == 19 || v == 20 || v == 21 || v == 22 || v == 23 || v == 24 || v == 25;
  }

  lemma TenDigits(v: nat)
    requires v < 10
    ensures DIGITS[v] == (48 + v) as char
  {
    assert v == 0 || v == 1 || v == 2 || v == 3 || v == 4 || v == 5 || v == 6 || v == 7 || v == 8 || v == 9;
  }

  /** Nothing behind the first character that is not in the alphabet counts, whatever it is. */
  lemma {:induction false} StopsAtOther(s: seq<byte>, x: byte, rest: seq<byte>)
    requires x as char !in ALPHABET
    ensures Decode(s + [x] + rest) == Decode(s)
  {
    OtherHasNoValue(x);
    BodyStops(s, x, rest);
  }

  lemma ValuedIsInAlphabet(x: byte)
    requires IsBase64(x)
    ensures x as char in ALPHABET
  {
    SymbolsAreTheAlphabet(Value(x));
    assert Symbol(Value(x)) == x;
  }

  lemma OtherHasNoValue(x: byte)
    requires x as char !in ALPHABET
    ensures !IsBase64(x)
  {
    if IsBase64(x) {
      ValuedIsInAlphabet(x);
    }
  }

  lemma {:induction false} BodyStops(s: seq<byte>, x: byte, rest: seq<byte>)
    requires !IsBase64(x)
    ensures Body(s + [x] + rest) == Body(s)
  {
    if s == [] {
      assert s + [x] + rest == [x] + rest;
    } else {
      BodyStops(s[1..], x, rest);
      assert (s + [x] + rest)[1..] == s[1..] + [x] + rest;
    }
  }

  lemma SymbolValue(v: nat)
    requires v < 64
    ensures Value(Symbol(v)) == v && IsBase64(Symbol(v))
  {
  }

  /** Two fields of bits, put together and taken apart. */
  lemma Fields(high: nat, low: nat, width: nat)
    requires low < width && width in {4, 16, 64}
    ensures (high * width + low) / width == high && (high * width + low) % width == low
  {
  }

  /** Six bits at a time and eight bits at a time are the same bits; the last group matters to the last byte
      only. */
  lemma SameBits(a: nat, b: nat, c: nat, last: nat)
    requires a < 256 && b < 256 && c < 256
    ensures var t := Triple(a / 4, a % 4 * 16 + b / 16, b % 16 * 4 + c / 64, last);
            t[0] == a as byte && t[1] == b as byte && (last == c % 64 ==> t[2] == c as byte)
  {
    Fields(a % 4, b / 16, 16);
    Fields(b % 16, c / 64, 4);
    assert a / 4 * 4 + a % 4 == a;
    assert b / 16 * 16 + b % 16 == b;
    assert c / 64 * 64 + c % 64 == c;
  }

  lemma TripleOfQuad(a: byte, b: byte, c: byte)
    ensures var q := Quad(a, b, c); Triple(Value(q[0]), Value(q[1]), Value(q[2]), Value(q[3])) == [a, b, c]
    ensures forall k :: 0 <= k < 4 ==> IsBase64(Quad(a, b, c)[k])
  {
    QuadValues(a, b, c);
    SameBits(a as nat, b as nat, c as nat, c as nat % 64);
  }

  lemma QuadValues(a: byte, b: byte, c: byte)
    ensures var q := Quad(a, b, c);
            && Value(q[0]) == a as nat / 4 && Value(q[1]) == a as nat % 4 * 16 + b as nat / 16
            && Value(q[2]) == b as nat % 16 * 4 + c as nat / 64 && Value(q[3]) == c as nat % 64
            && forall k :: 0 <= k < 4 ==> IsBase64(q[k])
  {
    SymbolValue(a as nat / 4);
    SymbolValue(a as nat % 4 * 16 + b as nat / 16);
    SymbolValue(b as nat % 16 * 4 + c as nat / 64);
    SymbolValue(c as nat % 64);
  }

  lemma BodyFour(q: seq<byte>, rest: seq<byte>)
    requires |q| == 4 && forall k :: 0 <= k < 4 ==> IsBase64(q[k])
    ensures Body(q + rest) == q + Body(rest)
  {
    BodyOne(q[3], rest);
    BodyOne(q[2], [q[3]] + rest);
    BodyOne(q[1], [q[2]] + ([q[3]] + rest));
    BodyOne(q[0], [q[1]] + ([q[2]] + ([q[3]] + rest)));
    assert q + rest == [q[0]] + ([q[1]] + ([q[2]] + ([q[3]] + rest)));
    assert q + Body(rest) == [q[0]] + ([q[1]] + ([q[2]] + ([q[3]] + Body(rest))));
  }

  lemma BodyOne(c: byte, rest: seq<byte>)
    requires IsBase64(c)
    ensures Body([c] + rest) == [c] + Body(rest)
  {
    Cons(c, rest);
  }

  /** Decoding the padded encoding of any bytes, of any length, gives the bytes. */
  lemma {:induction false} DecodeEncode(bs: seq<byte>)
    ensures Decode(Encode(bs)) == bs
    decreases |bs|
  {
    if |bs| >= 3 {
      var q := Quad(bs[0], bs[1], bs[2]);
      TripleOfQuad(bs[0], bs[1], bs[2]);
      BodyFour(q, Encode(bs[3..]));
      DecodeEncode(bs[3..]);
      assert (q + Body(Encode(bs[3..])))[4..] == Body(Encode(bs[3..]));
      assert [bs[0], bs[1], bs[2]] + bs[3..] == bs;
    } else if |bs| == 2 {
      TwoLeft(bs[0], bs[1]);
      assert bs == [bs[0], bs[1]];
    } else if |bs| == 1 {
      OneLeft(bs[0]);
      assert bs == [bs[0]];
    }
  }

  lemma OneLeft(a: byte)
    ensures Decode(Encode([a])) == [a]
  {
    var q := Quad(a, 0, 0);
    QuadValues(a, 0, 0);
    SameBits(a as nat, 0, 0, Value(0));
    assert Encode([a]) == [q[0]] + ([q[1]] + [PAD, PAD]);
    hide Symbol, Value;
    BodyOne(q[0], [q[1]] + [PAD, PAD]);
    BodyOne(q[1], [PAD, PAD]);
    Padded([PAD, PAD]);
    LeftOver([q[0], q[1]], q[0], q[1], 0);
    assert [q[0]] + ([q[1]] + []) == [q[0], q[1]];
  }

  lemma TwoLeft(a: byte, b: byte)
    ensures Decode(Encode([a, b])) == [a, b]
  {
    var q := Quad(a, b, 0);
    QuadValues(a, b, 0);
    SameBits(a as nat, b as nat, 0, Value(0));
    assert Encode([a, b]) == [q[0]] + ([q[1]] + ([q[2]] + [PAD]));
    hide Symbol, Value;
    BodyOne(q[0], [q[1]] + ([q[2]] + [PAD]));
    BodyOne(q[1], [q[2]] + [PAD]);
    BodyOne(q[2], [PAD]);
    Padded([PAD]);
    LeftOver([q[0], q[1], q[2]], q[0], q[1], q[2]);
    assert [q[0]] + ([q[1]] + ([q[2]] + [])) == [q[0], q[1], q[2]];
  }

  lemma Padded(s: seq<byte>)
    requires s != [] && s[0] == PAD
    ensures Body(s) == []
  {
  }

  lemma LeftOver(s: seq<byte>, x: byte, y: byte, z: byte)
    requires s == [x, y, z] || (s == [x, y] && z == 0)
    ensures DecodeBody(s) == Triple(Value(x), Value(y), Value(z), Value(0))[..|s| - 1]
  {
    var t := s + [0, 0, 0, 0];
    assert t[0] == x && t[1] == y && t[2] == z && t[3] == 0;
  }

  /** A whole group is decoded by itself. */
  lemma FourDone(r: seq<byte>, four: seq<byte>, rest: seq<byte>)
    requires |four| == 4
    ensures r + DecodeBody(four + rest) ==
            r + Triple(Value(four[0]), Value(four[1]), Value(four[2]), Value(four[3])) + DecodeBody([] + rest)
  {
    Empty(rest);
    assert (four + rest)[4..] == rest;
    Assoc(r, Triple(Value(four[0]), Value(four[1]), Value(four[2]), Value(four[3])), DecodeBody(rest));
  }

  /** A group that is not whole at the end. */
  lemma GroupLeft(r: seq<byte>, four: seq<byte>)
    requires |four| < 4
    ensures var t := four + [0, 0, 0, 0];
            r + DecodeBody(four) ==
            if four == [] then r else r + Triple(Value(t[0]), Value(t[1]), Value(t[2]), Value(t[3]))[..|four| - 1]
  {
    Empty(r);
  }

  /** base64_decode: characters are collected in fours. */
  method Base64Decode(s: seq<byte>) returns (r: seq<byte>)
    ensures r == Decode(s)
  {
    hide DecodeBody;
    r := [];
    var four: seq<byte> := [];
    var p := 0;
    Empty(Decode(s));
    assert s[0..] == s;
    Empty(Body(s));
    while p < |s| && s[p] != PAD && IsBase64(s[p])
      invariant 0 <= p <= |s| && |four| < 4
      invariant r + DecodeBody(four + Body(s[p..])) == Decode(s)
    {
      BodyOne(s[p], s[p + 1..]);
      assert s[p..] == [s[p]] + s[p + 1..];
      Assoc(four, [s[p]], Body(s[p + 1..]));
      four := four + [s[p]];
      p := p + 1;
      if |four| == 4 {
        FourDone(r, four, Body(s[p..]));
        r := r + Triple(Value(four[0]), Value(four[1]), Value(four[2]), Value(four[3]));
        four := [];
      }
    }
    assert Body(s[p..]) == [];
    Empty(four);
    GroupLeft(r, four);
    if four != [] {
      var t := four + [0, 0, 0, 0];
      r := r + Triple(Value(t[0]), Value(t[1]), Value(t[2]), Value(t[3]))[..|four| - 1];
    }
  }

  // ----- Percent-encoding

  const PERCENT: byte := 37
  const PLUS: byte := 43
  const BLANK: byte := 32

  /** isxdigit */
  predicate IsHex(c: byte) { 48 <= c <= 57 || 65 <= c <= 70 || 97 <= c <= 102 }

  function HexValue(c: byte): (v: byte)
    requires IsHex(c)
    ensures v < 16
  {
    var lower := if 65 <= c <= 70 then c + 32 else c;
    if lower <= 57 then lower - 48 else lower - 97 + 10
  }

  /** The digits of section 2.1 of RFC 3986, in either case. */
  lemma HexDigitsAre(v: nat)
    requires v < 16
    ensures IsHex("0123456789abcdef"[v] as byte) && HexValue("0123456789abcdef"[v] as byte) as nat == v
    ensures IsHex("0123456789ABCDEF"[v] as byte) && HexValue("0123456789ABCDEF"[v] as byte) as nat == v
  {
    assert v == 0 || v == 1 || v == 2 || v == 3 || v == 4 || v == 5 || v == 6 || v == 7 || v == 8 || v == 9 ||
           v == 10 || v == 11 || v == 12 || v == 13 || v == 14 || v == 15;
  }

  /** One way to write one character: itself, a plus for a blank, or its code in hexadecimal. */
  datatype Piece = Plain(c: byte) | Space | Hex(high: byte, low: byte)

  predicate Writable(piece: Piece) {
    match piece
    case Plain(c) => c != PERCENT && c != PLUS && c != 0
    case Space => true
    case Hex(high, low) => IsHex(high) && IsHex(low) && Meaning(piece) != 0
  }

  function Written(piece: Piece): seq<byte> {
    match piece
    case Plain(c) => [c]
    case Space => [PLUS]
    case Hex(high, low) => [PERCENT, high, low]
  }

  function Meaning(piece: Piece): byte {
    match piece
    case Plain(c) => c
    case Space => BLANK
    case Hex(high, low) => if IsHex(high) && IsHex(low) then 16 * HexValue(high) + HexValue(low) else 0
  }

  lemma PiecesAre(c: byte, high: byte, low: byte)
    ensures Written(Plain(c)) == [c] == [Meaning(Plain(c))]
    ensures Written(Space) == ['+' as byte] && Meaning(Space) == ' ' as byte
    ensures Written(Hex(high, low)) == ['%' as byte, high, low]
  {
  }

  function AllWritten(pieces: seq<Piece>): seq<byte> {
    if pieces == [] then [] else Written(pieces[0]) + AllWritten(pieces[1..])
  }

  function AllMeant(pieces: seq<Piece>): seq<byte> {
    if pieces == [] then [] else [Meaning(pieces[0])] + AllMeant(pieces[1..])
  }

  /** What the loop writes for the rest of the text with its terminator. */
  function UrlBytes(z: seq<byte>): seq<byte>
    decreases |z|
  {
    if z == [] then []
    else if z[0] == PERCENT && |z| > 3 then
      (if IsHex(z[1]) && IsHex(z[2]) then [16 * HexValue(z[1]) + HexValue(z[2])] else [z[0], z[1], z[2]]) +
      UrlBytes(z[3..])
    else [if z[0] == PLUS then BLANK else z[0]] + UrlBytes(z[1..])
  }

  /** The C string it returns. */
  function UrlDecode(u: seq<byte>): seq<byte> { CString(UrlBytes(u + [0])) }

  lemma {:induction false} WrittenIsRead(pieces: seq<Piece>)
    requires forall k :: 0 <= k < |pieces| ==> Writable(pieces[k])
    ensures UrlBytes(AllWritten(pieces) + [0]) == AllMeant(pieces) + [0]
    decreases |pieces|
  {
    if pieces == [] {
      assert [] + [0] == [0] && [0][1..] == [];
      Empty([0]);
    } else {
      var w, rest := Written(pieces[0]), AllWritten(pieces[1..]) + [0];
      WrittenIsRead(pieces[1..]);
      Assoc(w, AllWritten(pieces[1..]), [0]);
      Assoc([Meaning(pieces[0])], AllMeant(pieces[1..]), [0]);
      PieceIsRead(pieces[0], rest);
    }
  }

  lemma PieceIsRead(piece: Piece, rest: seq<byte>)
    requires Writable(piece) && rest != []
    ensures UrlBytes(Written(piece) + rest) == [Meaning(piece)] + UrlBytes(rest)
  {
    var z := Written(piece) + rest;
    assert z[|Written(piece)|..] == rest;
  }

  lemma {:induction false} NoTerminator(pieces: seq<Piece>)
    requires forall k :: 0 <= k < |pieces| ==> Writable(pieces[k])
    ensures CString(AllMeant(pieces) + [0]) == AllMeant(pieces)
    decreases |pieces|
  {
    if pieces == [] {
      Empty([0]);
    } else {
      NoTerminator(pieces[1..]);
      Assoc([Meaning(pieces[0])], AllMeant(pieces[1..]), [0]);
      Cons(Meaning(pieces[0]), AllMeant(pieces[1..]) + [0]);
    }
  }

  /** However a text was percent-encoded, decoding gives it back. */
  lemma UrlRoundTrip(pieces: seq<Piece>)
    requires forall k :: 0 <= k < |pieces| ==> Writable(pieces[k])
    ensures UrlDecode(AllWritten(pieces)) == AllMeant(pieces)
  {
    WrittenIsRead(pieces);
    NoTerminator(pieces);
  }

  /** Section 2.1 of RFC 3986, with upper-case digits. */
  function HexDigit(v: byte): byte
    requires v < 16
  {
    if v < 10 then 48 + v else 65 + v - 10
  }

  function Coded(s: seq<byte>): seq<Piece> {
    if s == [] then [] else [Hex(HexDigit(s[0] / 16), HexDigit(s[0] % 16))] + Coded(s[1..])
  }

  /** Every string without a terminator has an encoding, so decoding can give every one of them. */
  lemma {:induction false} CodedMeans(s: seq<byte>)
    requires 0 !in s
    ensures (forall k :: 0 <= k < |Coded(s)| ==> Writable(Coded(s)[k])) && AllMeant(Coded(s)) == s
    decreases |s|
  {
    if s != [] {
      CodedMeans(s[1..]);
      Cons(Hex(HexDigit(s[0] / 16), HexDigit(s[0] % 16)), Coded(s[1..]));
      assert 16 * (s[0] / 16) + s[0] % 16 == s[0];
      assert s == [s[0]] + s[1..];
    }
  }

  /** urldecode: the copy never runs ahead of the text, so strlen + 1 bytes are enough. */
  method UrlDecodeInto(url: seq<byte>) returns (dest: array<byte>, d: nat)
    requires 0 !in url
    ensures fresh(dest) && dest.Length == |url| + 1 && d <= dest.Length && dest[..d] == UrlBytes(url + [0])
  {
    var z := url + [0];
    dest := new byte[|z|];
    var s: nat := 0;
    d := 0;
    assert z[0..] == z;
    Empty(UrlBytes(z));
    assert dest[..0] == [];
    while s < |z|
      invariant 0 <= d <= s <= |z|
      invariant dest[..d] + UrlBytes(z[s..]) == UrlBytes(z)
    {
      ghost var rest, before := z[s..], dest[..d];
      var c := z[s];
      s := s + 1;
      if c == PERCENT && s + 2 < |z| {
        var c2, c3 := z[s], z[s + 1];
        s := s + 2;
        assert rest[3..] == z[s..];
        if IsHex(c2) && IsHex(c3) {
          dest[d] := 16 * HexValue(c2) + HexValue(c3);
          d := d + 1;
          Written1(dest, d, before);
        } else {
          dest[d], dest[d + 1], dest[d + 2] := c, c2, c3;
          d := d + 3;
          assert dest[..d] == before + [c, c2, c3];
        }
      } else {
        assert rest[1..] == z[s..];
        dest[d] := if c == PLUS then BLANK else c;
        d := d + 1;
        Written1(dest, d, before);
      }
      Assoc(before, UrlBytes(rest)[..d - |before|], UrlBytes(z[s..]));
      assert dest[..d] == before + UrlBytes(rest)[..d - |before|];
      assert UrlBytes(rest) == UrlBytes(rest)[..d - |before|] + UrlBytes(z[s..]);
    }
    Empty(dest[..d]);
  }

  lemma Written1(dest: array<byte>, d: nat, before: seq<byte>)
    requires 0 < d <= dest.Length && dest[..d - 1] == before
    ensures dest[..d] == before + [dest[d - 1]]
  {
  }
}
