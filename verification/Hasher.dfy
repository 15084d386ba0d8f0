/** Hasher: the bucket of a key (src/hasher.cpp). */
module Hashers {
  import opened Bytes

  /** size_t */
  const WORD: nat := 0x1_0000_0000_0000_0000

  function Feed(hash: nat, c: byte, modulus: nat): nat
    requires modulus > 0
  {
    (hash * 256 + c as nat) % WORD % modulus
  }

  function FeedAll(hash: nat, bytes: seq<byte>, modulus: nat): nat
    requires modulus > 0
  {
    if bytes == [] then hash else Feed(FeedAll(hash, bytes[..|bytes| - 1], modulus), bytes[|bytes| - 1], modulus)
  }

  lemma {:induction false} BelowModulus(hash: nat, bytes: seq<byte>, modulus: nat)
    requires hash < modulus
    ensures FeedAll(hash, bytes, modulus) < modulus
  {
    if bytes != [] {
      var x := (FeedAll(hash, bytes[..|bytes| - 1], modulus) * 256 + bytes[|bytes| - 1] as nat) % WORD;
      assert 0 <= x % modulus < modulus;
    }
  }

  lemma PositiveMultiple(k: int, m: int)
    requires m > 0 && k > 0
    ensures k * m >= m
  {
  }

  lemma NonZeroMultiple(k: int, m: int)
    requires m > 0 && k != 0
    ensures k * m >= m || k * m <= -m
  {
    PositiveMultiple(if k > 0 then k else -k, m);
    assert (-k) * m == -(k * m);
  }

  lemma RemainderIs(n: int, q: int, r: int, m: int)
    requires 0 <= r < m && n == q * m + r
    ensures n % m == r
  {
    var q', r' := n / m, n % m;
    assert n == q' * m + r';
    assert (q' - q) * m == r - r';
    if q' != q {
      NonZeroMultiple(q' - q, m);
    }
  }

  lemma ModStep(n: nat, c: nat, m: nat)
    requires m > 0
    ensures (n % m * 256 + c) % m == (n * 256 + c) % m
  {
    var q, r := n / m, n % m;
    assert n == q * m + r;
    var low := r * 256 + c;
    var p, s := low / m, low % m;
    assert low == p * m + s;
    assert (q * 256 + p) * m == q * m * 256 + p * m;
    RemainderIs(n * 256 + c, q * 256 + p, s, m);
  }

  lemma NoWrap(h: nat, c: byte, m: nat)
    requires h < m <= WORD / 256
    ensures Feed(h, c, m) == (h * 256 + c as nat) % m
  {
    var x := h * 256 + c as nat;
    assert 0 <= x < WORD;
  }

  /** As long as the modulus leaves room for one more byte in a size_t, nothing wraps around: the hash is
      the remainder of the whole number. */
  lemma {:induction false} HashIsRemainder(bytes: seq<byte>, modulus: nat)
    requires 0 < modulus <= WORD / 256
    ensures FeedAll(0, bytes, modulus) == Number(bytes) % modulus
  {
    hide Feed;
    if bytes != [] {
      var n := |bytes| - 1;
      HashIsRemainder(bytes[..n], modulus);
      BelowModulus(0, bytes[..n], modulus);
      NoWrap(FeedAll(0, bytes[..n], modulus), bytes[n], modulus);
      ModStep(Number(bytes[..n]), bytes[n] as nat, modulus);
    }
  }

  class Hasher {
    var hash: nat
    var modulus: nat

    constructor (modulus: nat)
      requires modulus > 0
      ensures hash == 0 && this.modulus == modulus
    {
      hash := 0;
      this.modulus := modulus;
    }

    method FeedChar(c: byte)
      requires modulus > 0
      modifies `hash
      ensures hash == Feed(old(hash), c, modulus)
    {
      hash := (hash * 256 + c as nat) % WORD % modulus;
    }

    method FeedData(data: seq<byte>)
      requires modulus > 0
      modifies `hash
      ensures hash == FeedAll(old(hash), data, modulus)
    {
      var i := 0;
      while i < |data|
        invariant i <= |data| && hash == FeedAll(old(hash), data[..i], modulus)
      {
        assert data[..i + 1][..i] == data[..i];
        FeedChar(data[i]);
        i := i + 1;
      }
      assert data[..i] == data;
    }
  }
}
