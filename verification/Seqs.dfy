/** Laws of concatenation, named so that larger proofs can cite them one at a time. */
module Seqs {

  lemma Assoc<T>(a: seq<T>, b: seq<T>, c: seq<T>)
    ensures (a + b) + c == a + (b + c)
  {
  }

  lemma Assoc4<T>(a: seq<T>, b: seq<T>, c: seq<T>, d: seq<T>)
    ensures ((a + b) + c) + d == a + (b + (c + d))
  {
  }

  lemma Empty<T>(a: seq<T>)
    ensures a + [] == a && [] + a == a
  {
  }

  lemma Cons<T>(x: T, a: seq<T>)
    ensures ([x] + a)[0] == x && ([x] + a)[1..] == a
  {
  }

  lemma Snoc<T>(a: seq<T>, x: T)
    ensures (a + [x])[|a|] == x && (a + [x])[..|a|] == a
  {
  }

  lemma DropSnoc<T>(a: seq<T>, x: T, k: nat)
    requires k <= |a|
    ensures (a + [x])[k..] == a[k..] + [x]
  {
  }

  lemma SnocAppend<T>(a: seq<T>, b: seq<T>, x: T)
    ensures (a + (b + [x]))[|a| + |b|] == x && (a + (b + [x]))[..|a| + |b|] == a + b
  {
  }

  lemma SetAt<T>(a: seq<T>, x: T, b: seq<T>, y: T)
    ensures (a + ([x] + b))[|a|] == x && (a + ([x] + b))[|a| := y] == a + ([y] + b)
  {
  }

  lemma Around<T>(s: seq<T>, j: nat)
    requires j < |s|
    ensures s == s[..j] + ([s[j]] + s[j + 1..])
  {
  }
}
