/** explode, implode and strReplace (src/easylib.cpp:10-50, 432-438). */
module Strings {
  import opened Seqs

  predicate At(s: string, i: nat, sep: string) { i + |sep| <= |s| && s[i..i + |sep|] == sep }

  /** Where sep occurs in s, at i or later, or |s| + 1. */
  function Find(s: string, sep: string, i: nat): (j: nat)
    requires i <= |s| + 1
    ensures i <= j <= |s| + 1 && (j <= |s| ==> j + |sep| <= |s|)
    decreases |s| + 1 - i
  {
    if i > |s| || At(s, i, sep) then i else Find(s, sep, i + 1)
  }

  /** The parts of s from i on between the occurrences of sep, the leftmost taken first. */
  function Parts(s: string, sep: string, i: nat): (parts: seq<string>)
    requires sep != "" && i <= |s|
    ensures parts != []
    decreases |s| - i
  {
    var j := Find(s, sep, i);
    if j > |s| then [s[i..]] else [s[i..j]] + Parts(s, sep, j + |sep|)
  }

  function Joined(sep: string, parts: seq<string>): string {
    if parts == [] then "" else if |parts| == 1 then parts[0] else parts[0] + sep + Joined(sep, parts[1..])
  }

  /** Replacing an occurrence and going on behind it. */
  function Replaced(s: string, sep: string, r: string, i: nat): string
    requires sep != "" && i <= |s|
    decreases |s| - i
  {
    var j := Find(s, sep, i);
    if j > |s| then s[i..] else s[i..j] + r + Replaced(s, sep, r, j + |sep|)
  }

  // ----- Finding

  /** Find finds an occurrence, and no earlier one. */
  lemma {:induction false} FindFirst(s: string, sep: string, i: nat)
    requires i <= |s| + 1
    ensures var j := Find(s, sep, i);
            (j <= |s| ==> At(s, j, sep)) && forall k :: i <= k < j && k <= |s| ==> !At(s, k, sep)
    decreases |s| + 1 - i
  {
    if i <= |s| && !At(s, i, sep) {
      FindFirst(s, sep, i + 1);
    }
  }

  lemma {:induction false} FindShift(a: string, s: string, sep: string, i: nat)
    requires i <= |s| + 1
    ensures Find(a + s, sep, |a| + i) == |a| + Find(s, sep, i)
    decreases |s| + 1 - i
  {
    if i <= |s| {
      AtShift(a, s, sep, i);
      if !At(s, i, sep) {
        FindShift(a, s, sep, i + 1);
      }
    }
  }

  lemma AtShift(a: string, s: string, sep: string, i: nat)
    requires i <= |s|
    ensures At(a + s, |a| + i, sep) == At(s, i, sep)
  {
    if i + |sep| <= |s| {
      assert (a + s)[|a| + i..|a| + i + |sep|] == s[i..i + |sep|];
    }
  }

  lemma FindHere(s: string, sep: string, k: nat, i: nat)
    requires k <= i <= |s| && Find(s, sep, k) >= i
    ensures At(s, i, sep) ==> Find(s, sep, k) == i
    ensures !At(s, i, sep) ==> Find(s, sep, k) >= i + 1
  {
    FindFirst(s, sep, k);
  }

  lemma JoinedCons(sep: string, part: string, rest: seq<string>)
    requires rest != []
    ensures Joined(sep, [part] + rest) == part + sep + Joined(sep, rest)
  {
    Cons(part, rest);
  }

  lemma JoinedOne(sep: string, part: string)
    ensures Joined(sep, [part]) == part
  {
  }

  // ----- Laws

  /** Taking apart and putting together gives the string back. */
  lemma {:induction false} JoinParts(s: string, sep: string, i: nat)
    requires sep != "" && i <= |s|
    ensures Joined(sep, Parts(s, sep, i)) == s[i..]
    decreases |s| - i
  {
    var j := Find(s, sep, i);
    FindFirst(s, sep, i);
    hide Find, Joined;
    if j <= |s| {
      JoinParts(s, sep, j + |sep|);
      JoinedCons(sep, s[i..j], Parts(s, sep, j + |sep|));
      assert s[i..j] + s[j..j + |sep|] + s[j + |sep|..] == s[i..];
    } else {
      JoinedOne(sep, s[i..]);
    }
  }

  /** Replacing is exploding and imploding with something else. */
  lemma {:induction false} ReplacedIsJoined(s: string, sep: string, r: string, i: nat)
    requires sep != "" && i <= |s|
    ensures Replaced(s, sep, r, i) == Joined(r, Parts(s, sep, i))
    decreases |s| - i
  {
    hide Find, Joined;
    var j := Find(s, sep, i);
    if j <= |s| {
      ReplacedIsJoined(s, sep, r, j + |sep|);
      JoinedCons(r, s[i..j], Parts(s, sep, j + |sep|));
    } else {
      JoinedOne(r, s[i..]);
    }
  }

  lemma SubSlice(s: string, i: nat, m: nat, k: nat, l: nat)
    requires k + l <= m && i + m <= |s|
    ensures s[i..i + m][k..k + l] == s[i + k..i + k + l]
  {
    var part, inner := s[i..i + m], s[i + k..i + k + l];
    forall x | 0 <= x < l ensures part[k..k + l][x] == inner[x] {
      assert part[k + x] == s[i + k + x];
    }
  }

  /** No part contains the separator. */
  lemma {:induction false} PartsAreFree(s: string, sep: string, i: nat, n: nat, k: nat)
    requires sep != "" && i <= |s| && n < |Parts(s, sep, i)| && k <= |Parts(s, sep, i)[n]|
    ensures !At(Parts(s, sep, i)[n], k, sep)
    decreases |s| - i
  {
    var j := Find(s, sep, i);
    FindFirst(s, sep, i);
    hide Find;
    var part := Parts(s, sep, i)[n];
    if j <= |s| && n > 0 {
      PartsAreFree(s, sep, j + |sep|, n - 1, k);
    } else if k + |sep| <= |part| {
      assert part == s[i..i + |part|] && i + |part| <= j;
      assert !At(s, i + k, sep);
      SubSlice(s, i, |part|, k, |sep|);
    }
  }

  lemma {:induction false} PartsShift(a: string, s: string, sep: string, i: nat)
    requires sep != "" && i <= |s|
    ensures Parts(a + s, sep, |a| + i) == Parts(s, sep, i)
    decreases |s| - i
  {
    hide Find;
    var j := Find(s, sep, i);
    FindShift(a, s, sep, i);
    if j <= |s| {
      PartsShift(a, s, sep, j + |sep|);
      SliceShift(a, s, i, j);
      PartsAt(s, sep, i);
      PartsAt(a + s, sep, |a| + i);
      hide Parts;
    } else {
      SliceShift(a, s, i, |s|);
    }
  }

  lemma PartsAt(s: string, sep: string, i: nat)
    requires sep != "" && i <= |s| && Find(s, sep, i) <= |s|
    ensures var j := Find(s, sep, i); Parts(s, sep, i) == [s[i..j]] + Parts(s, sep, j + |sep|)
  {
  }

  lemma SliceShift(a: string, s: string, i: nat, j: nat)
    requires i <= j <= |s|
    ensures (a + s)[|a| + i..|a| + j] == s[i..j] && (j == |s| ==> (a + s)[|a| + i..] == s[i..])
  {
  }

  /** A part that ends where the first separator begins, once one follows. */
  predicate Clean(part: string, sep: string) { Find(part + sep, sep, 0) == |part| }

  predicate Separable(parts: seq<string>, sep: string) {
    && parts != []
    && (forall k :: 0 <= k < |parts| - 1 ==> Clean(parts[k], sep))
    && Find(parts[|parts| - 1], sep, 0) > |parts[|parts| - 1]|
  }

  lemma {:induction false} FindIn(s: string, sep: string, rest: string, i: nat)
    requires sep != "" && i <= |s|
    ensures Find((s + sep) + rest, sep, i) == Find(s + sep, sep, i) <= |s|
    decreases |s| - i
  {
    AtIn(s, sep, rest, i);
    if i < |s| && !At(s + sep, i, sep) {
      FindIn(s, sep, rest, i + 1);
    }
  }

  lemma AtIn(s: string, sep: string, rest: string, i: nat)
    requires i <= |s|
    ensures At((s + sep) + rest, i, sep) == At(s + sep, i, sep) && (i == |s| ==> At(s + sep, i, sep))
  {
    assert ((s + sep) + rest)[i..i + |sep|] == (s + sep)[i..i + |sep|];
  }

  lemma SeparableTail(parts: seq<string>, sep: string)
    requires |parts| > 1
    ensures Separable(parts, sep) <==> Clean(parts[0], sep) && Separable(parts[1..], sep)
  {
    if Separable(parts[1..], sep) {
      forall k | 0 < k < |parts| - 1 ensures Clean(parts[k], sep) {
        assert parts[1..][k - 1] == parts[k];
      }
    }
  }

  /** Putting together and taking apart gives the list back exactly when no separator begins too early. */
  lemma {:induction false} PartsOfJoined(parts: seq<string>, sep: string)
    requires sep != "" && parts != []
    ensures Parts(Joined(sep, parts), sep, 0) == parts <==> Separable(parts, sep)
    decreases |parts|
  {
    var s := Joined(sep, parts);
    if |parts| == 1 {
      OnePart(s, sep);
    } else {
      var rest := Joined(sep, parts[1..]);
      FindIn(parts[0], sep, rest, 0);
      PartsOfJoined(parts[1..], sep);
      SeparableTail(parts, sep);
      FirstPart(parts, sep);
    }
  }

  lemma OnePart(s: string, sep: string)
    requires sep != ""
    ensures Parts(s, sep, 0) == [s] <==> Find(s, sep, 0) > |s|
  {
    if Find(s, sep, 0) <= |s| {
      assert |Parts(s, sep, 0)| > 1;
    }
  }

  lemma FirstPart(parts: seq<string>, sep: string)
    requires sep != "" && |parts| > 1
    requires var rest := Joined(sep, parts[1..]);
             Joined(sep, parts) == (parts[0] + sep) + rest
               && Find((parts[0] + sep) + rest, sep, 0) == Find(parts[0] + sep, sep, 0) <= |parts[0]|
    ensures Parts(Joined(sep, parts), sep, 0) == parts <==>
              Clean(parts[0], sep) && Parts(Joined(sep, parts[1..]), sep, 0) == parts[1..]
  {
    hide Find, Joined;
    var s, rest := Joined(sep, parts), Joined(sep, parts[1..]);
    var i := Find(s, sep, 0);
    if i == |parts[0]| {
      PartsShift(parts[0] + sep, rest, sep, 0);
      assert s[..i] == parts[0];
      assert parts == [parts[0]] + parts[1..];
      Cons(parts[0], Parts(rest, sep, 0));
    } else {
      assert |Parts(s, sep, 0)[0]| == i;
    }
  }

  // ----- The loops

  /** The inner loop of explode. */
  method Matches(s: string, i: nat, sep: string) returns (found: bool)
    requires i <= |s|
    ensures found == At(s, i, sep)
  {
    var j := 0;
    while i + j < |s| && j < |sep| && s[i + j] == sep[j]
      invariant 0 <= j <= |sep| && i + j <= |s| && forall k :: 0 <= k < j ==> s[i + k] == sep[k]
    {
      j := j + 1;
    }
    found := j == |sep|;
    if found {
      IsAt(s, i, sep);
    } else {
      IsNotAt(s, i, sep, j);
    }
  }

  lemma IsAt(s: string, i: nat, sep: string)
    requires i + |sep| <= |s| && forall k :: 0 <= k < |sep| ==> s[i + k] == sep[k]
    ensures At(s, i, sep)
  {
  }

  lemma IsNotAt(s: string, i: nat, sep: string, j: nat)
    requires j < |sep| && (i + j >= |s| || s[i + j] != sep[j])
    ensures !At(s, i, sep)
  {
    if i + |sep| <= |s| {
      assert s[i..i + |sep|][j] == s[i + j];
    }
  }

  method Explode(sep: string, s: string) returns (parts: seq<string>)
    ensures parts == if sep == "" then [] else Parts(s, sep, 0)
  {
    parts := [];
    if |sep| == 0 {
      return;
    }
    hide Find, At;
    var i: nat, k: nat := 0, 0;
    Empty(Parts(s, sep, 0));
    while i < |s|
      invariant 0 <= k <= i <= |s| && Find(s, sep, k) >= i
      invariant parts + Parts(s, sep, k) == Parts(s, sep, 0)
    {
      FindHere(s, sep, k, i);
      var found := Matches(s, i, sep);
      if found {
        Assoc(parts, [s[k..i]], Parts(s, sep, i + |sep|));
        parts := parts + [s[k..i]];
        i := i + |sep|;
        k := i;
      } else {
        i := i + 1;
      }
    }
    assert s[k..i] == s[k..];
    parts := parts + [s[k..i]];
  }

  method Implode(sep: string, parts: seq<string>) returns (r: string)
    ensures r == Joined(sep, parts)
  {
    r := "";
    if parts == [] {
      return;
    }
    r := parts[0];
    var i := 1;
    while i < |parts|
      invariant 1 <= i <= |parts|
      invariant i < |parts| ==> r + sep + Joined(sep, parts[i..]) == Joined(sep, parts)
      invariant i == |parts| ==> r == Joined(sep, parts)
    {
      assert parts[i..][1..] == parts[i + 1..];
      var after := Joined(sep, parts[i + 1..]);
      assert r + sep + (parts[i] + sep + after) == (r + (sep + parts[i])) + sep + after;
      r := r + (sep + parts[i]);
      i := i + 1;
    }
  }

  lemma Splice(done: string, rest: string, n: nat, m: nat, r: string)
    requires n + m <= |rest|
    ensures (done + rest)[..|done| + n] + r + (done + rest)[|done| + n + m..] == (done + rest[..n] + r) + rest[n + m..]
  {
  }

  lemma Slices(s: string, i: nat, j: nat, k: nat)
    requires i <= j <= k <= |s|
    ensures s[i..][..j - i] == s[i..j] && s[i..][k - i..] == s[k..]
  {
  }

  /** In place; what has been put in is not searched again, so it ends even if r contains sep. */
  method StrReplace(subject: string, sep: string, r: string) returns (result: string)
    requires sep != ""
    ensures result == Joined(r, Parts(subject, sep, 0))
  {
    hide Replaced, Joined, Parts, Find, At;
    result := subject;
    var pos: nat := 0;
    ghost var from: nat, done := 0, "";
    Empty(subject);
    assert subject[0..] == subject;
    Empty(Replaced(subject, sep, r, 0));
    var at := Find(result, sep, pos);
    while at <= |result|
      invariant 0 <= from <= |subject| && result == done + subject[from..] && pos == |done|
      invariant done + Replaced(subject, sep, r, from) == Replaced(subject, sep, r, 0)
      invariant at == Find(result, sep, pos)
      decreases |subject| - from
    {
      Corresponds(subject, sep, from, done);
      ghost var j := Find(subject, sep, from);
      ReplacedStep(subject, sep, r, from, done);
      Splice(done, subject[from..], j - from, |sep|, r);
      Slices(subject, from, j, j + |sep|);
      result := result[..at] + r + result[at + |sep|..];
      pos := at + |r|;
      done := done + subject[from..j] + r;
      from := j + |sep|;
      at := Find(result, sep, pos);
    }
    Corresponds(subject, sep, from, done);
    ReplacedEnd(subject, sep, r, from);
    ReplacedIsJoined(subject, sep, r, 0);
  }

  /** Searching behind what has been put in is searching in the subject. */
  lemma Corresponds(subject: string, sep: string, from: nat, done: string)
    requires from <= |subject|
    ensures Find(done + subject[from..], sep, |done|) - |done| == Find(subject, sep, from) - from
  {
    FindShift(done, subject[from..], sep, 0);
    FindShift(subject[..from], subject[from..], sep, 0);
    assert subject[..from] + subject[from..] == subject;
  }

  lemma ReplacedStep(s: string, sep: string, r: string, i: nat, done: string)
    requires sep != "" && i <= |s| && Find(s, sep, i) <= |s|
    ensures var j := Find(s, sep, i);
            done + Replaced(s, sep, r, i) == (done + s[i..j] + r) + Replaced(s, sep, r, j + |sep|)
  {
    var j := Find(s, sep, i);
    Assoc4(done, s[i..j], r, Replaced(s, sep, r, j + |sep|));
    Assoc(s[i..j], r, Replaced(s, sep, r, j + |sep|));
  }

  lemma ReplacedEnd(s: string, sep: string, r: string, i: nat)
    requires sep != "" && i <= |s| && Find(s, sep, i) > |s|
    ensures Replaced(s, sep, r, i) == s[i..]
  {
  }
}
