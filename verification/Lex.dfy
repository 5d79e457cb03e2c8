/** Go's order on strings: lexicographic. (On valid UTF-8, byte order is code-point order.) */
module Lex {

  predicate Less(a: string, b: string) {
    b != [] && (a == [] || a[0] < b[0] || (a[0] == b[0] && Less(a[1..], b[1..])))
  }

  predicate Leq(a: string, b: string) { !Less(b, a) }

  lemma {:induction false} Irreflexive(a: string)
    ensures !Less(a, a)
  {
    if a == [] {
    } else {
      Irreflexive(a[1..]);
    }
  }

  lemma {:induction false} Trichotomy(a: string, b: string)
    ensures Less(a, b) || a == b || Less(b, a)
  {
    if a == [] || b == [] || a[0] != b[0] {
    } else {
      Trichotomy(a[1..], b[1..]);
      if a[1..] == b[1..] { assert a == [a[0]] + a[1..] == [b[0]] + b[1..] == b; }
    }
  }

  lemma {:induction false} Transitive(a: string, b: string, c: string)
    requires Less(a, b) && Less(b, c)
    ensures Less(a, c)
  {
    if a == [] || a[0] != b[0] || b[0] != c[0] {
    } else {
      Transitive(a[1..], b[1..], c[1..]);
    }
  }

  /** All the order facts about three strings. */
  lemma Order(a: string, b: string, c: string)
    ensures Less(a, b) && Less(b, c) ==> Less(a, c)
    ensures Leq(a, b) && Leq(b, c) ==> Leq(a, c)
    ensures Leq(a, b) && Less(b, c) ==> Less(a, c)
    ensures Less(a, b) && Leq(b, c) ==> Less(a, c)
    ensures Leq(a, b) <==> Less(a, b) || a == b
  {
    Irreflexive(a); Irreflexive(b); Irreflexive(c);
    Trichotomy(a, b); Trichotomy(b, c);
    if Less(a, b) && Less(b, c) { Transitive(a, b, c); }
    if Less(a, b) && Less(b, a) { Transitive(a, b, a); }
    if Less(c, a) && Less(a, b) { Transitive(c, a, b); }
    if Less(b, c) && Less(c, a) { Transitive(b, c, a); }
  }

  ghost predicate Sorted(s: seq<string>) {
    forall i, j :: 0 <= i < j < |s| ==> Leq(s[i], s[j])
  }

  ghost predicate Distinct<T>(s: seq<T>) {
    forall i, j :: 0 <= i < j < |s| ==> s[i] != s[j]
  }

  ghost predicate StrictlySorted(s: seq<string>) {
    forall i, j :: 0 <= i < j < |s| ==> Less(s[i], s[j])
  }

  lemma SortedDistinct(s: seq<string>)
    requires Sorted(s) && Distinct(s)
    ensures StrictlySorted(s)
  {
    forall i, j | 0 <= i < j < |s| ensures Less(s[i], s[j]) { Order(s[i], s[j], s[j]); }
  }

  lemma StrictlySortedDistinct(s: seq<string>)
    requires StrictlySorted(s)
    ensures Sorted(s) && Distinct(s)
  {
    forall i, j | 0 <= i < j < |s| ensures Leq(s[i], s[j]) && s[i] != s[j] {
      Order(s[i], s[j], s[j]);
      Irreflexive(s[i]);
    }
  }

  /** The head of a sorted string sequence is below all its elements. */
  lemma HeadLeast(s: seq<string>, x: string)
    requires Sorted(s) && x in s
    ensures Leq(s[0], x)
  {
    var i :| 0 <= i < |s| && s[i] == x;
    if i == 0 { Irreflexive(x); }
  }

  lemma SameHead(s: seq<string>, t: seq<string>)
    requires Sorted(s) && Sorted(t) && multiset(s) == multiset(t) && s != [] && t != []
    ensures s[0] == t[0]
  {
    hide Less;
    assert s[0] in multiset(s) && t[0] in multiset(t);
    HeadLeast(s, t[0]);
    HeadLeast(t, s[0]);
    Order(s[0], t[0], t[0]);
  }

  /** A multiset of strings has one sorted listing. */
  lemma {:induction false} SortedUnique(s: seq<string>, t: seq<string>)
    requires Sorted(s) && Sorted(t) && multiset(s) == multiset(t)
    ensures s == t
  {
    hide Less, Leq;
    assert |s| == |multiset(s)| == |multiset(t)| == |t|;
    if s == [] {
    } else {
      SameHead(s, t);
      assert s == [s[0]] + s[1..] && t == [t[0]] + t[1..];
      assert multiset(s[1..]) == multiset(s) - multiset{s[0]};
      assert multiset(t[1..]) == multiset(t) - multiset{t[0]};
      SortedUnique(s[1..], t[1..]);
    }
  }

  /** s with x put in at position j. */
  function InsertAt(s: seq<string>, j: nat, x: string): seq<string>
    requires j <= |s|
  {
    s[..j] + [x] + s[j..]
  }

  /** x belongs at position j of s. */
  ghost predicate Fits(s: seq<string>, j: nat, x: string) {
    j <= |s| && (j > 0 ==> Leq(s[j - 1], x)) && (j < |s| ==> Less(x, s[j]))
  }

  lemma InsertBounds(s: seq<string>, j: nat, x: string, k: nat)
    requires Sorted(s) && Fits(s, j, x) && k < |s|
    ensures if k < j then Leq(s[k], x) else Leq(x, s[k])
  {
    hide Less, Leq;
    if k < j {
      if k < j - 1 { Order(s[k], s[j - 1], x); }
    } else {
      Order(x, s[j], s[j]);
      if k > j { Order(x, s[j], s[k]); }
    }
  }

  lemma InsertKeepsSorted(s: seq<string>, j: nat, x: string)
    requires Sorted(s) && Fits(s, j, x)
    ensures Sorted(InsertAt(s, j, x))
  {
    hide Less, Leq;
    var t := InsertAt(s, j, x);
    forall a, b | 0 <= a < b < |t| ensures Leq(t[a], t[b]) {
      if b == j {
        InsertBounds(s, j, x, a);
      } else if a == j {
        InsertBounds(s, j, x, b - 1);
      }
    }
  }

  lemma InsertPermutes(s: seq<string>, j: nat, x: string)
    requires j <= |s|
    ensures multiset(InsertAt(s, j, x)) == multiset(s) + multiset{x}
  {
    assert s == s[..j] + s[j..];
  }

  /** Moves a[i] down to its place in the sorted prefix before it. */
  method SinkInto(a: array<string>, i: nat)
    requires i < a.Length && Sorted(a[..i])
    modifies a
    ensures Sorted(a[..i + 1]) && multiset(a[..]) == multiset(old(a[..]))
  {
    hide Less, Sorted;
    ghost var s, x, rest := a[..i], a[i], a[i + 1..];
    assert old(a[..]) == s + [x] + rest;
    var j := i;
    while j > 0 && Less(a[j], a[j - 1])
      invariant 0 <= j <= i
      invariant forall k :: 0 <= k < j ==> a[k] == s[k]
      invariant a[j] == x
      invariant forall k :: j < k <= i ==> a[k] == s[k - 1]
      invariant forall k :: i < k < a.Length ==> a[k] == rest[k - i - 1]
      invariant j < i ==> Less(x, s[j])
    {
      a[j], a[j - 1] := a[j - 1], a[j];
      j := j - 1;
    }
    InsertKeepsSorted(s, j, x);
    InsertPermutes(s, j, x);
    assert a[..i + 1] == InsertAt(s, j, x);
    assert a[..] == InsertAt(s, j, x) + rest;
  }

  /** sort.Strings: in place, a sorted permutation. */
  method SortStrings(a: array<string>)
    modifies a
    ensures Sorted(a[..]) && multiset(a[..]) == multiset(old(a[..]))
  {
    for i := 0 to a.Length
      invariant Sorted(a[..i])
      invariant multiset(a[..]) == multiset(old(a[..]))
    {
      SinkInto(a, i);
    }
    assert a[..] == a[..a.Length];
  }
}
