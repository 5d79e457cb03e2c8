/** Token pagination: the cursor is the identity at which the next page starts. */
module Pagination {
  import opened Wrappers
  import opened Lex

  newtype int32 = x: int | -0x8000_0000 <= x < 0x8000_0000

  /** The sorted identities, the half-open index range of the page, and the next token. */
  datatype Page = Page(ids: seq<string>, start: nat, end: nat, next: string)

  ghost predicate PageOf(ids: seq<string>, token: string, max: int, p: Page) {
    && Sorted(p.ids) && multiset(p.ids) == multiset(ids)
    && p.start <= p.end <= |p.ids|
    && (if token == "" then p.start == 0
        else p.start < |p.ids| && p.ids[p.start] == token && token !in p.ids[..p.start])
    && (if 0 < max < |p.ids| - p.start
        then p.end == p.start + max && p.next == p.ids[p.end]
        else p.end == |p.ids| && p.next == "")
  }

  ghost predicate IsPage(ids: seq<string>, token: string, max: int, r: Result<Page>) {
    if max < 0 then r == Err(InvalidArgument)
    else if token != "" && token !in ids then r == Err(Aborted)
    else r.Ok? && PageOf(ids, token, max, r.value)
  }

  lemma SameElements<T>(s: seq<T>, t: seq<T>)
    requires multiset(s) == multiset(t)
    ensures |s| == |t| && forall x :: x in s <==> x in t
  {
    assert |multiset(s)| == |s| && |multiset(t)| == |t|;
    forall x ensures x in s <==> x in t {
      assert x in s <==> x in multiset(s);
      assert x in t <==> x in multiset(t);
    }
  }

  method PaginateIdentities(identities: seq<string>, startingToken: string, maxEntries: int32)
    returns (r: Result<Page>)
    ensures IsPage(identities, startingToken, maxEntries as int, r)
    ensures r == Err(InvalidArgument) <==> maxEntries < 0
    ensures r == Err(Aborted) <==> maxEntries >= 0 && startingToken != "" && startingToken !in identities
    ensures r.Err? ==> r == Err(InvalidArgument) || r == Err(Aborted)
  {
    if maxEntries < 0 { return Err(InvalidArgument); }
    var sorted := new string[|identities|](i requires 0 <= i < |identities| => identities[i]);
    assert sorted[..] == identities;
    SortStrings(sorted);
    var ids := sorted[..];
    SameElements(ids, identities);

    var start := 0;
    if startingToken != "" {
      var found := false;
      for i := 0 to |ids|
        invariant !found && startingToken !in ids[..i]
      {
        if ids[i] == startingToken {
          start, found := i, true;
          break;
        }
      }
      if !found {
        assert ids[..|ids|] == ids;
        return Err(Aborted);
      }
    }

    var end, nextToken := |ids|, "";
    if maxEntries > 0 && maxEntries as int < end - start {
      end := start + maxEntries as int;
      nextToken := ids[end];
    }
    return Ok(Page(ids, start, end, nextToken));
  }

  lemma InSlice<T>(s: seq<T>, a: nat, b: nat)
    requires a <= b <= |s|
    ensures forall x :: x in s[a..b] <==> exists i :: a <= i < b && s[i] == x
  {
    forall x | x in s[a..b] ensures exists i :: a <= i < b && s[i] == x {
      var k :| 0 <= k < b - a && s[a..b][k] == x;
      assert s[a + k] == x;
    }
    forall i | a <= i < b ensures s[i] in s[a..b] {
      assert s[a..b][i - a] == s[i];
    }
  }

  /** The specification leaves no freedom. */
  lemma PageUnique(ids: seq<string>, token: string, max: int, p: Page, q: Page)
    requires PageOf(ids, token, max, p) && PageOf(ids, token, max, q)
    ensures p == q
  {
    SortedUnique(p.ids, q.ids);
    InSlice(p.ids, 0, p.start);
    InSlice(q.ids, 0, q.start);
  }

  function Entries(p: Page): seq<string>
    requires p.start <= p.end <= |p.ids|
  {
    p.ids[p.start..p.end]
  }

  lemma TwiceInMultiset<T>(s: seq<T>, i: nat, j: nat)
    requires i < j < |s| && s[i] == s[j]
    ensures multiset(s)[s[i]] >= 2
  {
    assert s == s[..j] + s[j..];
    assert s[..j][i] == s[i] && s[j..][0] == s[i];
    assert s[i] in multiset(s[..j]) && s[i] in multiset(s[j..]);
  }

  lemma {:induction false} DistinctCounts<T>(s: seq<T>)
    requires Distinct(s)
    ensures forall x :: multiset(s)[x] <= 1
  {
    if s == [] {
    } else {
      assert s == [s[0]] + s[1..];
      assert s[0] !in multiset(s[1..]);
      DistinctCounts(s[1..]);
    }
  }

  lemma DistinctPermutation<T>(s: seq<T>, t: seq<T>)
    requires Distinct(s) && multiset(s) == multiset(t)
    ensures Distinct(t)
  {
    DistinctCounts(s);
    forall i, j | 0 <= i < j < |t| ensures t[i] != t[j] {
      if t[i] == t[j] { TwiceInMultiset(t, i, j); }
    }
  }

  lemma PageStrictlySorted(ids: seq<string>, token: string, max: int, p: Page)
    requires Distinct(ids) && PageOf(ids, token, max, p)
    ensures StrictlySorted(p.ids)
  {
    DistinctPermutation(ids, p.ids);
    SortedDistinct(p.ids);
  }

  /** In strictly sorted ids, order of strings is order of positions. */
  lemma OrderIsPosition(ids: seq<string>, i: nat, j: nat)
    requires StrictlySorted(ids) && i < |ids| && j < |ids|
    ensures Less(ids[i], ids[j]) <==> i < j
  {
    if i == j { Irreflexive(ids[i]); }
    if i > j { Irreflexive(ids[j]); Order(ids[i], ids[j], ids[i]); Irreflexive(ids[i]); }
  }

  lemma SliceStrictlySorted(s: seq<string>, a: nat, b: nat)
    requires StrictlySorted(s) && a <= b <= |s|
    ensures StrictlySorted(s[a..b])
  {
    hide Less;
  }

  lemma EmptyIsLeast(x: string)
    requires x != ""
    ensures Less("", x)
  {
  }

  lemma NothingBelowEmpty(x: string)
    ensures !Less(x, "") && Leq("", x)
  {
  }

  /** The identities from the token on are those at or above it. */
  lemma StartsAtToken(ids: seq<string>, token: string, start: nat)
    requires StrictlySorted(ids) && (if token == "" then start == 0 else start < |ids| && ids[start] == token)
    ensures forall i :: 0 <= i < |ids| ==> (Leq(token, ids[i]) <==> start <= i)
  {
    hide Less;
    forall i | 0 <= i < |ids| ensures Leq(token, ids[i]) <==> start <= i {
      if token == "" { NothingBelowEmpty(ids[i]); } else { OrderIsPosition(ids, i, start); }
    }
  }

  /** The identity after a non-empty page is not empty and above the page's first. */
  lemma EndsAtNext(ids: seq<string>, start: nat, end: nat)
    requires StrictlySorted(ids) && start < end < |ids|
    ensures ids[end] != "" && Less(ids[start], ids[end])
  {
    NothingBelowEmpty(ids[start]);
  }

  /** A page of distinct identities is the half-open key interval from its token to the next
      token, in order; and a next token is a later key, never the empty one. */
  lemma PageIsInterval(ids: seq<string>, token: string, max: int, p: Page)
    requires Distinct(ids) && PageOf(ids, token, max, p)
    ensures StrictlySorted(Entries(p))
    ensures forall x :: x in Entries(p) <==> x in ids && Leq(token, x) && (p.next == "" || Less(x, p.next))
    ensures p.next != "" ==> p.next in ids && Less(token, p.next)
    ensures p.next == "" <==> p.end == |p.ids|
  {
    hide Less, Leq, Sorted;
    PageStrictlySorted(ids, token, max, p);
    SameElements(p.ids, ids);
    StartsAtToken(p.ids, token, p.start);
    if p.end < |p.ids| { EndsAtNext(p.ids, p.start, p.end); }
    forall i | 0 <= i < |p.ids| ensures p.end < |p.ids| ==> (Less(p.ids[i], p.next) <==> i < p.end) {
      if p.end < |p.ids| { OrderIsPosition(p.ids, i, p.end); }
    }
    if p.end < |p.ids| && token == "" { EmptyIsLeast(p.next); }
    InSlice(p.ids, p.start, p.end);
    SliceStrictlySorted(p.ids, p.start, p.end);
  }

  // ----- duplicated identities -----

  lemma {:induction false} CountConcat<T>(s: seq<T>, a: nat, b: nat, x: T)
    requires a <= b <= |s|
    ensures multiset(s)[x] == multiset(s[..a])[x] + multiset(s[a..b])[x] + multiset(s[b..])[x]
  {
    assert s == s[..a] + (s[a..b] + s[b..]);
  }

  lemma {:induction false} AllEqualCount<T>(s: seq<T>, x: T)
    requires forall i :: 0 <= i < |s| ==> s[i] == x
    ensures multiset(s)[x] == |s|
  {
    if s == [] {
    } else {
      assert s == [s[0]] + s[1..];
      AllEqualCount(s[1..], x);
    }
  }

  lemma CountAtMostLength<T>(s: seq<T>, x: T)
    ensures multiset(s)[x] <= |s|
    ensures x !in s ==> multiset(s)[x] == 0
  {
    assert multiset(s)[x] <= |multiset(s)| by {
      assert multiset(s) == multiset(s)[x := 0] + multiset{}[x := multiset(s)[x]];
    }
  }

  /** Between two equal elements a sorted sequence is constant. */
  lemma Squeeze(s: seq<string>, a: nat, b: nat)
    requires Sorted(s) && a <= b < |s| && s[a] == s[b]
    ensures forall i :: a <= i <= b ==> s[i] == s[a]
  {
    hide Less;
    forall i | a <= i <= b ensures s[i] == s[a] {
      Order(s[a], s[i], s[a]);
      Order(s[i], s[a], s[i]);
      if a < i < b { assert Leq(s[a], s[i]) && Leq(s[i], s[b]); }
    }
  }

  /** Why identities must be distinct: a page hands out its own token as the next token, and so
      is served again and again, exactly when more identities than fit the page equal it. */
  lemma StallsIff(ids: seq<string>, token: string, max: int, p: Page)
    requires PageOf(ids, token, max, p) && token != "" && max > 0
    ensures p.next == token <==> multiset(ids)[token] > max
  {
    hide Less;
    var s := p.ids;
    CountConcat(s, p.start, p.end, token);
    CountAtMostLength(s[..p.start], token);
    CountAtMostLength(s[p.start..p.end], token);
    if p.next == token {
      Squeeze(s, p.start, p.end);
      AllEqualCount(s[p.start..p.end], token);
      assert s[p.end] in multiset(s[p.end..]) by { assert s[p.end..][0] == s[p.end]; }
    } else {
      forall i | p.end <= i < |s| ensures s[i] != token {
        if s[i] == token { Squeeze(s, p.start, i); }
      }
      InSlice(s, p.end, |s|);
      assert s[p.end..] == s[p.end..|s|];
      CountAtMostLength(s[p.end..], token);
    }
  }
}
