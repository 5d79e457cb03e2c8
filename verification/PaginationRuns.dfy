/** Following NextToken from page to page. */
module PaginationRuns {
  import opened Wrappers
  import opened Lex
  import opened Pagination

  /** One call: the identities the API listed at that moment, max entries, and the page. */
  datatype Fetch = Fetch(ids: seq<string>, max: int, page: Page)

  /** The calls follow NextToken from `token` to the end, none of them failing. The identities
      may change in any way between two calls, and so may the page size. */
  ghost predicate Follows(token: string, calls: seq<Fetch>)
    decreases |calls|
  {
    calls != [] &&
    Distinct(calls[0].ids) && IsPage(calls[0].ids, token, calls[0].max, Ok(calls[0].page)) &&
    var next := calls[0].page.next;
    if |calls| == 1 then next == "" else next != "" && Follows(next, calls[1..])
  }

  /** All entries of all pages, as the caller saw them. */
  ghost function Listed(token: string, calls: seq<Fetch>): seq<string>
    requires Follows(token, calls)
    decreases |calls|
  {
    var page := calls[0].page;
    if |calls| == 1 then Entries(page) else Entries(page) + Listed(page.next, calls[1..])
  }

  ghost predicate PresentThroughout(x: string, calls: seq<Fetch>) {
    forall c :: c in calls ==> x in c.ids
  }

  ghost predicate PresentOnce(x: string, calls: seq<Fetch>) {
    exists c :: c in calls && x in c.ids
  }

  lemma JoinStrictlySorted(s: seq<string>, t: seq<string>, cut: string)
    requires StrictlySorted(s) && StrictlySorted(t)
    requires forall x :: x in s ==> Less(x, cut)
    requires forall x :: x in t ==> Leq(cut, x)
    ensures StrictlySorted(s + t)
  {
    hide Less, Leq;
    forall i, j | 0 <= i < j < |s + t| ensures Less((s + t)[i], (s + t)[j]) {
      if i < |s| <= j { Order(s[i], cut, t[j - |s|]); }
    }
  }

  lemma LeqIsNotLess(x: string, y: string)
    ensures Leq(y, x) <==> !Less(x, y)
  {
  }

  /** What is listed from a token on: in strict order, from the token up, only identities that
      were present, and all those that stayed present. */
  lemma {:induction false} ListedFrom(token: string, calls: seq<Fetch>)
    requires Follows(token, calls)
    ensures StrictlySorted(Listed(token, calls))
    ensures forall x :: x in Listed(token, calls) ==> Leq(token, x) && PresentOnce(x, calls)
    ensures forall x :: Leq(token, x) && PresentThroughout(x, calls) ==> x in Listed(token, calls)
    decreases |calls|
  {
    hide Less, Leq, StrictlySorted;
    var c, page := calls[0], calls[0].page;
    PageIsInterval(c.ids, token, c.max, page);
    if |calls| == 1 {
    } else {
      ListedFrom(page.next, calls[1..]);
      var rest := Listed(page.next, calls[1..]);
      JoinStrictlySorted(Entries(page), rest, page.next);
      forall x ensures Leq(page.next, x) <==> !Less(x, page.next) { LeqIsNotLess(x, page.next); }
      forall x | x in rest ensures Leq(token, x) && PresentOnce(x, calls) {
        Order(token, page.next, x);
        assert Leq(token, page.next);
      }
      forall x | Leq(token, x) && PresentThroughout(x, calls) ensures x in Listed(token, calls) {
        assert x in c.ids && PresentThroughout(x, calls[1..]);
      }
    }
  }

  /** Pagination under change: whatever happens to the collection between two pages, a run that
      reaches the end lists no identity twice, none that was never there, and every identity
      present throughout exactly once. */
  lemma PaginationUnderChange(calls: seq<Fetch>)
    requires Follows("", calls)
    ensures StrictlySorted(Listed("", calls)) && Distinct(Listed("", calls))
    ensures forall x :: x in Listed("", calls) ==> PresentOnce(x, calls)
    ensures forall x :: PresentThroughout(x, calls) ==> multiset(Listed("", calls))[x] == 1
  {
    ListedFrom("", calls);
    var all := Listed("", calls);
    StrictlySortedDistinct(all);
    DistinctCounts(all);
    forall x | PresentThroughout(x, calls) ensures multiset(all)[x] == 1 {
      NothingBelowEmpty(x);
      assert x in multiset(all);
    }
  }

  // ----- a collection that does not change -----

  ghost predicate Fixed(calls: seq<Fetch>, ids: seq<string>, k: int) {
    forall c :: c in calls ==> c.ids == ids && c.max == k
  }

  /** How many pages of k entries it takes to list m identities. */
  function PageCount(m: nat, k: nat): nat
    requires k > 0
  {
    if m <= k then 1 else 1 + PageCount(m - k, k)
  }

  lemma Times(a: int, b: int, k: int)
    requires a <= b && 0 <= k
    ensures a * k <= b * k
  {
  }

  lemma QuotientUnique(a: nat, k: nat, d: int, q: int)
    requires k > 0 && q * k <= a < q * k + k && d * k <= a < d * k + k
    ensures d == q
  {
    if d < q { Times(d + 1, q, k); } else if d > q { Times(q + 1, d, k); }
  }

  lemma QuotientOne(a: nat, k: nat)
    requires 0 < k <= a < k + k
    ensures a / k == 1
  {
    QuotientUnique(a, k, a / k, 1);
  }

  lemma QuotientStep(a: nat, k: nat)
    requires 0 < k <= a
    ensures a / k == (a - k) / k + 1
  {
    QuotientUnique(a, k, a / k, (a - k) / k + 1);
  }

  lemma {:induction false} PageCountIsCeiling(m: nat, k: nat)
    requires k > 0
    ensures PageCount(m, k) == if m == 0 then 1 else (m + k - 1) / k
  {
    if m <= k {
      QuotientOne(if m == 0 then k else m + k - 1, k);
    } else {
      PageCountIsCeiling(m - k, k);
      QuotientStep(m + k - 1, k);
    }
  }

  lemma FirstPage(token: string, calls: seq<Fetch>)
    requires Follows(token, calls)
    ensures |calls| > 0
    ensures Sorted(calls[0].page.ids) && multiset(calls[0].page.ids) == multiset(calls[0].ids)
    ensures token == "" ==> calls[0].page.start == 0
  {
    hide Less, Leq, Sorted, Distinct;
  }

  lemma FixedFirst(calls: seq<Fetch>, ids: seq<string>, k: int)
    requires Fixed(calls, ids, k) && |calls| > 0
    ensures calls[0] in calls && calls[0].ids == ids && calls[0].max == k
    ensures |calls| > 1 ==> calls[1].ids == ids && calls[1].max == k && Fixed(calls[1..], ids, k)
  {
  }

  lemma LastPageIff(ids: seq<string>, token: string, k: nat, p: Page)
    requires Distinct(ids) && PageOf(ids, token, k, p) && k > 0
    ensures p.next == "" ==> p.end == |p.ids| && |p.ids| - p.start <= k
    ensures p.next != "" ==> p.end == p.start + k < |p.ids|
  {
    hide Less, Leq, Sorted, StrictlySorted;
    PageIsInterval(ids, token, k, p);
  }

  /** Over an unchanged collection the next page starts where this one ended. */
  lemma NextPageStarts(ids: seq<string>, token: string, k: nat, p: Page, q: Page)
    requires Distinct(ids) && PageOf(ids, token, k, p) && p.next != "" && PageOf(ids, p.next, k, q)
    ensures q.ids == p.ids && q.start == p.end == p.start + k
  {
    hide Less;
    SortedUnique(p.ids, q.ids);
    PageStrictlySorted(ids, token, k, p);
    StrictlySortedDistinct(p.ids);
  }

  /** The pages from a token on join to the sorted identities from its position on. */
  lemma {:induction false} FixedListed(ids: seq<string>, k: nat, token: string, calls: seq<Fetch>)
    requires Follows(token, calls) && Fixed(calls, ids, k) && k > 0
    ensures |calls| > 0 && calls[0].page.start <= |calls[0].page.ids|
    ensures Listed(token, calls) == calls[0].page.ids[calls[0].page.start..]
    decreases |calls|
  {
    hide Less, Leq, Sorted, StrictlySorted, Distinct, Fixed;
    FixedFirst(calls, ids, k);
    var p := calls[0].page;
    LastPageIff(ids, token, k, p);
    if |calls| == 1 {
    } else {
      FixedListed(ids, k, p.next, calls[1..]);
      NextPageStarts(ids, token, k, p, calls[1].page);
      assert p.ids[p.start..] == p.ids[p.start..p.end] + p.ids[p.end..];
    }
  }

  lemma {:induction false} FixedCount(ids: seq<string>, k: nat, token: string, calls: seq<Fetch>)
    requires Follows(token, calls) && Fixed(calls, ids, k) && k > 0
    ensures |calls| > 0 && calls[0].page.start <= |calls[0].page.ids|
    ensures |calls| == PageCount(|calls[0].page.ids| - calls[0].page.start, k)
    decreases |calls|
  {
    hide Less, Leq, Sorted, StrictlySorted, Distinct, Fixed;
    FixedFirst(calls, ids, k);
    var p := calls[0].page;
    LastPageIff(ids, token, k, p);
    if |calls| == 1 {
    } else {
      FixedCount(ids, k, p.next, calls[1..]);
      NextPageStarts(ids, token, k, p, calls[1].page);
    }
  }

  /** Following NextToken over distinct identities with page size k takes as many calls as there
      are pages, and the pages joined are the sorted identities. */
  lemma FixedCollection(ids: seq<string>, k: nat, calls: seq<Fetch>)
    requires Follows("", calls) && Fixed(calls, ids, k) && k > 0
    ensures Sorted(Listed("", calls)) && multiset(Listed("", calls)) == multiset(ids)
    ensures |calls| == PageCount(|ids|, k)
  {
    hide *;
    FirstPage("", calls);
    var sorted := calls[0].page.ids;
    FixedListed(ids, k, "", calls);
    FixedCount(ids, k, "", calls);
    FixedFirst(calls, ids, k);
    SameElements(sorted, ids);
    assert sorted[0..] == sorted;
  }

  /** Only the first of strictly sorted strings can be empty. */
  lemma NotEmpty(sorted: seq<string>, i: nat)
    requires StrictlySorted(sorted) && 0 < i < |sorted|
    ensures sorted[i] != ""
  {
    NothingBelowEmpty(sorted[0]);
  }

  /** The page at a position of the sorted identities. */
  lemma PageAt(ids: seq<string>, k: nat, sorted: seq<string>, start: nat) returns (p: Page)
    requires Distinct(ids) && k > 0 && StrictlySorted(sorted) && multiset(sorted) == multiset(ids)
    requires start < |sorted| || start == 0
    ensures PageOf(ids, if start == 0 then "" else sorted[start], k, p) && p.ids == sorted && p.start == start
    ensures IsPage(ids, if start == 0 then "" else sorted[start], k, Ok(p))
    ensures if k < |sorted| - start then p.next == sorted[start + k] != "" else p.next == ""
  {
    hide Less, Leq;
    SameElements(sorted, ids);
    StrictlySortedDistinct(sorted);
    var more := k < |sorted| - start;
    if start > 0 { NotEmpty(sorted, start); }
    if more { NotEmpty(sorted, start + k); }
    p := Page(sorted, start, if more then start + k else |sorted|, if more then sorted[start + k] else "");
  }

  /** The walk always reaches the end: from any token of distinct identities there is a run. */
  lemma {:induction false} WalkEnds(ids: seq<string>, k: nat, sorted: seq<string>, start: nat)
    returns (calls: seq<Fetch>)
    requires Distinct(ids) && k > 0 && StrictlySorted(sorted) && multiset(sorted) == multiset(ids)
    requires start < |sorted| || start == 0
    ensures Follows(if start == 0 then "" else sorted[start], calls) && Fixed(calls, ids, k)
    ensures calls[0].page.ids == sorted && calls[0].page.start == start
    decreases |sorted| - start
  {
    hide Less, Leq, Sorted, StrictlySorted, Distinct;
    var token := if start == 0 then "" else sorted[start];
    var p := PageAt(ids, k, sorted, start);
    calls := [Fetch(ids, k, p)];
    if |sorted| - start <= k {
    } else {
      var rest := WalkEnds(ids, k, sorted, start + k);
      calls := calls + rest;
      assert calls[1..] == rest;
    }
  }
}
