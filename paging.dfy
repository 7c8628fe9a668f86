/** The list operations the catalogue pages share: `filter`, the "show more"
    prefix `slice(0, visibleCount)`, and the loop of `downloadPDF` that cuts a
    list into pages of `itemsPerPage` entries. */
module Paging {

  function Min(a: int, b: int): int {
    if a < b then a else b
  }

  /** `s.slice(0, n)`: the longest prefix of `s` with at most `n` entries. */
  function Take<T>(s: seq<T>, n: nat): (r: seq<T>)
    ensures r <= s
    ensures |r| == Min(n, |s|)
  {
    if n < |s| then s[..n] else s
  }

  /** Asking for at least as many entries as there are shows the whole list,
      and something stays hidden exactly when fewer are asked for. */
  lemma TakeHidesIffShort<T>(s: seq<T>, n: nat)
    ensures Take(s, n) == s <==> |s| <= n
  {
  }

  /** `s.filter(p)`. */
  function Filter<T>(s: seq<T>, p: T -> bool): (r: seq<T>)
    ensures |r| <= |s|
  {
    if s == [] then []
    else (if p(s[0]) then [s[0]] else []) + Filter(s[1..], p)
  }

  /** Every entry the filter keeps satisfies `p`. */
  lemma {:induction false} FilterSatisfies<T>(s: seq<T>, p: T -> bool)
    ensures forall i :: 0 <= i < |Filter(s, p)| ==> p(Filter(s, p)[i])
  {
    if s != [] {
      FilterSatisfies(s[1..], p);
      var head := if p(s[0]) then [s[0]] else [];
      forall i | 0 <= i < |Filter(s, p)| ensures p(Filter(s, p)[i]) {
        if i >= |head| {
          assert Filter(s, p)[i] == Filter(s[1..], p)[i - |head|];
        }
      }
    }
  }

  /** The filter keeps each entry satisfying `p` as often as it occurs, and no other entry. */
  lemma {:induction false} FilterCounts<T>(s: seq<T>, p: T -> bool)
    ensures forall x :: multiset(Filter(s, p))[x] == if p(x) then multiset(s)[x] else 0
  {
    if s != [] {
      FilterCounts(s[1..], p);
      assert s == [s[0]] + s[1..];
      var head := if p(s[0]) then [s[0]] else [];
      assert multiset(s) == multiset{s[0]} + multiset(s[1..]);
      assert multiset(Filter(s, p)) == multiset(head) + multiset(Filter(s[1..], p));
    }
  }

  /** Filtering a concatenation filters each part and keeps them in order; with
      the one-entry case this fixes both the entries kept and their order. */
  lemma {:induction false} FilterAppend<T>(s: seq<T>, t: seq<T>, p: T -> bool)
    ensures Filter(s + t, p) == Filter(s, p) + Filter(t, p)
  {
    if s == [] {
      assert s + t == t;
    } else {
      assert (s + t)[0] == s[0] && (s + t)[1..] == s[1..] + t;
      FilterAppend(s[1..], t, p);
      var head := if p(s[0]) then [s[0]] else [];
      assert Filter(s + t, p) == head + Filter(s[1..] + t, p);
      assert Filter(s, p) == head + Filter(s[1..], p);
    }
  }

  /** Keeping the entries that satisfy `p` once more changes nothing. */
  lemma {:induction false} FilterIdempotent<T>(s: seq<T>, p: T -> bool)
    ensures Filter(Filter(s, p), p) == Filter(s, p)
  {
    if s != [] {
      FilterIdempotent(s[1..], p);
      var head := if p(s[0]) then [s[0]] else [];
      FilterAppend(head, Filter(s[1..], p), p);
    }
  }

  /** When every entry satisfies `p`, the filter returns the list itself. */
  lemma {:induction false} FilterKeepsAll<T>(s: seq<T>, p: T -> bool)
    requires forall i :: 0 <= i < |s| ==> p(s[i])
    ensures Filter(s, p) == s
  {
    if s != [] {
      FilterKeepsAll(s[1..], p);
    }
  }

  /** Two filters with exclusive conditions select at most the whole list between them. */
  lemma {:induction false} FilterDisjointBound<T>(s: seq<T>, p: T -> bool, q: T -> bool)
    requires forall i :: 0 <= i < |s| ==> !(p(s[i]) && q(s[i]))
    ensures |Filter(s, p)| + |Filter(s, q)| <= |s|
  {
    if s != [] {
      FilterDisjointBound(s[1..], p, q);
    }
  }

  /** The entries of the pages one after the other. */
  function Flatten<T>(pages: seq<seq<T>>): seq<T> {
    if pages == [] then [] else Flatten(pages[..|pages| - 1]) + pages[|pages| - 1]
  }

  lemma FlattenPush<T>(pages: seq<seq<T>>, page: seq<T>)
    ensures Flatten(pages + [page]) == Flatten(pages) + page
  {
    assert (pages + [page])[..|pages|] == pages;
  }

  /** The `for (i = 0; i < items.length; i += perPage) pages.push(items.slice(i, i + perPage))`
      loop: the pages hold the items in order, none is empty, none exceeds
      `perPage`, and every page but the last is full. */
  method ChunkPages<T>(items: seq<T>, perPage: nat) returns (pages: seq<seq<T>>)
    requires perPage >= 1
    ensures Flatten(pages) == items
    ensures forall p :: 0 <= p < |pages| ==> 1 <= |pages[p]| <= perPage
    ensures forall p :: 0 <= p < |pages| - 1 ==> |pages[p]| == perPage
  {
    pages := [];
    var i: nat := 0;
    while i < |items|
      invariant Flatten(pages) == items[..Min(i, |items|)]
      invariant forall p :: 0 <= p < |pages| ==> 1 <= |pages[p]| <= perPage
      invariant forall p :: 0 <= p < |pages| - 1 ==> |pages[p]| == perPage
      invariant i < |items| ==> forall p :: 0 <= p < |pages| ==> |pages[p]| == perPage
      decreases |items| - i
    {
      var page := items[i..Min(i + perPage, |items|)];
      FlattenPush(pages, page);
      assert items[..Min(i + perPage, |items|)] == items[..i] + page;
      pages := pages + [page];
      i := i + perPage;
    }
  }

  /** Pages of one entry each: as many pages as entries, page `p` holding entry `p`. */
  lemma {:induction false} SingletonPages<T>(pages: seq<seq<T>>, items: seq<T>)
    requires Flatten(pages) == items
    requires forall p :: 0 <= p < |pages| ==> |pages[p]| == 1
    ensures |pages| == |items|
    ensures forall p :: 0 <= p < |pages| ==> pages[p] == [items[p]]
  {
    if pages != [] {
      var init := pages[..|pages| - 1];
      SingletonPages(init, Flatten(init));
      assert items == Flatten(init) + pages[|pages| - 1];
      forall p | 0 <= p < |pages| ensures pages[p] == [items[p]] {
        if p < |pages| - 1 {
          assert pages[p] == init[p];
        }
      }
    }
  }
}
