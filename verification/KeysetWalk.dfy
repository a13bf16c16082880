/**
 Following the cursors of the item list while other requests change the table, and through the HTTP
 interface, which checks a cursor before it uses it (src/db.rs list_items, src/api.rs decode_cursor).
 */
module KeysetWalk {
  import opened Wrappers
  import opened Keyset

  /** Page i is cut from `tables[i]`, the matching keys when it was asked for, under the cursor of page i-1. */
  ghost predicate Walk(tables: seq<set<Key>>, pages: seq<Page>, cursor: Option<Key>, limit: nat, offset: nat)
    decreases |pages|
  {
    && |tables| == |pages| > 0
    && pages[0] == PageOf(tables[0], cursor, limit, offset)
    && (|pages| > 1 ==> pages[0].next.Some? && Walk(tables[1..], pages[1..], pages[0].next, limit, 0))
  }

  ghost predicate AllBelow(keys: seq<Key>, cursor: Option<Key>) {
    cursor.Some? ==> forall i | 0 <= i < |keys| :: Below(keys[i], cursor.value)
  }

  lemma CutShape(d: seq<Key>, p: nat, limit: nat)
    requires Decreasing(d)
    ensures var page := CutAt(d, p, limit);
            && Decreasing(page.keys) && (forall i | 0 <= i < |page.keys| :: page.keys[i] in d)
            && (page.next.Some? ==> page.keys != [] && page.next.value == page.keys[|page.keys| - 1])
  {
    CutIsSlice(d, p, limit);
    hide Below, Prefix, Cut, CutAt;
    var page := CutAt(d, p, limit);
    assert forall i | 0 <= i < |page.keys| :: page.keys[i] == d[p + i];
  }

  /** One page: newest first, under the cursor, and reaching down to the next cursor. */
  lemma PageShape(s: set<Key>, cursor: Option<Key>, limit: nat, offset: nat)
    ensures var page := PageOf(s, cursor, limit, offset);
            && Decreasing(page.keys) && AllBelow(page.keys, cursor)
            && (page.next.Some? ==> page.keys != [] && page.next.value == page.keys[|page.keys| - 1])
  {
    hide Below, Prefix, Cut, Suffix, Decreasing;
    var d := Descending(Eligible(s, cursor));
    CutShape(d, if cursor.Some? then 0 else offset, limit);
  }

  /** Where an entry of a listing ends up when a page is cut at position `p`. */
  lemma CutCovers(d: seq<Key>, p: nat, limit: nat, i: nat)
    requires Decreasing(d) && i < |d|
    ensures i < p ==> d[i] in Prefix(d, p) && AllBelow(CutAt(d, p, limit).keys, Some(d[i]))
    ensures p <= i < p + Clamp(limit) ==> d[i] in CutAt(d, p, limit).keys
    ensures i >= p + Clamp(limit) ==> CutAt(d, p, limit).next.Some? && Below(d[i], CutAt(d, p, limit).next.value)
  {
    hide Below, Clamp;
    CutIsSlice(d, p, limit);
    hide CutAt;
    var page := CutAt(d, p, limit);
    assert forall j | 0 <= j < |page.keys| :: page.keys[j] == d[p + j];
    if i < p {
      assert Prefix(d, p)[i] == d[i];
    } else if i < p + Clamp(limit) {
      assert page.keys[i - p] == d[i];
    }
  }

  /** An eligible key is skipped by the offset, on the page, or still ahead. */
  lemma PageCovers(s: set<Key>, cursor: Option<Key>, limit: nat, offset: nat, k: Key)
    requires k in Eligible(s, cursor)
    ensures var page := PageOf(s, cursor, limit, offset);
            || (cursor.None? && k in Prefix(Descending(s), offset))
            || k in page.keys
            || (page.next.Some? && Below(k, page.next.value))
  {
    hide Below, Prefix, Suffix, Cut;
    var e := Eligible(s, cursor);
    var d := Descending(e);
    assert k in d;
    var i :| 0 <= i < |d| && d[i] == k;
    CutCovers(d, if cursor.Some? then 0 else offset, limit, i);
    if cursor.None? { assert e == s; }
  }

  lemma {:induction false} DecreasingJoin(a: seq<Key>, b: seq<Key>)
    requires Decreasing(a) && Decreasing(b)
    requires a != [] && AllBelow(b, Some(a[|a| - 1]))
    ensures Decreasing(a + b)
  {
    var c := a + b;
    hide Below;
    forall i, j | 0 <= i < j < |c| ensures Below(c[j], c[i]) {
      if i < |a| <= j && i != |a| - 1 {
        BelowIsTransitive(c[j], a[|a| - 1], c[i]);
      }
    }
  }

  /** Whatever happens to the table, the delivered keys go strictly down. */
  lemma {:induction false} WalkDecreases(tables: seq<set<Key>>, pages: seq<Page>, cursor: Option<Key>, limit: nat, offset: nat)
    requires Walk(tables, pages, cursor, limit, offset)
    ensures Decreasing(Concat(pages)) && AllBelow(Concat(pages), cursor)
    decreases |pages|
  {
    hide Below, PageOf, Concat, Decreasing;
    PageShape(tables[0], cursor, limit, offset);
    if |pages| == 1 {
      OnePage(pages[0], limit);
      assert pages == [pages[0]];
    } else {
      var rest := pages[1..];
      WalkDecreases(tables[1..], rest, pages[0].next, limit, 0);
      PageBefore(pages[0], rest, limit);
      assert pages == [pages[0]] + rest;
      DecreasingJoin(pages[0].keys, Concat(rest));
      BelowChain(Concat(rest), pages[0].next.value, cursor);
    }
  }

  lemma BelowChain(keys: seq<Key>, c: Key, cursor: Option<Key>)
    requires AllBelow(keys, Some(c)) && (cursor.Some? ==> Below(c, cursor.value))
    ensures AllBelow(keys, cursor)
  {
    if cursor.Some? {
      forall i | 0 <= i < |keys| ensures Below(keys[i], cursor.value) {
        BelowIsTransitive(keys[i], c, cursor.value);
      }
    }
  }

  lemma {:induction false} OnceAtMost(r: seq<Key>, k: Key)
    requires Decreasing(r)
    ensures multiset(r)[k] == if k in r then 1 else 0
  {
    if r == [] {
    } else {
      assert r == [r[0]] + r[1..];
      assert forall i | 0 <= i < |r| - 1 :: r[1..][i] == r[i + 1];
      OnceAtMost(r[1..], k);
      if k == r[0] && k in r[1..] {
        BelowIsTotal(k, k);
        assert false;
      }
    }
  }

  /** Delivered at some page, if the key is eligible throughout and not skipped at the start. */
  lemma {:induction false} StableIsReached(tables: seq<set<Key>>, pages: seq<Page>, cursor: Option<Key>, limit: nat, offset: nat, k: Key)
    requires Walk(tables, pages, cursor, limit, offset) && pages[|pages| - 1].next.None?
    requires forall i | 0 <= i < |tables| :: k in tables[i]
    requires cursor.Some? ==> Below(k, cursor.value)
    ensures k in Concat(pages) || (cursor.None? && k in Prefix(Descending(tables[0]), offset))
    decreases |pages|
  {
    hide Below, PageOf, Concat, Descending;
    PageCovers(tables[0], cursor, limit, offset, k);
    if |pages| == 1 {
      OnePage(pages[0], limit);
      assert pages == [pages[0]];
    } else {
      var rest := pages[1..];
      PageBefore(pages[0], rest, limit);
      assert pages == [pages[0]] + rest;
      if Below(k, pages[0].next.value) {
        assert forall i | 0 <= i < |tables| - 1 :: tables[1..][i] == tables[i + 1];
        assert rest[|rest| - 1] == pages[|pages| - 1];
        StableIsReached(tables[1..], rest, pages[0].next, limit, 0, k);
      }
    }
  }

  lemma NotAmong(k: Key, keys: seq<Key>)
    requires AllBelow(keys, Some(k))
    ensures k !in keys
  {
    BelowIsTotal(k, k);
  }

  lemma FirstPageIsBelow(s: set<Key>, limit: nat, offset: nat, k: Key)
    requires k in Prefix(Descending(s), offset)
    ensures AllBelow(PageOf(s, None, limit, offset).keys, Some(k))
  {
    hide Below, Cut, Suffix;
    var d := Descending(s);
    assert Eligible(s, None) == s;
    var i :| 0 <= i < |Prefix(d, offset)| && d[i] == k;
    CutCovers(d, offset, limit, i);
  }

  /** What the offset skips is above every key delivered. */
  lemma SkippedIsAbove(tables: seq<set<Key>>, pages: seq<Page>, limit: nat, offset: nat, k: Key)
    requires Walk(tables, pages, None, limit, offset)
    requires k in Prefix(Descending(tables[0]), offset)
    ensures k !in Concat(pages)
  {
    hide Below, Concat, Decreasing, PageOf, Prefix, Descending;
    FirstPageIsBelow(tables[0], limit, offset, k);
    PageShape(tables[0], None, limit, offset);
    NotAmong(k, pages[0].keys);
    if |pages| > 1 {
      var rest := pages[1..];
      WalkDecreases(tables[1..], rest, pages[0].next, limit, 0);
      BelowChain(Concat(rest), pages[0].next.value, Some(k));
      NotAmong(k, Concat(rest));
      PageBefore(pages[0], rest, limit);
      assert pages == [pages[0]] + rest;
    } else {
      OnePage(pages[0], limit);
      assert pages == [pages[0]];
    }
  }

  /**
   The walk theorem: a key that stays in the table and keeps matching is delivered exactly once by a
   walk that ends, unless the offset of its first request skipped it, and then never.
   */
  lemma StableDeliveredOnce(tables: seq<set<Key>>, pages: seq<Page>, limit: nat, offset: nat, k: Key)
    requires Walk(tables, pages, None, limit, offset) && pages[|pages| - 1].next.None?
    requires forall i | 0 <= i < |tables| :: k in tables[i]
    ensures multiset(Concat(pages))[k] == if k in Prefix(Descending(tables[0]), offset) then 0 else 1
  {
    WalkDecreases(tables, pages, None, limit, offset);
    OnceAtMost(Concat(pages), k);
    StableIsReached(tables, pages, None, limit, offset, k);
    if k in Prefix(Descending(tables[0]), offset) {
      SkippedIsAbove(tables, pages, limit, offset, k);
    }
  }

  // ---------------------------------------------------------------- through the HTTP interface

  /** The pages a client gets when the interface refuses any cursor that `accepts` does not hold of. */
  ghost function Request(s: set<Key>, accepts: Key -> bool, cursor: Option<Key>, limit: nat, offset: nat): (r: (seq<Page>, bool))
    ensures r.0 != []
    decreases |Eligible(s, cursor)|
  {
    var page := PageOf(s, cursor, limit, offset);
    if page.next.None? then ([page], true)
    else if !accepts(page.next.value) then ([page], false)
    else
      NextShrinks(s, cursor, limit, offset);
      var rest := Request(s, accepts, page.next, limit, 0);
      ([page] + rest.0, rest.1)
  }

  /** Position `q` ends a full page when pages of `n` rows are counted from position `p`. */
  predicate Boundary(p: nat, q: nat, n: nat)
    requires n > 0
  {
    p < q && (q - p) % n == 0
  }

  /** Every row that ends a full page before the last has an accepted key. */
  ghost predicate BoundariesAccepted(s: set<Key>, accepts: Key -> bool, limit: nat, p: nat) {
    forall q: nat | q < |s| && Boundary(p, q, Clamp(limit)) :: accepts(Descending(s)[q - 1])
  }

  lemma MulAtMost(a: int, b: int, n: nat)
    requires a <= b
    ensures a * n <= b * n
  {
  }

  lemma RemainderIsUnique(a: nat, d: nat, r: nat, n: nat)
    requires n > 0 && a == d * n + r && r < n
    ensures a % n == r
  {
    var k := a / n - d;
    assert a == (a / n) * n + a % n;
    assert k * n == r - a % n;
    if k >= 1 { MulAtMost(1, k, n); }
    if k <= -1 { MulAtMost(k, -1, n); }
  }

  /** The boundaries after `p` are `p + n` and the boundaries after it. */
  lemma NextBoundary(p: nat, q: nat, n: nat)
    requires n > 0
    ensures Boundary(p, q, n) <==> q == p + n || Boundary(p + n, q, n)
  {
    if p < q < p + n {
      RemainderIsUnique(q - p, 0, q - p, n);
    } else if q >= p + n {
      var a := q - (p + n);
      assert a == (a / n) * n + a % n;
      RemainderIsUnique(q - p, a / n + 1, a % n, n);
    }
  }

  lemma {:induction false} RequestFrom(s: set<Key>, accepts: Key -> bool, cursor: Option<Key>, limit: nat, offset: nat, p: nat)
    requires if cursor.None? then p == offset else 0 < p <= |s| && cursor.value == Descending(s)[p - 1]
    ensures Request(s, accepts, cursor, limit, offset).1 <==> BoundariesAccepted(s, accepts, limit, p)
    ensures Request(s, accepts, cursor, limit, offset).1 ==>
              Request(s, accepts, cursor, limit, offset).0 == Follow(s, cursor, limit, offset)
    decreases |Eligible(s, cursor)|
  {
    hide Below, Decreasing, PageOf, CutAt, Eligible, Descending, SameElements, BoundariesAccepted;
    PageIsSlice(s, cursor, limit, offset, p);
    CutIsSlice(Descending(s), p, limit);
    AcceptedUnfolds(s, accepts, limit, p);
    var page := PageOf(s, cursor, limit, offset);
    if page.next.Some? {
      NextShrinks(s, cursor, limit, offset);
      RequestFrom(s, accepts, page.next, limit, 0, p + Clamp(limit));
    }
  }

  lemma AcceptedUnfolds(s: set<Key>, accepts: Key -> bool, limit: nat, p: nat)
    ensures p + Clamp(limit) >= |s| ==> BoundariesAccepted(s, accepts, limit, p)
    ensures p + Clamp(limit) < |s| ==>
              (BoundariesAccepted(s, accepts, limit, p) <==>
                accepts(Descending(s)[p + Clamp(limit) - 1]) && BoundariesAccepted(s, accepts, limit, p + Clamp(limit)))
  {
    hide Descending;
    var n := Clamp(limit);
    var m := p + n;
    NextBoundary(p, m, n);
    forall q: nat | q < |s| ensures Boundary(p, q, n) ==> m < |s|
                            ensures Boundary(p, q, n) <==> q == m || Boundary(m, q, n)
    {
      NextBoundary(p, q, n);
      BoundaryIsFar(p, q, n);
    }
    if m < |s| && BoundariesAccepted(s, accepts, limit, p) {
      assert accepts(Descending(s)[m - 1]);
      forall q: nat | q < |s| && Boundary(m, q, n) ensures accepts(Descending(s)[q - 1]) {
        assert Boundary(p, q, n);
      }
    }
  }

  lemma BoundaryIsFar(p: nat, q: nat, n: nat)
    requires n > 0
    ensures Boundary(p, q, n) ==> q >= p + n
  {
    if p < q < p + n {
      RemainderIsUnique(q - p, 0, q - p, n);
    }
  }

  /** A client reaches the end of an unchanging list exactly when every page boundary has an accepted key. */
  lemma RequestCompletes(s: set<Key>, accepts: Key -> bool, limit: nat, offset: nat)
    ensures Request(s, accepts, None, limit, offset).1 <==> BoundariesAccepted(s, accepts, limit, offset)
    ensures Request(s, accepts, None, limit, offset).1 ==>
              Concat(Request(s, accepts, None, limit, offset).0) == Suffix(Descending(s), offset)
  {
    RequestFrom(s, accepts, None, limit, offset, offset);
    PagingRefinesSorting(s, limit, offset);
  }

  /** Two rows and a page of one: a refused key at the boundary ends the walk with a row undelivered. */
  lemma RefusedBoundaryStopsTheClient(accepts: Key -> bool, a: Key, b: Key)
    requires Below(a, b) && !accepts(b)
    ensures !Request({b, a}, accepts, None, 1, 0).1
  {
    TwoDescending(b, a);
    RequestCompletes({b, a}, accepts, 1, 0);
    hide Request, Below, Descending, SameElements, Suffix, Concat;
    NextBoundary(0, 1, 1);
    assert !accepts(Descending({b, a})[1 - 1]);
  }

  lemma TwoDescending(b: Key, a: Key)
    requires Below(a, b)
    ensures Descending({b, a}) == [b, a] && |{b, a}| == 2
  {
    BelowIsTotal(a, b);
    hide Below;
    DescendingIsUnique({b, a}, [b, a]);
  }
}
