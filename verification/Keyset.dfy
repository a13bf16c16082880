/**
 Keyset pagination of the item list (src/db.rs, list_items).

 Rows are ordered by (effective timestamp, id), newest first, and a page is asked for either by an
 offset or by the key of the last row of the page before.  A page is a function of the set of keys
 that match the filter when the query runs.
 */
module Keyset {
  import opened Sets
  import opened Wrappers
  import opened TextOrder

  datatype Key = Key(timestamp: string, id: string)

  datatype Page = Page(keys: seq<Key>, next: Option<Key>)

  predicate Below(a: Key, b: Key) {
    Less(a.timestamp, b.timestamp) || (a.timestamp == b.timestamp && Less(a.id, b.id))
  }

  lemma BelowIsTotal(a: Key, b: Key)
    ensures a == b || Below(a, b) || Below(b, a)
    ensures !(Below(a, b) && Below(b, a)) && !Below(a, a)
  {
    LessIsTotal(a.timestamp, b.timestamp);
    LessIsTotal(a.id, b.id);
    LessIsTotal(a.id, a.id);
    LessIsTotal(a.timestamp, a.timestamp);
  }

  lemma BelowIsTransitive(a: Key, b: Key, c: Key)
    requires Below(a, b) && Below(b, c)
    ensures Below(a, c)
  {
    if Less(a.timestamp, b.timestamp) && Less(b.timestamp, c.timestamp) {
      LessIsTransitive(a.timestamp, b.timestamp, c.timestamp);
    } else if a.timestamp == b.timestamp == c.timestamp {
      LessIsTransitive(a.id, b.id, c.id);
    }
  }

  // ---------------------------------------------------------------- the ordered query

  ghost predicate Decreasing(s: seq<Key>) {
    forall i, j | 0 <= i < j < |s| :: Below(s[j], s[i])
  }

  ghost predicate IsTop(k: Key, s: set<Key>) {
    k in s && forall j | j in s :: j == k || Below(j, k)
  }

  lemma {:induction false} TopExists(s: set<Key>)
    requires s != {}
    ensures exists k :: IsTop(k, s)
  {
    hide Below;
    var k :| k in s;
    var rest := s - {k};
    if rest == {} {
      assert s == {k};
      assert IsTop(k, s);
    } else {
      TopExists(rest);
      var t :| IsTop(t, rest);
      BelowIsTotal(k, t);
      if Below(t, k) {
        forall j | j in s ensures j == k || Below(j, k) {
          if j != k && j != t { BelowIsTransitive(j, t, k); }
        }
        assert IsTop(k, s);
      } else {
        assert IsTop(t, s);
      }
    }
  }

  ghost predicate SameElements(r: seq<Key>, s: set<Key>) {
    forall k :: k in r <==> k in s
  }

  /** ORDER BY timestamp DESC, id DESC, without repetition. */
  ghost predicate IsListing(r: seq<Key>, s: set<Key>) {
    Decreasing(r) && |r| == |s| && SameElements(r, s)
  }

  lemma TopFirst(s: set<Key>, k: Key, tail: seq<Key>)
    requires IsTop(k, s) && IsListing(tail, s - {k})
    ensures IsListing([k] + tail, s)
  {
    hide Below;
    var r := [k] + tail;
    forall i, j | 0 <= i < j < |r| ensures Below(r[j], r[i]) {
      assert tail[j - 1] in tail;
    }
    forall x ensures x in r <==> x in s {
      assert x in tail <==> x in s - {k};
    }
  }

  lemma {:induction false} ListingExists(s: set<Key>)
    ensures exists r :: IsListing(r, s)
    decreases s
  {
    hide Below, Decreasing, SameElements;
    if s == {} {
      NothingListed();
    } else {
      TopExists(s);
      var k :| IsTop(k, s);
      ListingExists(s - {k});
      var tail :| IsListing(tail, s - {k});
      TopFirst(s, k, tail);
    }
  }

  lemma NothingListed()
    ensures IsListing([], {})
    ensures forall s :: SameElements([], s) ==> s == {}
  {
    forall s: set<Key> | SameElements([], s) ensures s == {} {
      forall k ensures k !in s { assert k !in []; }
    }
  }

  /** The keys newest first. */
  ghost function Descending(s: set<Key>): (r: seq<Key>)
    ensures Decreasing(r) && |r| == |s| && SameElements(r, s)
  {
    ListingExists(s);
    var r :| IsListing(r, s);
    r
  }

  /** The head of a newest-first listing is the top of the set, and the tail lists the others. */
  lemma HeadIsTop(s: set<Key>, r: seq<Key>)
    requires r != [] && Decreasing(r) && SameElements(r, s)
    ensures IsTop(r[0], s)
    ensures Decreasing(r[1..]) && SameElements(r[1..], s - {r[0]})
  {
    hide Below;
    var h, tail := r[0], r[1..];
    assert h in r;
    assert forall j | 0 <= j < |tail| :: tail[j] == r[j + 1];
    forall x ensures x in tail <==> x in s - {h} {
      BelowIsTotal(h, h);
      assert r == [h] + tail;
      assert x in r <==> x == h || x in tail;
    }
    forall x | x in s ensures x == h || Below(x, h) {
      assert x in r;
      var j :| 0 <= j < |r| && r[j] == x;
    }
  }

  /** There is only one way to list a set of keys newest first. */
  lemma {:induction false} ListingIsUnique(s: set<Key>, a: seq<Key>, b: seq<Key>)
    requires Decreasing(a) && SameElements(a, s) && Decreasing(b) && SameElements(b, s)
    ensures a == b
    decreases |a|
  {
    hide Below, Decreasing, SameElements;
    NothingListed();
    if a == [] || b == [] {
      assert SameElements([], s);
      NothingLeft(a);
      NothingLeft(b);
    } else {
      HeadIsTop(s, a);
      HeadIsTop(s, b);
      BelowIsTotal(a[0], b[0]);
      ListingIsUnique(s - {a[0]}, a[1..], b[1..]);
      assert a == [a[0]] + a[1..] && b == [b[0]] + b[1..];
    }
  }

  lemma NothingLeft(r: seq<Key>)
    requires SameElements(r, {})
    ensures r == []
  {
    forall k ensures multiset(r)[k] == 0 { assert k !in r; }
    assert multiset(r) == multiset{} && |multiset(r)| == |r|;
  }

  lemma DescendingIsUnique(s: set<Key>, r: seq<Key>)
    requires Decreasing(r) && SameElements(r, s)
    ensures r == Descending(s)
  {
    ListingIsUnique(s, r, Descending(s));
  }

  lemma TopIsListedFirst(s: set<Key>, k: Key)
    requires IsTop(k, s)
    ensures Descending(s) == [k] + Descending(s - {k})
  {
    hide Below, Decreasing, SameElements;
    TopFirst(s, k, Descending(s - {k}));
    DescendingIsUnique(s, [k] + Descending(s - {k}));
  }

  function Clamp(limit: nat): (n: nat)
    ensures 1 <= n <= 200
  {
    if limit < 1 then 1 else if limit > 200 then 200 else limit
  }

  function Suffix<T>(s: seq<T>, n: nat): seq<T> { if n < |s| then s[n..] else [] }

  function Prefix<T>(s: seq<T>, n: nat): seq<T> { if n < |s| then s[..n] else s }

  ghost function Eligible(s: set<Key>, cursor: Option<Key>): set<Key> {
    set k | k in s && (cursor.None? || Below(k, cursor.value))
  }

  /** WHERE key < cursor ORDER BY ... LIMIT limit + 1 OFFSET (0 under a cursor). */
  ghost function Query(s: set<Key>, cursor: Option<Key>, limit: nat, offset: nat): seq<Key> {
    Prefix(Suffix(Descending(Eligible(s, cursor)), if cursor.Some? then 0 else offset), Clamp(limit) + 1)
  }

  /** The page cut from the rows of the query; the extra row only says that there is more. */
  function Cut(rows: seq<Key>, limit: nat): Page {
    if |rows| > Clamp(limit) then Page(rows[..|rows| - 1], if |rows| > 1 then Some(rows[|rows| - 2]) else None)
    else Page(rows, None)
  }

  ghost function PageOf(s: set<Key>, cursor: Option<Key>, limit: nat, offset: nat): Page {
    Cut(Query(s, cursor, limit, offset), limit)
  }

  // ---------------------------------------------------------------- one page

  /** In a newest-first listing, what is below an entry is what follows it. */
  lemma BelowIsAfter(r: seq<Key>, i: nat, k: Key)
    requires Decreasing(r) && i < |r|
    ensures k in r && Below(k, r[i]) <==> k in r[i + 1..]
  {
    var tail := r[i + 1..];
    if k in tail {
      var j :| 0 <= j < |tail| && tail[j] == k;
      assert r[i + 1 + j] == k;
    }
    if k in r && Below(k, r[i]) {
      var j :| 0 <= j < |r| && r[j] == k;
      BelowIsTotal(r[j], r[i]);
      assert tail[j - i - 1] == k;
    }
  }

  /** The rows below a row are the rows listed after it. */
  lemma EligibleIsSuffix(s: set<Key>, i: nat)
    requires i < |s|
    ensures Descending(Eligible(s, Some(Descending(s)[i]))) == Descending(s)[i + 1..]
  {
    var r := Descending(s);
    forall k ensures k in r[i + 1..] <==> k in Eligible(s, Some(r[i])) {
      BelowIsAfter(r, i, k);
    }
    DescendingIsUnique(Eligible(s, Some(r[i])), r[i + 1..]);
  }

  ghost function CutAt(r: seq<Key>, p: nat, limit: nat): Page {
    Cut(Prefix(Suffix(r, p), Clamp(limit) + 1), limit)
  }

  /** What a page cut at position `p` of a listing holds, and where it points. */
  lemma CutIsSlice(r: seq<Key>, p: nat, limit: nat)
    ensures var page := CutAt(r, p, limit);
            var end := p + Clamp(limit);
            if end < |r| then page == Page(r[p..end], Some(r[end - 1])) else page == Page(Suffix(r, p), None)
  {
  }

  lemma SuffixOfSlice(r: seq<Key>, p: nat)
    requires p <= |r|
    ensures Suffix(r[p..], 0) == Suffix(r, p)
  {
  }

  /** Under a cursor taken from the listing, a page goes on where the cursor's row stands. */
  lemma PageIsSlice(s: set<Key>, cursor: Option<Key>, limit: nat, offset: nat, p: nat)
    requires if cursor.None? then p == offset else 0 < p <= |s| && cursor.value == Descending(s)[p - 1]
    ensures PageOf(s, cursor, limit, offset) == CutAt(Descending(s), p, limit)
  {
    hide Below, Decreasing, Cut, Prefix, Suffix, SameElements, Descending;
    if cursor.None? {
      assert Eligible(s, cursor) == s;
    } else {
      EligibleIsSuffix(s, p - 1);
      SuffixOfSlice(Descending(s), p);
    }
  }

  // ---------------------------------------------------------------- walking an unchanging table

  function Concat(pages: seq<Page>): seq<Key> {
    if pages == [] then [] else pages[0].keys + Concat(pages[1..])
  }

  /** A next cursor is the last key delivered, so what is left to deliver shrinks. */
  lemma NextShrinks(s: set<Key>, cursor: Option<Key>, limit: nat, offset: nat)
    requires PageOf(s, cursor, limit, offset).next.Some?
    ensures |Eligible(s, PageOf(s, cursor, limit, offset).next)| < |Eligible(s, cursor)|
  {
    var e := Eligible(s, cursor);
    var d := Descending(e);
    var skip := if cursor.Some? then 0 else offset;
    CutIsSlice(d, skip, limit);
    var c := PageOf(s, cursor, limit, offset).next.value;
    assert c in d;
    var left := Eligible(s, Some(c));
    forall k | k in left ensures k in e - {c} {
      BelowIsTotal(k, c);
      if cursor.Some? { BelowIsTransitive(k, c, cursor.value); }
    }
    SubsetSize(left, e - {c});
  }

  /** The pages a client sees that follows every cursor while nothing changes. */
  ghost function Follow(s: set<Key>, cursor: Option<Key>, limit: nat, offset: nat): (pages: seq<Page>)
    ensures pages != []
    decreases |Eligible(s, cursor)|
  {
    var page := PageOf(s, cursor, limit, offset);
    if page.next.None? then [page] else
      NextShrinks(s, cursor, limit, offset);
      [page] + Follow(s, page.next, limit, 0)
  }

  ghost predicate FullButLast(pages: seq<Page>, limit: nat) {
    && pages != []
    && (forall i | 0 <= i < |pages| - 1 :: |pages[i].keys| == Clamp(limit) && pages[i].next == Some(pages[i].keys[|pages[i].keys| - 1]))
    && pages[|pages| - 1].next == None
    && |pages[|pages| - 1].keys| <= Clamp(limit)
  }

  lemma {:induction false} FollowFrom(s: set<Key>, cursor: Option<Key>, limit: nat, offset: nat, p: nat)
    requires if cursor.None? then p == offset else 0 < p <= |s| && cursor.value == Descending(s)[p - 1]
    ensures Concat(Follow(s, cursor, limit, offset)) == Suffix(Descending(s), p)
    ensures FullButLast(Follow(s, cursor, limit, offset), limit)
    decreases |Eligible(s, cursor)|
  {
    hide Below, Decreasing, PageOf, CutAt, Eligible, Concat, Descending, SameElements, FullButLast, Suffix;
    var r := Descending(s);
    PageIsSlice(s, cursor, limit, offset, p);
    CutIsSlice(r, p, limit);
    var page := PageOf(s, cursor, limit, offset);
    if page.next.Some? {
      var end := p + Clamp(limit);
      NextShrinks(s, cursor, limit, offset);
      FollowFrom(s, page.next, limit, 0, end);
      PageBefore(page, Follow(s, page.next, limit, 0), limit);
      SuffixSplits(r, p, end);
    } else {
      OnePage(page, limit);
      SuffixIsShort(r, p, limit);
    }
  }

  lemma SuffixSplits(r: seq<Key>, p: nat, end: nat)
    requires p <= end < |r|
    ensures Suffix(r, p) == r[p..end] + Suffix(r, end)
  {
    assert r[p..] == r[p..end] + r[end..];
  }

  lemma SuffixIsShort(r: seq<Key>, p: nat, limit: nat)
    requires p + Clamp(limit) >= |r|
    ensures |Suffix(r, p)| <= Clamp(limit)
  {
  }

  lemma OnePage(page: Page, limit: nat)
    ensures Concat([page]) == page.keys
    ensures page.next == None && |page.keys| <= Clamp(limit) ==> FullButLast([page], limit)
  {
    assert Concat([page]) == page.keys + Concat([]);
  }

  lemma PageBefore(page: Page, rest: seq<Page>, limit: nat)
    ensures Concat([page] + rest) == page.keys + Concat(rest)
    ensures FullButLast(rest, limit) && |page.keys| == Clamp(limit) && page.next == Some(page.keys[|page.keys| - 1]) ==>
              FullButLast([page] + rest, limit)
  {
    assert ([page] + rest)[1..] == rest;
  }

  /** Paging an unchanging table lists the matching rows newest first, from the offset on. */
  lemma PagingRefinesSorting(s: set<Key>, limit: nat, offset: nat)
    ensures Concat(Follow(s, None, limit, offset)) == Suffix(Descending(s), offset)
    ensures FullButLast(Follow(s, None, limit, offset), limit)
  {
    FollowFrom(s, None, limit, offset, offset);
  }
}
