/** A client that reads the item list to its end, page by page (src/db.rs, list_items). */
module ListClient {
  import opened Wrappers
  import opened TextOrder
  import opened ItemMerge
  import opened Keyset
  import opened Tables
  import opened ListView
  import opened Store

  /** One more page of a listing `d` that has been read up to position `p`. */
  lemma PageContinues(m: set<Key>, cursor: Option<Key>, limit: nat, p: nat, page: Page)
    requires if cursor.None? then p == 0 else 0 < p <= |m| && cursor.value == Descending(m)[p - 1]
    requires page == PageOf(m, cursor, limit, 0)
    ensures var d := Descending(m);
            if page.next.None? then p <= |d| && page.keys == d[p..]
            else p < p + |page.keys| < |d| && page.keys == d[p..p + |page.keys|] && page.next.value == d[p + |page.keys| - 1]
  {
    hide Descending, PageOf, Decreasing, SameElements, Below, Eligible, CutAt;
    PageIsSlice(m, cursor, limit, 0, p);
    CutIsSlice(Descending(m), p, limit);
  }

  lemma KeysJoin(a: seq<Item>, b: seq<Item>)
    ensures KeysOf(a + b) == KeysOf(a) + KeysOf(b)
  {
  }

  /** A list of stored items with the keys of the whole listing holds what passes the filter, once each and in order. */
  lemma WholeListing(items: Table, validations: Validations, filter: Filter, list: seq<Item>)
    requires WellKeyed(items) && (forall x | x in list :: x.id in items && items[x.id] == x)
    requires KeysOf(list) == Descending(Matching(items, validations, filter))
    ensures forall x :: x in list <==> Passes(items, validations, filter, x)
    ensures ShownInOrder(list)
  {
    hide Passes, Matching, KeyOf, Decreasing, ShownInOrder;
    var m := Matching(items, validations, filter);
    KeysShowOrder(list);
    forall x ensures x in list <==> Passes(items, validations, filter, x) {
      if x in list {
        KeyOfMember(list, x);
        assert KeyOf(x) in Descending(m);
        MatchingIsPassing(items, validations, filter, x);
      }
      if Passes(items, validations, filter, x) {
        PassingIsStored(items, validations, filter, x);
        MatchingIsPassing(items, validations, filter, x);
        assert KeyOf(x) in KeysOf(list);
        KeyTellsItem(items, list, x);
      }
    }
  }

  lemma PassingIsStored(items: Table, validations: Validations, filter: Filter, x: Item)
    requires Passes(items, validations, filter, x)
    ensures x.id in items && items[x.id] == x
  {
  }

  lemma KeyTellsItem(items: Table, list: seq<Item>, x: Item)
    requires forall y | y in list :: y.id in items && items[y.id] == y
    requires x.id in items && items[x.id] == x && KeyOf(x) in KeysOf(list)
    ensures x in list
  {
    var i :| 0 <= i < |list| && KeysOf(list)[i] == KeyOf(x);
    assert list[i] in list && list[i].id == x.id;
  }

  /** Following the cursors from the start delivers every stored item that passes the filter exactly once, in order. */
  method ReadAll(repository: Repository, filter: Filter, limit: nat) returns (list: seq<Item>)
    requires repository.Valid()
    ensures forall x :: x in list <==> Passes(repository.items, repository.validations, filter, x)
    ensures ShownInOrder(list)
    ensures forall i, j | 0 <= i < j < |list| :: list[i].id != list[j].id
  {
    ghost var m := Matching(repository.items, repository.validations, filter);
    var cursor: Option<Key> := None;
    var ended := false;
    list := [];
    while !ended
      invariant forall x | x in list :: x.id in repository.items && repository.items[x.id] == x
      invariant Reading(m, list, cursor, ended)
      decreases !ended, |m| - |list|
    {
      var page, next := repository.ListItems(filter, limit, 0, cursor);
      ReadingGoesOn(m, list, cursor, limit, page, next);
      list := list + page;
      cursor := next;
      ended := next.None?;
    }
    WholeListing(repository.items, repository.validations, filter, list);
    NoneTwice(repository.items, list);
  }

  /** The list read so far is the beginning of the listing up to the cursor, or all of it. */
  ghost predicate Reading(m: set<Key>, list: seq<Item>, cursor: Option<Key>, ended: bool) {
    && |list| <= |m| && KeysOf(list) == Descending(m)[..|list|]
    && (ended ==> |list| == |m|)
    && (!ended && cursor.None? ==> list == [])
    && (!ended && cursor.Some? ==> list != [] && cursor.value == Descending(m)[|list| - 1])
  }

  lemma BeginningGrows(d: seq<Key>, p: nat, q: nat)
    requires p <= q <= |d|
    ensures d[..p] + d[p..q] == d[..q] && d[p..] == d[p..|d|] && d[..|d|] == d
  {
  }

  lemma ReadingGoesOn(m: set<Key>, list: seq<Item>, cursor: Option<Key>, limit: nat, page: seq<Item>, next: Option<Key>)
    requires Reading(m, list, cursor, false) && Page(KeysOf(page), next) == PageOf(m, cursor, limit, 0)
    ensures Reading(m, list + page, next, next.None?)
    ensures next.Some? ==> page != []
  {
    hide Decreasing, SameElements, PageOf, KeyOf, Descending;
    PageContinues(m, cursor, limit, |list|, Page(KeysOf(page), next));
    KeysJoin(list, page);
    assert |Descending(m)| == |m|;
    assert |KeysOf(page)| == |page|;
    hide KeysOf;
    BeginningGrows(Descending(m), |list|, if next.None? then |m| else |list| + |page|);
  }

  lemma NoneTwice(items: Table, list: seq<Item>)
    requires ShownInOrder(list) && forall x | x in list :: x.id in items && items[x.id] == x
    ensures forall i, j | 0 <= i < j < |list| :: list[i].id != list[j].id
  {
    forall i, j | 0 <= i < j < |list| ensures list[i].id != list[j].id {
      LessIsTotal(TimeShown(list[i]), TimeShown(list[i]));
      LessIsTotal(list[i].id, list[i].id);
      assert StandsBelow(list[j], list[i]);
    }
  }
}
