/** What a page of the item list shows, told from the items themselves (src/db.rs, list_items). */
module ListView {
  import opened Wrappers
  import opened TextOrder
  import opened ItemMerge
  import opened Keyset
  import opened KeysetWalk
  import opened Tables
  import Evidence

  type Filter = (Item, Option<Evidence.Validation>) -> bool

  /** A stored item that passes the filter together with the validation stored for its CVE. */
  ghost predicate Passes(items: Table, validations: Validations, filter: Filter, x: Item) {
    && x.id in items && items[x.id] == x
    && filter(x, if x.cveId.Some? && x.cveId.value in validations then Some(validations[x.cveId.value]) else None)
  }

  /** Publication, else the source's update, else ingestion. */
  function TimeShown(x: Item): string {
    match x.publishedAt
    case Some(t) => t
    case None => match x.sourceUpdatedAt case Some(t) => t case None => x.ingestedAt
  }

  /** `y` stands below `x`: an earlier time, or the same time and a smaller id. */
  predicate StandsBelow(y: Item, x: Item) {
    Less(TimeShown(y), TimeShown(x)) || (TimeShown(y) == TimeShown(x) && Less(y.id, x.id))
  }

  ghost predicate ShownInOrder(list: seq<Item>) {
    forall i, j | 0 <= i < j < |list| :: StandsBelow(list[j], list[i])
  }

  /** The keys of matching rows are those of the items that pass. */
  lemma MatchingIsPassing(items: Table, validations: Validations, filter: Filter, x: Item)
    requires WellKeyed(items) && x.id in items && items[x.id] == x
    ensures KeyOf(x) in Matching(items, validations, filter) <==> Passes(items, validations, filter, x)
  {
  }

  lemma KeysShowOrder(list: seq<Item>)
    ensures Decreasing(KeysOf(list)) <==> ShownInOrder(list)
  {
    hide Less;
  }

  /** The least and the most a page may hold, whatever limit is asked for. */
  function PageSize(limit: nat): nat {
    if limit == 0 then 1 else if limit <= 200 then limit else 200
  }

  lemma {:induction false} PageSizes(s: set<Key>, cursor: Option<Key>, limit: nat, offset: nat)
    ensures var page := PageOf(s, cursor, limit, offset);
            |page.keys| <= PageSize(limit) && (page.next.Some? ==> |page.keys| == PageSize(limit))
  {
    CutIsSlice(Descending(Eligible(s, cursor)), if cursor.Some? then 0 else offset, limit);
    hide Decreasing, Below, SameElements;
  }

  lemma PageIsEligible(s: set<Key>, cursor: Option<Key>, limit: nat, offset: nat, k: Key)
    requires k in PageOf(s, cursor, limit, offset).keys
    ensures k in s
  {
    hide Below, Decreasing;
    CutIsSlice(Descending(Eligible(s, cursor)), if cursor.Some? then 0 else offset, limit);
    assert k in Descending(Eligible(s, cursor));
  }

  /** What a page shows. */
  ghost predicate Shows(items: Table, validations: Validations, filter: Filter, limit: nat, cursor: Option<Key>, page: seq<Item>, next: Option<Key>) {
    && (forall x | x in page :: Passes(items, validations, filter, x))
    && ShownInOrder(page)
    && (cursor.Some? ==> forall x | x in page :: Below(Key(TimeShown(x), x.id), cursor.value))
    && |page| <= PageSize(limit)
    && (next.Some? ==> |page| == PageSize(limit) && next.value == Key(TimeShown(page[|page| - 1]), page[|page| - 1].id))
  }

  lemma KeyIsShown(x: Item)
    ensures KeyOf(x) == Key(TimeShown(x), x.id)
  {
  }

  lemma KeyOfMember(page: seq<Item>, x: Item)
    requires x in page
    ensures KeyOf(x) in KeysOf(page)
  {
    hide KeyOf;
    var i :| 0 <= i < |page| && page[i] == x;
    assert KeysOf(page)[i] == KeyOf(x);
  }

  lemma PagePasses(items: Table, validations: Validations, filter: Filter, limit: nat, offset: nat, cursor: Option<Key>, page: seq<Item>)
    requires WellKeyed(items) && (forall x | x in page :: x.id in items && items[x.id] == x)
    requires KeysOf(page) == PageOf(Matching(items, validations, filter), cursor, limit, offset).keys
    ensures forall x | x in page :: Passes(items, validations, filter, x)
  {
    hide PageOf, Passes, Matching, KeyOf;
    forall x | x in page ensures Passes(items, validations, filter, x) {
      KeyOfMember(page, x);
      PageIsEligible(Matching(items, validations, filter), cursor, limit, offset, KeyOf(x));
      MatchingIsPassing(items, validations, filter, x);
    }
  }

  lemma PageIsUnderCursor(page: seq<Item>, cursor: Option<Key>)
    requires AllBelow(KeysOf(page), cursor)
    ensures cursor.Some? ==> forall x | x in page :: Below(Key(TimeShown(x), x.id), cursor.value)
  {
    hide Below, TimeShown, KeyOf;
    forall x | x in page && cursor.Some? ensures Below(Key(TimeShown(x), x.id), cursor.value) {
      var i :| 0 <= i < |page| && page[i] == x;
      KeyIsShown(x);
      assert KeysOf(page)[i] == KeyOf(x);
    }
  }

  /** The keys of a page and the stored rows make what it shows. */
  lemma PageShows(items: Table, validations: Validations, filter: Filter, limit: nat, offset: nat, cursor: Option<Key>,
                  page: seq<Item>, next: Option<Key>)
    requires WellKeyed(items) && (forall x | x in page :: x.id in items && items[x.id] == x)
    requires Page(KeysOf(page), next) == PageOf(Matching(items, validations, filter), cursor, limit, offset)
    ensures Shows(items, validations, filter, limit, cursor, page, next)
  {
    hide PageOf, Matching, Passes, ShownInOrder, Decreasing, PageSize, Below, TimeShown, KeyOf, AllBelow;
    var s := Matching(items, validations, filter);
    PageShape(s, cursor, limit, offset);
    PageSizes(s, cursor, limit, offset);
    KeysShowOrder(page);
    PagePasses(items, validations, filter, limit, offset, cursor, page);
    PageIsUnderCursor(page, cursor);
    if next.Some? {
      KeyIsShown(page[|page| - 1]);
    }
  }
}
