/** Keyset pagination of the activity feed, and the client that follows its cursors while the feed grows. */
module Paging {
  import opened Options

  /** An activity, ordered by (createdAt, id). */
  datatype Row = Row(createdAt: int, id: nat, action: string)

  /** What a cursor string encodes. */
  datatype Key = Key(createdAt: int, id: nat)

  function KeyOf(r: Row): Key {
    Key(r.createdAt, r.id)
  }

  /** The query's two alternatives: earlier, or at the same time with a smaller id. */
  predicate OlderThan(r: Row, k: Key) {
    r.createdAt < k.createdAt || (r.createdAt == k.createdAt && r.id < k.id)
  }

  // ----- Server

  datatype Page<T, K> = Page(items: seq<T>, cursor: Option<K>, hasMore: bool)

  /** Envelope of a result fetched with limit + 1. */
  function BuildCursorPagination<T, K>(items: seq<T>, limit: nat, cursorExtractor: T -> K): (p: Page<T, K>)
    ensures p.items <= items && p.hasMore == (p.items != items)
    ensures |p.items| <= limit && (p.hasMore ==> |p.items| == limit)
    ensures p.cursor.Some? <==> p.hasMore && limit > 0
    ensures p.cursor.Some? ==> p.cursor.value == cursorExtractor(p.items[|p.items| - 1])
  {
    var hasMore := |items| > limit;
    var pageItems := if hasMore then items[..limit] else items;
    var nextCursor := if hasMore && |pageItems| > 0 then Some(cursorExtractor(pageItems[|pageItems| - 1])) else None;
    Page(pageItems, nextCursor, hasMore)
  }

  /** The table, newest first; ids are unique, so the order is strict. */
  ghost predicate NewestFirst(db: seq<Row>) {
    forall i, j :: 0 <= i < j < |db| ==> OlderThan(db[j], KeyOf(db[i]))
  }

  function Older(db: seq<Row>, cursor: Option<Key>): seq<Row> {
    if db == [] then []
    else if cursor.None? || OlderThan(db[0], cursor.value) then [db[0]] + Older(db[1..], cursor)
    else Older(db[1..], cursor)
  }

  function Take<T>(s: seq<T>, n: nat): seq<T> {
    if n <= |s| then s[..n] else s
  }

  /** `getWorkspacePage`: rows past the cursor, newest first, limit + 1 of them. */
  function FeedPage(db: seq<Row>, cursor: Option<Key>, limit: nat): Page<Row, Key> {
    BuildCursorPagination(Take(Older(db, cursor), limit + 1), limit, KeyOf)
  }

  /** A new activity at its place in the order. */
  function Insert(db: seq<Row>, r: Row): seq<Row> {
    if db == [] || OlderThan(db[0], KeyOf(r)) then [r] + db else [db[0]] + Insert(db[1..], r)
  }

  // ----- Client

  datatype Feed = Feed(items: seq<Row>, cursor: Option<Key>, hasMore: bool)

  /** A page replaces the list when no cursor was asked for, and extends it otherwise; a failure changes nothing. */
  function Loaded(f: Feed, asked: Option<Key>, answer: Option<Page<Row, Key>>): Feed {
    if answer.None? then f
    else Feed(if asked.Some? then f.items + answer.value.items else answer.value.items,
              answer.value.cursor, answer.value.hasMore)
  }

  class ActivityFeed {
    var items: seq<Row>
    var cursor: Option<Key>
    var hasMore: bool

    function State(): Feed
      reads this
    {
      Feed(items, cursor, hasMore)
    }

    constructor ()
      ensures State() == Feed([], None, false)
    {
      items, cursor, hasMore := [], None, false;
    }

    method Load(nextCursor: Option<Key>, answer: Option<Page<Row, Key>>)
      modifies this
      ensures State() == Loaded(old(State()), nextCursor, answer)
    {
      if answer.Some? {
        if nextCursor.Some? {
          items := items + answer.value.items;
        } else {
          items := answer.value.items;
        }
        cursor := answer.value.cursor;
        hasMore := answer.value.hasMore;
      }
    }
  }

  // ----- Paging a growing feed

  /** `pages` counts the pages that arrived. */
  datatype World = World(db: seq<Row>, feed: Feed, pages: nat)

  datatype Event = NewActivity(row: Row) | LoadMore(answered: bool)

  /** New rows come in ahead of the cursor; "load more" is offered only while there is more. */
  ghost predicate Enabled(w: World, e: Event) {
    match e
    case NewActivity(r) =>
      && (forall x :: x in w.db ==> KeyOf(x) != KeyOf(r))
      && (w.feed.cursor.Some? ==> !OlderThan(r, w.feed.cursor.value))
    case LoadMore(_) => w.feed.hasMore
  }

  function Step(w: World, e: Event, limit: nat): World {
    match e
    case NewActivity(r) => w.(db := Insert(w.db, r))
    case LoadMore(false) => w.(feed := Loaded(w.feed, w.feed.cursor, None))
    case LoadMore(true) => MoreLoaded(w, limit)
  }

  function MoreLoaded(w: World, limit: nat): World {
    w.(feed := Loaded(w.feed, w.feed.cursor, Some(FeedPage(w.db, w.feed.cursor, limit))), pages := w.pages + 1)
  }

  function FirstLoad(db: seq<Row>, limit: nat): World {
    World(db, Loaded(Feed([], None, false), None, Some(FeedPage(db, None, limit))), 1)
  }

  ghost predicate Runs(db: seq<Row>, limit: nat, events: seq<Event>, w: World)
    decreases |events|
  {
    if events == [] then w == FirstLoad(db, limit)
    else
      var e := events[|events| - 1];
      exists before: World ::
        Runs(db, limit, events[..|events| - 1], before) && Enabled(before, e) && w == Step(before, e, limit)
  }

  /** The list is the first `done` rows of the feed as first fetched, and the rest is still to come. */
  ghost predicate Shown(db: seq<Row>, w: World, done: nat) {
    && w.feed.items == Take(db, done)
    && w.feed.hasMore == (done < |db|)
    && (0 < done < |db| ==>
          && w.feed.cursor == Some(KeyOf(db[done - 1]))
          && Older(w.db, w.feed.cursor) == db[done..])
  }

  lemma {:induction false} OlderThanNothing(db: seq<Row>)
    ensures Older(db, None) == db
  {
    if db != [] {
      OlderThanNothing(db[1..]);
    }
  }

  /** In an ordered table the rows past row i are the rest. */
  lemma {:induction false} OlderThanRow(db: seq<Row>, i: nat)
    requires NewestFirst(db) && i < |db|
    ensures Older(db, Some(KeyOf(db[i]))) == db[i + 1..]
  {
    if i == 0 {
      AllOlder(db[1..], KeyOf(db[0]));
    } else {
      OlderThanRow(db[1..], i - 1);
      assert OlderThan(db[i], KeyOf(db[0]));
      assert db[1..][i..] == db[i + 1..];
    }
  }

  lemma {:induction false} AllOlder(db: seq<Row>, k: Key)
    requires forall i :: 0 <= i < |db| ==> OlderThan(db[i], k)
    ensures Older(db, Some(k)) == db
  {
    if db != [] {
      AllOlder(db[1..], k);
    }
  }

  /** The table after an insertion is again in order, with one more row. */
  lemma {:induction false} InsertKeepsOrder(db: seq<Row>, r: Row)
    requires NewestFirst(db) && forall x :: x in db ==> KeyOf(x) != KeyOf(r)
    ensures NewestFirst(Insert(db, r))
    ensures multiset(Insert(db, r)) == multiset(db) + multiset{r}
  {
    if db == [] || OlderThan(db[0], KeyOf(r)) {
      forall i | 0 <= i < |db| ensures OlderThan(db[i], KeyOf(r)) {
        assert i > 0 ==> OlderThan(db[i], KeyOf(db[0]));
      }
    } else {
      assert db == [db[0]] + db[1..];
      InsertKeepsOrder(db[1..], r);
      forall i | 0 <= i < |Insert(db[1..], r)| ensures OlderThan(Insert(db[1..], r)[i], KeyOf(db[0])) {
        assert Insert(db[1..], r)[i] in multiset(Insert(db[1..], r));
        var x := Insert(db[1..], r)[i];
        if x != r {
          assert x in db[1..];
          var j :| 0 <= j < |db[1..]| && db[1..][j] == x;
          assert db[j + 1] == x;
        } else {
          assert db[0] in db;
        }
      }
    }
  }

  /** A new row changes what lies past the cursor exactly when it is itself past the cursor. */
  lemma {:induction false} InsertSeenIff(db: seq<Row>, r: Row, k: Key)
    ensures |Older(Insert(db, r), Some(k))| == |Older(db, Some(k))| + (if OlderThan(r, k) then 1 else 0)
    ensures Older(Insert(db, r), Some(k)) == Older(db, Some(k)) <==> !OlderThan(r, k)
  {
    if db == [] || OlderThan(db[0], KeyOf(r)) {
      assert ([r] + db)[1..] == db;
    } else {
      InsertSeenIff(db[1..], r, k);
      assert ([db[0]] + Insert(db[1..], r))[1..] == Insert(db[1..], r);
    }
  }

  lemma PageAdvances(db: seq<Row>, limit: nat, w: World, done: nat)
    requires limit >= 1 && done >= 1 && NewestFirst(db) && Shown(db, w, done) && w.feed.hasMore
    ensures Shown(db, MoreLoaded(w, limit), done + limit)
  {
    var rest := db[done..];
    var page := FeedPage(w.db, w.feed.cursor, limit);
    assert page.items == Take(rest, limit);
    assert Take(db, done) + Take(rest, limit) == Take(db, done + limit);
    if page.hasMore {
      var last := done + limit - 1;
      assert page.items[limit - 1] == db[last];
      OlderAgain(w.db, KeyOf(db[done - 1]), db, done, last);
    }
  }

  /** Rows past a later cursor are the rows past an earlier one, from that cursor on. */
  lemma OlderAgain(now: seq<Row>, k: Key, db: seq<Row>, i: nat, j: nat)
    requires NewestFirst(db) && 0 < i <= j < |db| && k == KeyOf(db[i - 1])
    requires Older(now, Some(k)) == db[i..]
    ensures Older(now, Some(KeyOf(db[j]))) == db[j + 1..]
  {
    assert OlderThan(db[j], k);
    OlderTwice(now, k, KeyOf(db[j]));
    assert NewestFirst(db[i..]);
    OlderThanRow(db[i..], j - i);
    assert db[i..][j - i + 1..] == db[j + 1..];
  }

  lemma {:induction false} OlderTwice(now: seq<Row>, k: Key, l: Key)
    requires l.createdAt < k.createdAt || (l.createdAt == k.createdAt && l.id < k.id)
    ensures Older(Older(now, Some(k)), Some(l)) == Older(now, Some(l))
  {
    if now != [] {
      OlderTwice(now[1..], k, l);
      if OlderThan(now[0], k) {
        assert ([now[0]] + Older(now[1..], Some(k)))[1..] == Older(now[1..], Some(k));
      }
    }
  }

  lemma FirstPage(db: seq<Row>, limit: nat)
    requires limit >= 1 && NewestFirst(db)
    ensures Shown(db, FirstLoad(db, limit), limit)
  {
    OlderThanNothing(db);
    if |db| > limit {
      OlderThanRow(db, limit - 1);
    }
  }

  /** Loading without a cursor, whatever the list showed: the newest rows of the moment, and nothing else. */
  lemma ReloadStartsAfresh(f: Feed, db: seq<Row>, limit: nat)
    requires limit >= 1 && NewestFirst(db)
    ensures var g := Loaded(f, None, Some(FeedPage(db, None, limit)));
      && g.items == (if limit <= |db| then db[..limit] else db) && g.hasMore == (limit < |db|)
      && Exact(db, limit, World(db, g, 1))
  {
    FirstIsExact(db, limit);
  }

  /** Reachable: the first `pages * limit` rows are shown, and no page was fetched in vain. */
  ghost predicate Exact(db: seq<Row>, limit: nat, w: World) {
    && w.pages >= 1
    && Shown(db, w, w.pages * limit)
    && (w.pages == 1 || (w.pages - 1) * limit < |db|)
  }

  lemma PageCounts(limit: nat, pages: nat)
    requires limit >= 1 && pages >= 1
    ensures (pages + 1) * limit == pages * limit + limit && pages * limit >= 1
  {
  }

  lemma FirstIsExact(db: seq<Row>, limit: nat)
    requires limit >= 1 && NewestFirst(db)
    ensures Exact(db, limit, FirstLoad(db, limit))
  {
    FirstPage(db, limit);
    assert 1 * limit == limit;
  }

  lemma StepIsExact(db: seq<Row>, limit: nat, w: World, e: Event)
    requires limit >= 1 && NewestFirst(db) && Exact(db, limit, w) && Enabled(w, e)
    ensures Exact(db, limit, Step(w, e, limit))
  {
    PageCounts(limit, w.pages);
    match e
    case NewActivity(r) =>
      if w.feed.hasMore {
        InsertSeenIff(w.db, r, w.feed.cursor.value);
      }
    case LoadMore(true) => PageAdvances(db, limit, w, w.pages * limit);
    case LoadMore(false) =>
  }

  /**
   Every reachable client state: whatever is inserted ahead of the cursor, and
   however many loads fail, the list is exactly the first rows of the feed as it
   was at the first fetch, without duplicate or gap.
   */
  lemma {:induction false} PagingIsExact(db: seq<Row>, limit: nat, events: seq<Event>, w: World)
    requires limit >= 1 && NewestFirst(db) && Runs(db, limit, events, w)
    ensures Exact(db, limit, w)
    decreases |events|
  {
    if events == [] {
      FirstIsExact(db, limit);
    } else {
      var e := events[|events| - 1];
      var before: World :| Runs(db, limit, events[..|events| - 1], before) && Enabled(before, e) && w == Step(before, e, limit);
      PagingIsExact(db, limit, events[..|events| - 1], before);
      StepIsExact(db, limit, before, e);
    }
  }

  /**
   Once there is no more, the whole feed of the first fetch is shown, in order,
   and the number of pages is max(1, ceil(n / limit)): enough, and one fewer would not do.
   */
  lemma PagingEnds(db: seq<Row>, limit: nat, events: seq<Event>, w: World)
    requires limit >= 1 && NewestFirst(db) && Runs(db, limit, events, w) && !w.feed.hasMore
    ensures w.feed.items == db
    ensures |db| <= w.pages * limit && (w.pages == 1 || (w.pages - 1) * limit < |db|)
  {
    PagingIsExact(db, limit, events, w);
  }

  /** With limit 0 a non-empty feed never ends: more is always promised and no cursor is ever given. */
  lemma LimitZeroNeverEnds(db: seq<Row>, cursor: Option<Key>)
    requires Older(db, cursor) != []
    ensures FeedPage(db, cursor, 0) == Page([], None, true)
  {
  }
}
