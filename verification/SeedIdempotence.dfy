/** Seeding twice is seeding once, and what a re-run never touches. */
module SeedIdempotence {
  import opened Options
  import opened Seed

  // ----- The updates one row receives, as one update

  function MergedCard(p: CardParams, q: CardParams): CardParams {
    q.(description := OrElse(q.description, p.description),
       priority := OrElse(q.priority, p.priority),
       status := OrElse(q.status, p.status),
       dueDate := OrElse(q.dueDate, p.dueDate),
       isComplete := OrElse(q.isComplete, p.isComplete),
       coverImageUrl := OrElse(q.coverImageUrl, p.coverImageUrl),
       estimateMinutes := OrElse(q.estimateMinutes, p.estimateMinutes),
       loggedMinutes := OrElse(q.loggedMinutes, p.loggedMinutes))
  }

  /** The last given value wins, except for a collaborative state: there the first one does. */
  function MergedDocument(p: DocumentParams, q: DocumentParams): DocumentParams {
    q.(previewText := OrElse(q.previewText, p.previewText),
       parentCardId := OrElse(q.parentCardId, p.parentCardId),
       status := OrElse(q.status, p.status),
       yjsState := OrElse(p.yjsState, q.yjsState))
  }

  /** First p, then q. */
  function Merged(p: Params, q: Params): Params {
    match (p, q)
    case (ForCard(a), ForCard(b)) => ForCard(MergedCard(a, b))
    case (ForDocument(a), ForDocument(b)) => ForDocument(MergedDocument(a, b))
    case (ForToken(a), ForToken(b)) => ForToken(b.(replacedBy := OrElse(b.replacedBy, a.replacedBy)))
    case _ => q
  }

  lemma UpdateKeepsKey(p: Params, r: Data)
    ensures p.Key() == r.Key() ==> Updated(p, r).Key() == r.Key()
    ensures p.Key() != r.Key() || Updated(p, r).Key() == p.Key()
  {
    if p.ForDocument? && r.OfDocument? {
      assert UpdatedDocument(p.document, r.document).title == r.document.title;
    }
  }

  lemma UpdatesMerge(p: Params, q: Params, r: Data)
    requires p.Key() == q.Key() == r.Key()
    ensures Updated(q, Updated(p, r)) == Updated(Merged(p, q), r) && Merged(p, q).Key() == p.Key()
  {
  }

  lemma UpdateTwice(p: Params, r: Data)
    requires p.Key() == r.Key()
    ensures Updated(p, Updated(p, r)) == Updated(p, r)
  {
  }

  /** A created row already shows what an update with the same parameters would set. */
  lemma CreatedIsUpdated(p: Params, rank: Rank)
    ensures Updated(p, Created(p, rank)) == Created(p, rank) && Created(p, rank).Key() == p.Key()
  {
  }

  // ----- What one call does to the rows

  function Target(rows: seq<Row>, p: Params): (k: nat)
    ensures k <= |rows|
  {
    FirstIndex(Keys(rows), p.Key())
  }

  function PutTrail(trail: seq<Option<Params>>, k: nat, p: Params): seq<Option<Params>> {
    if k < |trail| then trail[k := Some(if trail[k].Some? then Merged(trail[k].value, p) else p)]
    else trail + [Some(p)]
  }

  /** For each row, the merged parameters of all calls that reached it. */
  function Trail(s: Store, program: seq<Call>, n: nat): (trail: seq<Option<Params>>)
    requires n <= |program|
  {
    if n == 0 then seq(|s.rows|, k => None)
    else
      var (t, ids) := Run(s, program, n - 1);
      var p := program[n - 1](ids);
      PutTrail(Trail(s, program, n - 1), Target(t.rows, p), p)
  }

  /** The parameters fit the row and change nothing in it any more. */
  ghost predicate Absorbed(trail: Option<Params>, r: Data) {
    trail.Some? ==> trail.value.Key() == r.Key() && Updated(trail.value, r) == r
  }

  lemma AbsorbOne(trail: Option<Params>, p: Params, r: Data)
    requires Absorbed(trail, r) && p.Key() == r.Key()
    ensures Absorbed(Some(if trail.Some? then Merged(trail.value, p) else p), Updated(p, r))
  {
    UpdateKeepsKey(p, r);
    if trail.Some? {
      UpdatesMerge(trail.value, p, r);
      UpdateTwice(Merged(trail.value, p), r);
    } else {
      UpdateTwice(p, r);
    }
  }

  ghost predicate AllAbsorbed(trail: seq<Option<Params>>, rows: seq<Row>) {
    |trail| == |rows| && forall k :: 0 <= k < |rows| ==> Absorbed(trail[k], rows[k].data)
  }

  lemma EnsureAbsorbs(s: Store, p: Params, trail: seq<Option<Params>>)
    requires AllAbsorbed(trail, s.rows)
    ensures AllAbsorbed(PutTrail(trail, Target(s.rows, p), p), Ensure(s, p).0.rows)
  {
    var k := Target(s.rows, p);
    if k < |s.rows| {
      AbsorbOne(trail[k], p, s.rows[k].data);
    } else {
      CreatedIsUpdated(p, Allocated(s, p).0);
    }
  }

  /** After the calls so far, every row has absorbed all that reached it. */
  lemma {:induction false} RowsAbsorb(s: Store, program: seq<Call>, n: nat)
    requires n <= |program|
    ensures AllAbsorbed(Trail(s, program, n), Run(s, program, n).0.rows)
  {
    if n > 0 {
      RowsAbsorb(s, program, n - 1);
      var (t, ids) := Run(s, program, n - 1);
      EnsureAbsorbs(t, program[n - 1](ids), Trail(s, program, n - 1));
    }
  }

  // ----- Rows are only added, and keep their id and key

  ghost predicate Extends(a: seq<Row>, b: seq<Row>) {
    |a| <= |b| && forall k :: 0 <= k < |a| ==> a[k].id == b[k].id && a[k].data.Key() == b[k].data.Key()
  }

  lemma EnsureExtends(s: Store, p: Params)
    ensures Extends(s.rows, Ensure(s, p).0.rows)
    ensures Target(s.rows, p) < |Ensure(s, p).0.rows|
    ensures Ensure(s, p).0.rows[Target(s.rows, p)].data.Key() == p.Key()
    ensures Ensure(s, p).0.rows[Target(s.rows, p)].id == Ensure(s, p).1
  {
    var k := Target(s.rows, p);
    if k < |s.rows| {
      UpdateKeepsKey(p, s.rows[k].data);
    } else {
      CreatedIsUpdated(p, Allocated(s, p).0);
    }
  }

  ghost predicate ExtendsAt(s: Store, program: seq<Call>, n: nat, m: nat)
    requires n <= |program| && m <= |program|
  {
    Extends(Run(s, program, n).0.rows, Run(s, program, m).0.rows)
  }

  lemma CallExtends(s: Store, program: seq<Call>, n: nat)
    requires 0 < n <= |program|
    ensures ExtendsAt(s, program, n - 1, n)
  {
    var (t, ids) := Run(s, program, n - 1);
    EnsureExtends(t, program[n - 1](ids));
  }

  lemma ExtendsOn(s: Store, program: seq<Call>, n: nat, m: nat)
    requires n < m <= |program| && ExtendsAt(s, program, n, m - 1) && ExtendsAt(s, program, m - 1, m)
    ensures ExtendsAt(s, program, n, m)
  {
    ExtendsTransitive(Run(s, program, n).0.rows, Run(s, program, m - 1).0.rows, Run(s, program, m).0.rows);
  }

  lemma {:induction false} RunExtends(s: Store, program: seq<Call>, n: nat, m: nat)
    requires n <= m <= |program|
    ensures ExtendsAt(s, program, n, m)
    decreases m
  {
    if n < m {
      RunExtends(s, program, n, m - 1);
      CallExtends(s, program, m);
      ExtendsOn(s, program, n, m);
    }
  }

  lemma ExtendsTransitive(a: seq<Row>, b: seq<Row>, c: seq<Row>)
    requires Extends(a, b) && Extends(b, c)
    ensures Extends(a, c)
  {
  }

  lemma FirstIndexExtends(a: seq<Row>, b: seq<Row>, key: Key, k: nat)
    requires Extends(a, b) && k == FirstIndex(Keys(a), key)
    requires k < |b| && b[k].data.Key() == key
    ensures FirstIndex(Keys(b), key) == k
  {
    forall j | 0 <= j < k ensures Keys(b)[j] != key {
      assert Keys(a)[j] == Keys(b)[j];
    }
    FirstIndexIs(Keys(b), key, k);
  }

  // ----- The second run

  ghost predicate GrowsInto(s: Store, program: seq<Call>, n: nat, rows: seq<Row>)
    requires n <= |program|
  {
    Extends(Run(s, program, n).0.rows, rows)
  }

  /** The rows after any number of the program's calls are still among these. */
  ghost predicate EndsIn(s: Store, program: seq<Call>, rows: seq<Row>) {
    forall n: nat :: n <= |program| ==> GrowsInto(s, program, n, rows)
  }

  lemma RunEndsIn(s: Store, program: seq<Call>)
    ensures EndsIn(s, program, Run(s, program, |program|).0.rows)
  {
    forall n: nat | n <= |program| ensures GrowsInto(s, program, n, Run(s, program, |program|).0.rows) {
      RunExtends(s, program, n, |program|);
    }
  }

  /** A call of the second run finds the row that the first run found or made. */
  lemma SecondRunTarget(t: Store, p: Params, u: Store)
    requires Extends(Ensure(t, p).0.rows, u.rows)
    ensures var k := Target(t.rows, p);
      && k < |u.rows| && Target(u.rows, p) == k
      && u.rows[k].id == Ensure(t, p).1 && u.rows[k].data.Key() == p.Key()
  {
    EnsureExtends(t, p);
    FirstIndexExtends(t.rows, u.rows, p.Key(), Target(t.rows, p));
  }

  function TrailAt(trail: seq<Option<Params>>, k: nat): Option<Params> {
    if k < |trail| then trail[k] else None
  }

  /** Each row is its start, updated by its trail. */
  ghost predicate Follows(rows: seq<Row>, start: seq<Row>, trail: seq<Option<Params>>) {
    |rows| == |start| && forall k: nat :: k < |rows| ==> RowFollows(rows[k], start[k], TrailAt(trail, k))
  }

  ghost predicate RowFollows(row: Row, start: Row, trail: Option<Params>) {
    && row.id == start.id
    && (trail.Some? ==> trail.value.Key() == start.data.Key())
    && row.data == if trail.Some? then Updated(trail.value, start.data) else start.data
  }

  lemma FollowsExtends(rows: seq<Row>, start: seq<Row>, trail: seq<Option<Params>>)
    requires Follows(rows, start, trail)
    ensures Extends(start, rows)
  {
    forall k: nat | k < |rows| ensures rows[k].id == start[k].id && rows[k].data.Key() == start[k].data.Key() {
      var t := TrailAt(trail, k);
      assert RowFollows(rows[k], start[k], t);
      if t.Some? {
        UpdateKeepsKey(t.value, start[k].data);
      }
    }
  }

  lemma FollowStep(rows: seq<Row>, start: seq<Row>, trail: seq<Option<Params>>, k: nat, p: Params)
    requires Follows(rows, start, trail) && k <= |trail| && k < |rows| && rows[k].data.Key() == p.Key()
    ensures Follows(rows[k := rows[k].(data := Updated(p, rows[k].data))], start, PutTrail(trail, k, p))
  {
    var t := TrailAt(trail, k);
    FollowsExtends(rows, start, trail);
    assert RowFollows(rows[k], start[k], t);
    if t.Some? {
      UpdatesMerge(t.value, p, start[k].data);
    }
    var after, put := rows[k := rows[k].(data := Updated(p, rows[k].data))], PutTrail(trail, k, p);
    forall m: nat | m < |after| ensures RowFollows(after[m], start[m], TrailAt(put, m)) {
      assert RowFollows(rows[m], start[m], TrailAt(trail, m));
    }
  }

  /** The second run so far: no id or card rank allocated, every row updated by its trail. */
  ghost predicate Retraced(trail: seq<Option<Params>>, start: Store, u: Store) {
    (u.nextId, u.cardRanks) == (start.nextId, start.cardRanks) && Follows(u.rows, start.rows, trail)
  }

  lemma RetraceStep(trail: seq<Option<Params>>, start: Store, u: Store, p: Params, k: nat)
    requires Retraced(trail, start, u)
    requires k <= |trail| && k < |u.rows| && Target(u.rows, p) == k && u.rows[k].data.Key() == p.Key()
    ensures Retraced(PutTrail(trail, k, p), start, Ensure(u, p).0) && Ensure(u, p).1 == u.rows[k].id
  {
    FollowStep(u.rows, start.rows, trail, k, p);
  }

  lemma RetraceCall(trail: seq<Option<Params>>, start: Store, t: Store, u: Store, p: Params)
    requires Extends(Ensure(t, p).0.rows, start.rows) && |trail| == |t.rows|
    requires Retraced(trail, start, u)
    ensures Retraced(PutTrail(trail, Target(t.rows, p), p), start, Ensure(u, p).0)
    ensures Ensure(u, p).1 == Ensure(t, p).1
  {
    FollowsExtends(u.rows, start.rows, trail);
    ExtendsTransitive(Ensure(t, p).0.rows, start.rows, u.rows);
    SecondRunTarget(t, p, u);
    RetraceStep(trail, start, u, p, Target(t.rows, p));
  }

  /** After n calls each, the second run has the ids of the first and has updated every row by its trail. */
  ghost predicate RetracedAt(s: Store, program: seq<Call>, start: Store, n: nat)
    requires n <= |program|
  {
    Run(start, program, n).1 == Run(s, program, n).1 && Retraced(Trail(s, program, n), start, Run(start, program, n).0)
  }

  lemma RetraceNext(s: Store, program: seq<Call>, start: Store, m: nat, n: nat)
    requires 0 < n <= |program| && m == n - 1 && GrowsInto(s, program, n, start.rows) && RetracedAt(s, program, start, m)
    ensures RetracedAt(s, program, start, n)
  {
    var (t, ids) := Run(s, program, m);
    RowsAbsorb(s, program, m);
    RetraceCall(Trail(s, program, m), start, t, Run(start, program, m).0, program[m](ids));
  }

  lemma {:induction false} SecondRunRetraces(s: Store, program: seq<Call>, start: Store, n: nat)
    requires n <= |program| && EndsIn(s, program, start.rows)
    ensures RetracedAt(s, program, start, n)
  {
    assert GrowsInto(s, program, n, start.rows);
    if n > 0 {
      var m: nat := n - 1;
      SecondRunRetraces(s, program, start, m);
      RetraceNext(s, program, start, m, n);
    }
  }

  lemma {:induction false} RunKeepsChains(s: Store, program: seq<Call>, n: nat)
    requires n <= |program|
    ensures s.listRanks.Keys <= Run(s, program, n).0.listRanks.Keys
  {
    if n > 0 {
      RunKeepsChains(s, program, n - 1);
    }
  }

  /**
   Seeding is idempotent: from any store, any program run twice leaves the rows
   of running it once, whatever the process knows of rank chains the second
   time; the second run creates no row, returns the same ids and allocates no
   rank (it may only start a list chain from an existing list).
   */
  lemma SeedingIsIdempotent(s: Store, program: seq<Call>, listRanks: map<Id, Rank>, cardRanks: map<Id, Rank>)
    ensures var (once, ids) := Run(s, program, |program|);
      var (twice, again) := Run(once.(listRanks := listRanks, cardRanks := cardRanks), program, |program|);
      && twice.rows == once.rows && again == ids && twice.nextId == once.nextId
      && twice.cardRanks == cardRanks && listRanks.Keys <= twice.listRanks.Keys
  {
    var once := Run(s, program, |program|).0;
    var start := once.(listRanks := listRanks, cardRanks := cardRanks);
    RunEndsIn(s, program);
    SecondRunRetraces(s, program, start, |program|);
    RunKeepsChains(start, program, |program|);
    RowsAbsorb(s, program, |program|);
    var twice := Run(start, program, |program|).0;
    forall k | 0 <= k < |once.rows| ensures twice.rows[k] == once.rows[k] {
      assert Absorbed(Trail(s, program, |program|)[k], once.rows[k].data);
      assert RowFollows(twice.rows[k], once.rows[k], TrailAt(Trail(s, program, |program|), k));
    }
  }

  // ----- What a run never touches

  /** Id, key, rank, creator, invitation token and a stored collaborative state. */
  ghost predicate Kept(a: Row, b: Row) {
    && a.id == b.id && a.data.Key() == b.data.Key()
    && match (a.data, b.data)
       case (OfList(x), OfList(y)) => x.rank == y.rank
       case (OfCard(x), OfCard(y)) => x.rank == y.rank && x.createdBy == y.createdBy
       case (OfDocument(x), OfDocument(y)) => x.createdBy == y.createdBy && (x.yjsState.Some? ==> y.yjsState == x.yjsState)
       case (OfInvitation(x), OfInvitation(y)) => x.token == y.token
       case (OfToken(x), OfToken(y)) => x.userId == y.userId && x.familyId == y.familyId
       case _ => true
  }

  lemma UpdateKeeps(p: Params, a: Row, b: Row)
    requires Kept(a, b) && p.Key() == b.data.Key()
    ensures Kept(a, b.(data := Updated(p, b.data)))
  {
    UpdateKeepsKey(p, b.data);
  }

  /** No program changes these columns of a row that was there before. */
  lemma {:induction false} RunKeepsRows(s: Store, program: seq<Call>, n: nat, k: nat)
    requires n <= |program| && k < |s.rows|
    ensures k < |Run(s, program, n).0.rows| && Kept(s.rows[k], Run(s, program, n).0.rows[k])
  {
    if n > 0 {
      RunKeepsRows(s, program, n - 1, k);
      var (t, ids) := Run(s, program, n - 1);
      var p := program[n - 1](ids);
      if Target(t.rows, p) == k {
        UpdateKeeps(p, s.rows[k], t.rows[k]);
      }
    }
  }
}
