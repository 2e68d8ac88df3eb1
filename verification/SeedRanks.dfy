/**
 The rank chains of the seed script. Chains live in the process and start empty; a
 list that is met starts its board's chain, cards have no such backfill. This
 module says exactly when creation order stays rank order.
 */
module SeedRanks {
  import opened Options
  import opened Seed
  import opened SeedIdempotence

  /** What a rank chain belongs to: the lists of a board, or the cards of a list. */
  datatype Scope = OfBoard(board: Id) | InList(listId: Id)

  function ScopeOf(p: Params): Option<Scope> {
    match p
    case ForList(b, _, _, _) => Some(OfBoard(b))
    case ForCard(c) => Some(InList(c.listId))
    case _ => None
  }

  /** A row's rank within a scope, if it is there and can be read. */
  function RankIn(r: Data, sc: Scope): Option<Rank> {
    match (r, sc)
    case (OfList(l), OfBoard(b)) => if l.boardId == b then l.rank else None
    case (OfCard(c), InList(l)) => if c.listId == l then Some(c.rank) else None
    case _ => None
  }

  /** The chain's head. */
  function Chain(s: Store, sc: Scope): Option<Rank> {
    match sc
    case OfBoard(b) => if b in s.listRanks then Some(s.listRanks[b]) else None
    case InList(l) => if l in s.cardRanks then Some(s.cardRanks[l]) else None
  }

  function After(head: Option<Rank>): Rank {
    if head.Some? then GenNext(head.value) else MIDDLE_RANK
  }

  /** Rows created later have larger ranks. */
  ghost predicate Ascending(rows: seq<Row>, sc: Scope) {
    forall j, k :: 0 <= j < k < |rows| && RankIn(rows[j].data, sc).Some? && RankIn(rows[k].data, sc).Some? ==>
      RankIn(rows[j].data, sc).value < RankIn(rows[k].data, sc).value
  }

  ghost predicate AllBelow(rows: seq<Row>, sc: Scope, rank: Rank) {
    forall k :: 0 <= k < |rows| && RankIn(rows[k].data, sc).Some? ==> RankIn(rows[k].data, sc).value < rank
  }

  // ----- One call

  /** The call finds no row and creates one in the scope. */
  predicate Creates(s: Store, p: Params, sc: Scope) {
    Target(s.rows, p) == |s.rows| && ScopeOf(p) == Some(sc)
  }

  /** The call meets a list in the wanted state whose rank can be read. */
  function Meets(s: Store, p: Params, sc: Scope): Option<Rank> {
    var k := Target(s.rows, p);
    if k < |s.rows| && ScopeOf(p) == Some(sc) && p.ForList? && s.rows[k].data.OfList? && !Drifted(p, s.rows[k].data.list)
    then s.rows[k].data.list.rank
    else None
  }

  lemma UpdateKeepsRank(p: Params, r: Data, sc: Scope)
    ensures RankIn(Updated(p, r), sc) == RankIn(r, sc)
  {
  }

  lemma CreatedRank(p: Params, rank: Rank, sc: Scope)
    ensures RankIn(Created(p, rank), sc) == if ScopeOf(p) == Some(sc) then Some(rank) else None
  {
  }

  /** What one call does to the ranks of a scope and to its chain. */
  lemma StepRanks(s: Store, p: Params, sc: Scope)
    ensures var t := Ensure(s, p).0;
      && |t.rows| == |s.rows| + (if Target(s.rows, p) == |s.rows| then 1 else 0)
      && (forall k :: 0 <= k < |s.rows| ==> RankIn(t.rows[k].data, sc) == RankIn(s.rows[k].data, sc))
      && (|t.rows| > |s.rows| ==>
            RankIn(t.rows[|s.rows|].data, sc) == if Creates(s, p, sc) then Some(After(Chain(s, sc))) else None)
      && Chain(t, sc) ==
         if Creates(s, p, sc) then Some(After(Chain(s, sc)))
         else if Chain(s, sc).Some? then Chain(s, sc) else Meets(s, p, sc)
  {
    var k := Target(s.rows, p);
    if k < |s.rows| {
      UpdateKeepsRank(p, s.rows[k].data, sc);
    } else {
      CreatedRank(p, Allocated(s, p).0, sc);
    }
  }

  /** A call keeps a scope in order exactly when it creates nothing there or every rank there is below the chain's next. */
  lemma StepKeepsOrderIff(s: Store, p: Params, sc: Scope)
    requires Ascending(s.rows, sc)
    ensures Ascending(Ensure(s, p).0.rows, sc) <==> (Creates(s, p, sc) ==> AllBelow(s.rows, sc, After(Chain(s, sc))))
  {
    StepRanks(s, p, sc);
    var t := Ensure(s, p).0;
    if Creates(s, p, sc) {
      var n := |s.rows|;
      forall k | 0 <= k < n && RankIn(s.rows[k].data, sc).Some?
        ensures Ascending(t.rows, sc) ==> RankIn(s.rows[k].data, sc).value < After(Chain(s, sc))
      {
        assert RankIn(t.rows[k].data, sc) == RankIn(s.rows[k].data, sc);
      }
    }
  }

  // ----- Whole runs

  function ParamsAt(s: Store, program: seq<Call>, i: nat): Params
    requires i < |program|
  {
    program[i](Run(s, program, i).1)
  }

  function NextMet(t: Store, p: Params, met: Option<Rank>, sc: Scope): Option<Rank> {
    if met.Some? then met else Meets(t, p, sc)
  }

  function NextOpening(t: Store, p: Params, met: Option<Rank>, opening: Option<Rank>, sc: Scope): Option<Rank> {
    if opening.Some? then opening else if Creates(t, p, sc) then Some(After(met)) else None
  }

  /** The rank of the first list of the scope that the first n calls meet. */
  function Met(s: Store, program: seq<Call>, n: nat, sc: Scope): Option<Rank>
    requires n <= |program|
  {
    if n == 0 then None
    else NextMet(Run(s, program, n - 1).0, ParamsAt(s, program, n - 1), Met(s, program, n - 1, sc), sc)
  }

  /** The rank the first create in the scope gets: next to the first list met, or the middle. */
  function Opening(s: Store, program: seq<Call>, n: nat, sc: Scope): Option<Rank>
    requires n <= |program|
  {
    if n == 0 then None
    else
      NextOpening(Run(s, program, n - 1).0, ParamsAt(s, program, n - 1), Met(s, program, n - 1, sc),
                  Opening(s, program, n - 1, sc), sc)
  }

  /** The chain starts at the first list met, and holds the last rank created once there is one. */
  ghost predicate ChainFits(s: Store, t: Store, met: Option<Rank>, opening: Option<Rank>, sc: Scope) {
    if opening.None? then Chain(t, sc) == met
    else Chain(t, sc).Some? && exists k :: |s.rows| <= k < |t.rows| && RankIn(t.rows[k].data, sc) == opening
  }

  /** Old rows keep their ranks; new ones lie between the opening rank and the chain's head. */
  ghost predicate RanksFit(s: Store, t: Store, opening: Option<Rank>, sc: Scope) {
    && |s.rows| <= |t.rows|
    && (forall k :: 0 <= k < |s.rows| ==> RankIn(t.rows[k].data, sc) == RankIn(s.rows[k].data, sc))
    && (forall k :: |s.rows| <= k < |t.rows| && RankIn(t.rows[k].data, sc).Some? ==>
          opening.Some? && Chain(t, sc).Some? && opening.value <= RankIn(t.rows[k].data, sc).value <= Chain(t, sc).value)
    && (forall j, k :: |s.rows| <= j < k < |t.rows| && RankIn(t.rows[j].data, sc).Some? && RankIn(t.rows[k].data, sc).Some? ==>
          RankIn(t.rows[j].data, sc).value < RankIn(t.rows[k].data, sc).value)
  }

  lemma StepRanksFit(s: Store, t: Store, p: Params, met: Option<Rank>, opening: Option<Rank>, sc: Scope)
    requires RanksFit(s, t, opening, sc) && ChainFits(s, t, met, opening, sc)
    ensures RanksFit(s, Ensure(t, p).0, NextOpening(t, p, met, opening, sc), sc)
  {
    StepRanks(t, p, sc);
    var u := Ensure(t, p).0;
    if opening.Some? {
      var k :| |s.rows| <= k < |t.rows| && RankIn(t.rows[k].data, sc) == opening;
      assert RankIn(u.rows[k].data, sc) == opening;
    } else if Creates(t, p, sc) {
      assert RankIn(u.rows[|t.rows|].data, sc) == Some(After(met));
    }
  }

  lemma StepChainFits(s: Store, t: Store, p: Params, met: Option<Rank>, opening: Option<Rank>, sc: Scope)
    requires RanksFit(s, t, opening, sc) && ChainFits(s, t, met, opening, sc)
    ensures ChainFits(s, Ensure(t, p).0, NextMet(t, p, met, sc), NextOpening(t, p, met, opening, sc), sc)
  {
    StepRanks(t, p, sc);
  }

  lemma StepFits(s: Store, t: Store, p: Params, met: Option<Rank>, opening: Option<Rank>, sc: Scope)
    requires RanksFit(s, t, opening, sc) && ChainFits(s, t, met, opening, sc)
    ensures RanksFit(s, Ensure(t, p).0, NextOpening(t, p, met, opening, sc), sc)
    ensures ChainFits(s, Ensure(t, p).0, NextMet(t, p, met, sc), NextOpening(t, p, met, opening, sc), sc)
  {
    StepRanksFit(s, t, p, met, opening, sc);
    StepChainFits(s, t, p, met, opening, sc);
  }

  ghost predicate FitsAt(s: Store, program: seq<Call>, n: nat, sc: Scope)
    requires n <= |program|
  {
    && RanksFit(s, Run(s, program, n).0, Opening(s, program, n, sc), sc)
    && ChainFits(s, Run(s, program, n).0, Met(s, program, n, sc), Opening(s, program, n, sc), sc)
  }

  lemma CallFits(s: Store, program: seq<Call>, n: nat, sc: Scope)
    requires 0 < n <= |program| && FitsAt(s, program, n - 1, sc)
    ensures FitsAt(s, program, n, sc)
  {
    StepFits(s, Run(s, program, n - 1).0, ParamsAt(s, program, n - 1), Met(s, program, n - 1, sc),
             Opening(s, program, n - 1, sc), sc);
  }

  lemma {:induction false} RunFits(s: Store, program: seq<Call>, n: nat, sc: Scope)
    requires n <= |program| && Chain(s, sc).None?
    ensures FitsAt(s, program, n, sc)
  {
    if n > 0 {
      RunFits(s, program, n - 1, sc);
      CallFits(s, program, n, sc);
    } else {
      NothingYet(s, sc);
    }
  }

  lemma NothingYet(s: Store, sc: Scope)
    requires Chain(s, sc).None?
    ensures RanksFit(s, s, None, sc) && ChainFits(s, s, None, None, sc)
  {
  }

  /**
   A run that starts with an empty chain keeps a scope in order exactly when every
   rank there already is below the rank of the first row the run creates there.
   */
  lemma RunKeepsOrderIff(s: Store, program: seq<Call>, n: nat, sc: Scope)
    requires n <= |program| && Chain(s, sc).None? && Ascending(s.rows, sc)
    ensures var opening := Opening(s, program, n, sc);
      Ascending(Run(s, program, n).0.rows, sc) <==> (opening.Some? ==> AllBelow(s.rows, sc, opening.value))
  {
    RunFits(s, program, n, sc);
    OrderedIff(s, Run(s, program, n).0, Opening(s, program, n, sc), Met(s, program, n, sc), sc);
  }

  lemma OrderedIff(s: Store, t: Store, opening: Option<Rank>, met: Option<Rank>, sc: Scope)
    requires Ascending(s.rows, sc) && RanksFit(s, t, opening, sc) && ChainFits(s, t, met, opening, sc)
    ensures Ascending(t.rows, sc) <==> (opening.Some? ==> AllBelow(s.rows, sc, opening.value))
  {
    if opening.Some? {
      var n :| |s.rows| <= n < |t.rows| && RankIn(t.rows[n].data, sc) == opening;
      forall k | 0 <= k < |s.rows| && RankIn(s.rows[k].data, sc).Some?
        ensures Ascending(t.rows, sc) ==> RankIn(s.rows[k].data, sc).value < opening.value
      {
        assert RankIn(t.rows[k].data, sc) == RankIn(s.rows[k].data, sc);
      }
    }
  }

  lemma CardsAreNotMet(t: Store, p: Params, met: Option<Rank>, opening: Option<Rank>, l: Id)
    requires met == None && (opening.Some? ==> opening.value == MIDDLE_RANK)
    ensures NextMet(t, p, met, InList(l)) == None
    ensures var next := NextOpening(t, p, met, opening, InList(l)); next.Some? ==> next.value == MIDDLE_RANK
  {
  }

  /** Cards are never backfilled: the first card created in a list gets the middle rank, whatever the list holds. */
  lemma {:induction false} CardsOpenInTheMiddle(s: Store, program: seq<Call>, n: nat, l: Id)
    requires n <= |program|
    ensures Met(s, program, n, InList(l)) == None
    ensures Opening(s, program, n, InList(l)).Some? ==> Opening(s, program, n, InList(l)).value == MIDDLE_RANK
  {
    if n > 0 {
      CardsOpenInTheMiddle(s, program, n - 1, l);
      CardsAreNotMet(Run(s, program, n - 1).0, ParamsAt(s, program, n - 1), Met(s, program, n - 1, InList(l)),
                     Opening(s, program, n - 1, InList(l)), l);
    }
  }

  // ----- From an empty store

  /** In each board and each list, rows created later have larger ranks, up to the chain's head. */
  ghost predicate RanksInOrder(s: Store) {
    && Readable(s.rows)
    && forall sc :: Ascending(s.rows, sc) && UpToHead(s, sc)
  }

  ghost predicate UpToHead(s: Store, sc: Scope) {
    forall k :: 0 <= k < |s.rows| && RankIn(s.rows[k].data, sc).Some? ==>
      Chain(s, sc).Some? && RankIn(s.rows[k].data, sc).value <= Chain(s, sc).value
  }

  ghost predicate Readable(rows: seq<Row>) {
    forall k :: 0 <= k < |rows| && rows[k].data.OfList? ==> rows[k].data.list.rank.Some?
  }

  lemma StepKeepsReadable(s: Store, p: Params)
    requires Readable(s.rows)
    ensures Readable(Ensure(s, p).0.rows)
  {
    var k := Target(s.rows, p);
    if k < |s.rows| && s.rows[k].data.OfList? {
      assert s.rows[k].data.list.rank.Some?;
    }
  }

  lemma {:induction false} SeededRanksAreReadable(program: seq<Call>, n: nat)
    requires n <= |program|
    ensures Readable(Run(Store([], 0, map[], map[]), program, n).0.rows)
  {
    if n > 0 {
      var empty := Store([], 0, map[], map[]);
      SeededRanksAreReadable(program, n - 1);
      StepKeepsReadable(Run(empty, program, n - 1).0, ParamsAt(empty, program, n - 1));
    }
  }

  /** From an empty store, creation order is rank order in every board and list. */
  lemma SeededRanksAscend(program: seq<Call>, n: nat)
    requires n <= |program|
    ensures RanksInOrder(Run(Store([], 0, map[], map[]), program, n).0)
  {
    var empty := Store([], 0, map[], map[]);
    SeededRanksAreReadable(program, n);
    forall sc ensures Ascending(Run(empty, program, n).0.rows, sc) && UpToHead(Run(empty, program, n).0, sc) {
      RunFits(empty, program, n, sc);
      RunKeepsOrderIff(empty, program, n, sc);
    }
  }

  // ----- After a restart

  function ListCall(board: Id, title: Text): Call {
    (ids: seq<Id>) => ForList(board, title, None, None)
  }

  function CardCall(p: CardParams): Call {
    (ids: seq<Id>) => ForCard(p)
  }

  function ListRow(id: Id, board: Id, title: Text, rank: Rank): Row {
    Row(id, OfList(List(board, title, Some(rank), None, None)))
  }

  lemma OneMore(s: Store, program: seq<Call>, n: nat, t: Store, ids: seq<Id>, u: Store)
    requires n < |program| && Run(s, program, n) == (t, ids) && Ensure(t, program[n](ids)).0 == u
    ensures Run(s, program, n + 1).0 == u
  {
  }

  lemma NewList(t: Store, board: Id, title: Text)
    requires forall k :: 0 <= k < |t.rows| ==> t.rows[k].data.Key() != ListKey(board, title)
    ensures var rank := NextRank(t.listRanks, board);
      Ensure(t, ForList(board, title, None, None)).0 ==
      Store(t.rows + [ListRow(t.nextId, board, title, rank)], t.nextId + 1, t.listRanks[board := rank], t.cardRanks)
  {
  }

  /** Meeting the first list, unchanged, with no chain yet. */
  lemma MetList(t: Store, board: Id, title: Text, rank: Rank)
    requires t.rows != [] && t.rows[0].data == ListRow(0, board, title, rank).data && board !in t.listRanks
    ensures Ensure(t, ForList(board, title, None, None)).0 == t.(listRanks := t.listRanks[board := rank])
  {
    assert Keys(t.rows)[0] == ListKey(board, title);
    assert t.rows[0 := t.rows[0]] == t.rows;
  }

  /** Two lists of one board, as an empty store gets them. */
  function TwoLists(board: Id, a: Text, b: Text): seq<Row> {
    [ListRow(0, board, a, MIDDLE_RANK), ListRow(1, board, b, GenNext(MIDDLE_RANK))]
  }

  lemma SeedsTwoLists(board: Id, a: Text, b: Text)
    requires a != b
    ensures Run(Store([], 0, map[], map[]), [ListCall(board, a), ListCall(board, b)], 2).0 ==
            Store(TwoLists(board, a, b), 2, map[board := GenNext(MIDDLE_RANK)], map[])
  {
    var empty, program := Store([], 0, map[], map[]), [ListCall(board, a), ListCall(board, b)];
    var one := Store([ListRow(0, board, a, MIDDLE_RANK)], 1, map[board := MIDDLE_RANK], map[]);
    NewList(empty, board, a);
    OneMore(empty, program, 0, empty, [], one);
    NewList(one, board, b);
    assert one.rows + [ListRow(1, board, b, GenNext(MIDDLE_RANK))] == TwoLists(board, a, b);
    OneMore(empty, program, 1, one, Run(empty, program, 1).1,
            Store(TwoLists(board, a, b), 2, map[board := GenNext(MIDDLE_RANK)], map[]));
  }

  lemma RestartCollides(board: Id, a: Text, b: Text, c: Text, start: Store)
    requires a != b && a != c && b != c && start == Store(TwoLists(board, a, b), 2, map[], map[])
    ensures Run(start, [ListCall(board, a), ListCall(board, c)], 2).0.rows ==
            TwoLists(board, a, b) + [ListRow(2, board, c, GenNext(MIDDLE_RANK))]
  {
    var program := [ListCall(board, a), ListCall(board, c)];
    var met := start.(listRanks := map[board := MIDDLE_RANK]);
    MetList(start, board, a, MIDDLE_RANK);
    OneMore(start, program, 0, start, [], met);
    NewList(met, board, c);
    OneMore(start, program, 1, met, Run(start, program, 1).1, Ensure(met, ForList(board, c, None, None)).0);
  }

  /**
   From a seeded store the backfill is not enough: after a restart, a program that
   meets only the first of two lists gives a new list the rank of the second.
   */
  lemma BackfillCanCollide(board: Id, a: Text, b: Text, c: Text)
    requires a != b && a != c && b != c
    ensures var first := Run(Store([], 0, map[], map[]), [ListCall(board, a), ListCall(board, b)], 2).0;
      var later := Run(first.(listRanks := map[], cardRanks := map[]), [ListCall(board, a), ListCall(board, c)], 2).0;
      && |later.rows| == 3
      && later.rows[1] == ListRow(1, board, b, GenNext(MIDDLE_RANK))
      && later.rows[2] == ListRow(2, board, c, GenNext(MIDDLE_RANK))
  {
    SeedsTwoLists(board, a, b);
    RestartCollides(board, a, b, c, Store(TwoLists(board, a, b), 2, map[], map[]));
  }

  lemma NewCard(t: Store, p: CardParams)
    requires forall k :: 0 <= k < |t.rows| ==> t.rows[k].data.Key() != ForCard(p).Key()
    ensures var rank := NextRank(t.cardRanks, p.listId);
      Ensure(t, ForCard(p)).0 ==
      Store(t.rows + [Row(t.nextId, OfCard(CreatedCard(p, rank)))], t.nextId + 1, t.listRanks, t.cardRanks[p.listId := rank])
  {
  }

  /** Cards have no backfill at all: after a restart, a new card in a list gets the rank of the first. */
  lemma CardsCollide(p: CardParams, q: CardParams)
    requires p.listId == q.listId && ForCard(p).Key() != ForCard(q).Key()
    ensures var first := Run(Store([], 0, map[], map[]), [CardCall(p)], 1).0;
      var later := Run(first.(listRanks := map[], cardRanks := map[]), [CardCall(q)], 1).0;
      && |later.rows| == 2
      && RankIn(later.rows[0].data, InList(p.listId)) == RankIn(later.rows[1].data, InList(p.listId)) == Some(MIDDLE_RANK)
  {
    var empty := Store([], 0, map[], map[]);
    NewCard(empty, p);
    OneMore(empty, [CardCall(p)], 0, empty, [], Ensure(empty, ForCard(p)).0);
    var start := Ensure(empty, ForCard(p)).0.(listRanks := map[], cardRanks := map[]);
    NewCard(start, q);
    OneMore(start, [CardCall(q)], 0, start, [], Ensure(start, ForCard(q)).0);
  }
}
