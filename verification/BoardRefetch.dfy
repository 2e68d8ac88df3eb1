/**
 Why the optimistic board is right: after the server gives the moved item a rank
 strictly between the two ranks it was sent, a refetch ordered by rank shows
 exactly the order already on screen. The last section says when it does not.
 */
module BoardRefetch {
  import opened Options
  import opened Ordering
  import opened Board
  import opened JsArrays
  import opened Sequences

  ghost predicate Fits(r: Rank, prev: Option<Rank>, next: Option<Rank>) {
    (prev.Some? ==> prev.value < r) && (next.Some? ==> r < next.value)
  }

  /** The server's answer: any rank strictly between the neighbours it was sent. */
  ghost predicate Between(r: Rank, q: MoveRequest) {
    Fits(r, q.prevRank, q.nextRank)
  }

  // ----- Sequences

  lemma ElementsOfRemove<T>(s: seq<T>, i: nat)
    requires i < |s| && NoDuplicates(s)
    ensures Elements(RemoveAt(s, i)) == Elements(s) - {s[i]} && NoDuplicates(RemoveAt(s, i))
  {
    var r := RemoveAt(s, i);
    forall x ensures x in r <==> x in s && x != s[i] {
      if x in s && x != s[i] {
        var k :| 0 <= k < |s| && s[k] == x;
        assert r[if k < i then k else k - 1] == x;
      }
      if x in r {
        var k :| 0 <= k < |r| && r[k] == x;
        assert s[if k < i then k else k + 1] == x;
      }
    }
  }

  lemma ElementsOfInsert<T>(s: seq<T>, i: nat, x: T)
    requires i <= |s| && NoDuplicates(s) && x !in s
    ensures Elements(InsertAt(s, i, x)) == Elements(s) + {x} && NoDuplicates(InsertAt(s, i, x))
  {
    var r := InsertAt(s, i, x);
    assert s == s[..i] + s[i..];
    forall y ensures y in r <==> y in s || y == x {
      assert y in s <==> y in s[..i] || y in s[i..];
    }
  }

  lemma RerankInserted<T>(s: seq<T>, i: nat, x: T, y: T)
    requires i <= |s|
    ensures InsertAt(s, i, x)[i] == x
    ensures InsertAt(s, i, x)[i := y] == InsertAt(s, i, y)
  {
  }

  /** The request's bounds are the ranks around the gap in the untouched rest of the list. */
  lemma RequestBounds<T>(rank: T -> Rank, rest: seq<T>, i: nat, x: T)
    requires i <= |rest|
    ensures PrevRank(rank, InsertAt(rest, i, x), i) == if i > 0 then Some(rank(rest[i - 1])) else None
    ensures NextRank(rank, InsertAt(rest, i, x), i) == if i < |rest| then Some(rank(rest[i])) else None
  {
    var s := InsertAt(rest, i, x);
    assert i > 0 ==> s[i - 1] == rest[i - 1];
    assert i < |rest| ==> s[i + 1] == rest[i];
  }

  /** In an ordered list the two bounds are themselves in order and no other item lies between them. */
  lemma SandwichIsTight<T>(rank: T -> Rank, rest: seq<T>, i: nat, x: T)
    requires i <= |rest| && StrictlyAscending(rank, rest)
    ensures var prev, next := PrevRank(rank, InsertAt(rest, i, x), i), NextRank(rank, InsertAt(rest, i, x), i);
      && (prev.Some? && next.Some? ==> prev.value < next.value)
      && forall y :: y in rest ==> (prev.Some? && rank(y) <= prev.value) || (next.Some? && next.value <= rank(y))
  {
    RequestBounds(rank, rest, i, x);
    forall y | y in rest
      ensures (i > 0 && rank(y) <= rank(rest[i - 1])) || (i < |rest| && rank(rest[i]) <= rank(y))
    {
      var k :| 0 <= k < |rest| && rest[k] == y;
    }
  }

  // ----- List moves

  ghost predicate DistinctLists(lists: seq<BoardList>) {
    forall i, j :: 0 <= i < j < |lists| ==> lists[i].id != lists[j].id
  }

  /** The lists on screen after a list drag, with the rank the server chose. */
  function RankedLists(lists: seq<BoardList>, from: nat, to: nat, r: Rank): seq<BoardList>
    requires from < |lists| && to < |lists|
  {
    var after := MovedLists(lists, from, to);
    after[to := after[to].(rank := r)]
  }

  lemma RankedListsAre(lists: seq<BoardList>, from: nat, to: nat, r: Rank)
    requires from < |lists| && to < |lists| && DistinctLists(lists)
    ensures var rest, y := RemoveAt(lists, from), lists[from].(rank := r);
      && to <= |rest|
      && RankedLists(lists, from, to, r) == InsertAt(rest, to, y)
      && Elements(InsertAt(rest, to, y)) == Elements(lists) - {lists[from]} + {y} && NoDuplicates(InsertAt(rest, to, y))
  {
    var rest, moved := RemoveAt(lists, from), lists[from];
    ElementsOfRemove(lists, from);
    RerankInserted(rest, to, moved, moved.(rank := r));
    forall k | 0 <= k < |rest| ensures rest[k].id != moved.id {
      assert rest[k] == lists[if k < from then k else k + 1];
    }
    ElementsOfInsert(rest, to, moved.(rank := r));
  }

  /** An item put into a gap: every query shows it there exactly when the rest was in strict order and it fits. */
  lemma InsertedAgrees<T(!new)>(rank: T -> Rank, rest: seq<T>, i: nat, x: T)
    requires i <= |rest| && NoDuplicates(InsertAt(rest, i, x))
    ensures (forall view :: OrderedQuery(rank, Elements(InsertAt(rest, i, x)), view) ==> view == InsertAt(rest, i, x))
            <==>
            && StrictlyAscending(rank, rest)
            && (i > 0 ==> rank(rest[i - 1]) < rank(x)) && (i < |rest| ==> rank(x) < rank(rest[i]))
  {
    EveryQueryAgrees(rank, InsertAt(rest, i, x));
    InsertKeepsOrder(rank, rest, i, x);
  }

  /**
   List moves: every refetch of the rows the server now holds shows the
   optimistic order exactly when the other lists were in strict rank order and
   the new rank respects the request.
   */
  lemma ListMoveRefetch(lists: seq<BoardList>, from: nat, to: nat, r: Rank, rows: set<BoardList>)
    requires from < |lists| && to < |lists| && DistinctLists(lists)
    requires rows == Elements(lists) - {lists[from]} + {lists[from].(rank := r)}
    ensures (forall view :: OrderedQuery(ListRank, rows, view) ==> view == RankedLists(lists, from, to, r))
            <==>
            && StrictlyAscending(ListRank, RemoveAt(lists, from))
            && Between(r, ListRequest(MovedLists(lists, from, to), to, lists[from].id))
  {
    RankedListsAre(lists, from, to, r);
    InsertedAgrees(ListRank, RemoveAt(lists, from), to, lists[from].(rank := r));
    RequestBounds(ListRank, RemoveAt(lists, from), to, lists[from]);
  }

  // ----- Card moves

  /** The card table, by card id. */
  type Db = map<Id, Card>

  ghost function RowsOf(db: Db, listId: Id): set<Card> {
    set id | id in db && db[id].listId == listId :: db[id]
  }

  ghost predicate KeyedById(db: Db) {
    forall id :: id in db ==> db[id].id == id
  }

  /** The lists hold exactly the table's rows, each in the list its row names, each once. */
  ghost predicate Shows(lists: seq<BoardList>, db: Db) {
    && KeyedById(db)
    && DistinctLists(lists)
    && forall k :: 0 <= k < |lists| ==>
         Elements(lists[k].cards) == RowsOf(db, lists[k].id) && NoDuplicates(lists[k].cards)
  }

  ghost predicate InOrder(lists: seq<BoardList>) {
    forall k :: 0 <= k < |lists| ==> StrictlyAscending(CardRank, lists[k].cards)
  }

  /** One answer to the board query: same lists, each with its rows ordered by rank. */
  ghost predicate BoardQuery(lists: seq<BoardList>, db: Db, view: seq<BoardList>) {
    && |view| == |lists|
    && forall k :: 0 <= k < |lists| ==>
         && view[k] == lists[k].(cards := view[k].cards)
         && OrderedQuery(CardRank, RowsOf(db, lists[k].id), view[k].cards)
  }

  /** `cardRepo.moveCard`: one row gets a new list and a new rank. */
  function ServerMove(db: Db, id: Id, listId: Id, r: Rank): Db
    requires id in db
  {
    db[id := db[id].(listId := listId, rank := r)]
  }

  /** A drag of an existing card between existing lists, to a position of the target list. */
  ghost predicate ValidDrag(lists: seq<BoardList>, source: Location, destination: Location) {
    var a := IndexOfList(lists, source.droppableId);
    var b := IndexOfList(lists, destination.droppableId);
    && a < |lists| && b < |lists| && source.index < |lists[a].cards|
    && destination.index <= (if a == b then |lists[a].cards| - 1 else |lists[b].cards|)
  }

  ghost function DraggedId(lists: seq<BoardList>, source: Location, destination: Location): Id
    requires ValidDrag(lists, source, destination)
  {
    lists[IndexOfList(lists, source.droppableId)].cards[source.index].id
  }

  /** What is left of the list the card leaves, and the other cards of the list it joins. */
  ghost function Others(lists: seq<BoardList>, source: Location, destination: Location): (seq<Card>, seq<Card>)
    requires ValidDrag(lists, source, destination)
  {
    var a := IndexOfList(lists, source.droppableId);
    var b := IndexOfList(lists, destination.droppableId);
    var rest := RemoveAt(lists[a].cards, source.index);
    (rest, if a == b then rest else lists[b].cards)
  }

  /** The board with new cards in list a and then in list b. */
  ghost function Placed(lists: seq<BoardList>, a: nat, left: seq<Card>, b: nat, cards: seq<Card>): seq<BoardList>
    requires a < |lists| && b < |lists|
  {
    lists[a := lists[a].(cards := left)][b := lists[b].(cards := cards)]
  }

  /** The optimistic board with the rank the server chose. */
  ghost function RankedBoard(lists: seq<BoardList>, source: Location, destination: Location, r: Rank): seq<BoardList>
    requires ValidDrag(lists, source, destination)
  {
    var a := IndexOfList(lists, source.droppableId);
    var b := IndexOfList(lists, destination.droppableId);
    var card := lists[a].cards[source.index].(listId := destination.droppableId, rank := r);
    var (left, joined) := Others(lists, source, destination);
    Placed(lists, a, left, b, InsertAt(joined, destination.index, card))
  }

  lemma OptimisticListIs(lists: seq<BoardList>, source: Location, destination: Location, a: nat, b: nat, k: nat)
    requires DistinctLists(lists) && ValidDrag(lists, source, destination) && k < |lists|
    requires a == IndexOfList(lists, source.droppableId) && b == IndexOfList(lists, destination.droppableId)
    ensures |DragCard(lists, source, destination).0| == |lists|
    ensures DragCard(lists, source, destination).0[k] ==
            if k == b then lists[k].(cards := MovedCards(lists[a], lists[b], source.index, destination.index).1)
            else if k == a then lists[k].(cards := RemoveAt(lists[a].cards, source.index))
            else lists[k]
  {
  }

  /** The optimistic board puts the card, renamed to its new list, into the gap. */
  lemma OptimisticBoardIs(lists: seq<BoardList>, source: Location, destination: Location)
    requires DistinctLists(lists) && ValidDrag(lists, source, destination)
    ensures var a, b := IndexOfList(lists, source.droppableId), IndexOfList(lists, destination.droppableId);
      var (left, joined) := Others(lists, source, destination);
      var moved := lists[a].cards[source.index].(listId := destination.droppableId);
      DragCard(lists, source, destination).0 == Placed(lists, a, left, b, InsertAt(joined, destination.index, moved))
  {
    var a, b := IndexOfList(lists, source.droppableId), IndexOfList(lists, destination.droppableId);
    var after := DragCard(lists, source, destination).0;
    var (left, joined) := Others(lists, source, destination);
    var moved := lists[a].cards[source.index].(listId := destination.droppableId);
    var placed := Placed(lists, a, left, b, InsertAt(joined, destination.index, moved));
    assert |after| == |lists|;
    forall k: nat | k < |lists| ensures after[k] == placed[k] {
      OptimisticListIs(lists, source, destination, a, b, k);
    }
  }

  lemma RerankPlaced(lists: seq<BoardList>, a: nat, left: seq<Card>, b: nat, rest: seq<Card>, i: nat, x: Card, r: Rank)
    requires a < |lists| && b < |lists| && i <= |rest|
    ensures var after := Placed(lists, a, left, b, InsertAt(rest, i, x));
      && after[b].cards[i] == x
      && Placed(lists, a, left, b, InsertAt(rest, i, x.(rank := r))) ==
         after[b := after[b].(cards := after[b].cards[i := x.(rank := r)])]
  {
    RerankInserted(rest, i, x, x.(rank := r));
  }

  /** RankedBoard is the optimistic board of the drag, except for the moved card's rank. */
  lemma RankedBoardIsOptimistic(lists: seq<BoardList>, source: Location, destination: Location, r: Rank)
    requires DistinctLists(lists) && ValidDrag(lists, source, destination)
    ensures var b := IndexOfList(lists, destination.droppableId);
      var after := DragCard(lists, source, destination).0;
      && |after| == |lists| && destination.index < |after[b].cards|
      && RankedBoard(lists, source, destination, r) ==
         after[b := after[b].(cards := after[b].cards[destination.index := after[b].cards[destination.index].(rank := r)])]
  {
    var a, b := IndexOfList(lists, source.droppableId), IndexOfList(lists, destination.droppableId);
    var (left, joined) := Others(lists, source, destination);
    OptimisticBoardIs(lists, source, destination);
    RerankPlaced(lists, a, left, b, joined, destination.index,
                 lists[a].cards[source.index].(listId := destination.droppableId), r);
  }

  /** The request names the dragged card, the target list and the ranks around the gap in the target's other cards. */
  lemma CardRequestIs(lists: seq<BoardList>, source: Location, destination: Location)
    requires ValidDrag(lists, source, destination)
    ensures var (_, joined) := Others(lists, source, destination);
      var q := DragCard(lists, source, destination).1;
      && q.Some? && q.value.targetListId == Some(destination.droppableId)
      && q.value.itemId == lists[IndexOfList(lists, source.droppableId)].cards[source.index].id
      && q.value.prevRank == (if destination.index > 0 then Some(joined[destination.index - 1].rank) else None)
      && q.value.nextRank == (if destination.index < |joined| then Some(joined[destination.index].rank) else None)
  {
    var a := IndexOfList(lists, source.droppableId);
    var b := IndexOfList(lists, destination.droppableId);
    var (left, joined) := Others(lists, source, destination);
    var moved := lists[a].cards[source.index].(listId := destination.droppableId);
    RequestBounds(CardRank, joined, destination.index, moved);
    assert MovedCards(lists[a], lists[b], source.index, destination.index).1 == InsertAt(joined, destination.index, moved);
  }

  lemma RowsAfterMove(db: Db, id: Id, listId: Id, r: Rank, l: Id)
    requires KeyedById(db) && id in db
    ensures KeyedById(ServerMove(db, id, listId, r))
    ensures RowsOf(ServerMove(db, id, listId, r), l) ==
            RowsOf(db, l) - {db[id]} + (if l == listId then {db[id].(listId := listId, rank := r)} else {})
  {
    var db' := ServerMove(db, id, listId, r);
    forall c ensures c in RowsOf(db', l) <==>
      c in RowsOf(db, l) - {db[id]} + (if l == listId then {db[id].(listId := listId, rank := r)} else {})
    {
      if c in RowsOf(db', l) {
        assert c.id in db' && db'[c.id] == c;
      }
      if c in RowsOf(db, l) - {db[id]} {
        assert c.id in db && db[c.id] == c && c.id != id;
        assert db'[c.id] == c;
      }
      if l == listId {
        assert db'[id] in RowsOf(db', l);
      }
    }
  }

  /**
   Conservation: after a drag and the server's move, the optimistic board still
   holds every row exactly once, in the list its row names; no other list changed.
   */
  lemma MoveConservesCards(lists: seq<BoardList>, db: Db, source: Location, destination: Location, r: Rank)
    requires Shows(lists, db) && ValidDrag(lists, source, destination)
    ensures DraggedId(lists, source, destination) in db
    ensures Shows(RankedBoard(lists, source, destination, r),
                  ServerMove(db, DraggedId(lists, source, destination), destination.droppableId, r))
    ensures ServerMove(db, DraggedId(lists, source, destination), destination.droppableId, r).Keys == db.Keys
    ensures forall k :: 0 <= k < |lists| && lists[k].id !in {source.droppableId, destination.droppableId}
              ==> RankedBoard(lists, source, destination, r)[k] == lists[k]
  {
    MovedRow(lists, db, source, destination);
    var db' := ServerMove(db, DraggedId(lists, source, destination), destination.droppableId, r);
    RowsAfterMove(db, DraggedId(lists, source, destination), destination.droppableId, r, "");
    var board := RankedBoard(lists, source, destination, r);
    SameIds(lists, source, destination, r);
    forall k: nat | k < |board|
      ensures Elements(board[k].cards) == RowsOf(db', board[k].id) && NoDuplicates(board[k].cards)
    {
      ListAfterMove(lists, db, source, destination, r, k);
    }
  }

  lemma SameIds(lists: seq<BoardList>, source: Location, destination: Location, r: Rank)
    requires ValidDrag(lists, source, destination)
    ensures var board := RankedBoard(lists, source, destination, r);
      && |board| == |lists|
      && (DistinctLists(lists) ==> DistinctLists(board))
      && forall k :: 0 <= k < |lists| ==>
           && board[k].id == lists[k].id
           && (lists[k].id !in {source.droppableId, destination.droppableId} ==> board[k] == lists[k])
  {
  }

  lemma MovedRow(lists: seq<BoardList>, db: Db, source: Location, destination: Location)
    requires Shows(lists, db) && ValidDrag(lists, source, destination)
    ensures var card := lists[IndexOfList(lists, source.droppableId)].cards[source.index];
      card.id in db && db[card.id] == card && card.listId == source.droppableId
  {
    var a := IndexOfList(lists, source.droppableId);
    var card := lists[a].cards[source.index];
    assert card in Elements(lists[a].cards);
    assert card in RowsOf(db, lists[a].id);
  }

  lemma ListAfterMove(lists: seq<BoardList>, db: Db, source: Location, destination: Location, r: Rank, k: nat)
    requires Shows(lists, db) && ValidDrag(lists, source, destination) && k < |lists|
    requires lists[IndexOfList(lists, source.droppableId)].cards[source.index].id in db
    ensures var id := lists[IndexOfList(lists, source.droppableId)].cards[source.index].id;
      var l := RankedBoard(lists, source, destination, r)[k];
      && Elements(l.cards) == RowsOf(ServerMove(db, id, destination.droppableId, r), l.id)
      && NoDuplicates(l.cards)
  {
    var a := IndexOfList(lists, source.droppableId);
    var b := IndexOfList(lists, destination.droppableId);
    var card := lists[a].cards[source.index];
    var moved := card.(listId := destination.droppableId, rank := r);
    MovedRow(lists, db, source, destination);
    ElementsOfRemove(lists[a].cards, source.index);
    RowsAfterMove(db, card.id, destination.droppableId, r, lists[k].id);
    if k != a {
      assert card !in RowsOf(db, lists[k].id);
    }
    if k == b {
      var joined := Others(lists, source, destination).1;
      OthersAreOthers(lists, db, source, destination);
      ElementsOfInsert(joined, destination.index, moved);
    }
  }

  ghost function SomeAnswer(rows: set<Card>, s: seq<Card>): (view: seq<Card>)
    requires NoDuplicates(s) && rows == Elements(s)
    ensures OrderedQuery(CardRank, rows, view)
  {
    assert exists v :: OrderedQuery(CardRank, rows, v) by {
      var v := QueryHasAnswer(CardRank, s);
    }
    var view :| OrderedQuery(CardRank, rows, view);
    view
  }

  /** The board on screen is what every refetch shows exactly when each list is in strict rank order. */
  lemma EveryBoardQueryAgrees(lists: seq<BoardList>, db: Db)
    requires Shows(lists, db)
    ensures (forall view :: BoardQuery(lists, db, view) ==> view == lists) <==> InOrder(lists)
  {
    if InOrder(lists) {
      forall view: seq<BoardList> | BoardQuery(lists, db, view) ensures view == lists {
        forall k | 0 <= k < |lists| ensures view[k] == lists[k] {
          QueryIsUnique(CardRank, lists[k].cards, view[k].cards);
        }
      }
    } else {
      var k :| 0 <= k < |lists| && !StrictlyAscending(CardRank, lists[k].cards);
      var other := AnotherAnswer(CardRank, lists[k].cards);
      var view := seq(|lists|, i requires 0 <= i < |lists| =>
        lists[i].(cards := if i == k then other else SomeAnswer(RowsOf(db, lists[i].id), lists[i].cards)));
      assert view[k] != lists[k];
      assert BoardQuery(lists, db, view);
    }
  }

  /**
   Card moves, within a list or across lists: every refetch shows the optimistic
   board exactly when the cards other than the moved one were in strict rank
   order and the new rank respects the request.
   */
  lemma CardMoveRefetch(lists: seq<BoardList>, db: Db, source: Location, destination: Location, r: Rank)
    requires Shows(lists, db) && ValidDrag(lists, source, destination)
    ensures var q := DragCard(lists, source, destination).1;
      var board := RankedBoard(lists, source, destination, r);
      var (left, joined) := Others(lists, source, destination);
      && q.Some? && q.value.itemId in db
      && ((forall view :: BoardQuery(board, ServerMove(db, q.value.itemId, destination.droppableId, r), view) ==> view == board)
          <==>
          && StrictlyAscending(CardRank, left) && StrictlyAscending(CardRank, joined)
          && (forall k :: 0 <= k < |lists| && lists[k].id !in {source.droppableId, destination.droppableId}
                ==> StrictlyAscending(CardRank, lists[k].cards))
          && Between(r, q.value))
  {
    var a := IndexOfList(lists, source.droppableId);
    var b := IndexOfList(lists, destination.droppableId);
    var (left, joined) := Others(lists, source, destination);
    var moved := lists[a].cards[source.index].(listId := destination.droppableId, rank := r);
    var board := RankedBoard(lists, source, destination, r);
    MoveConservesCards(lists, db, source, destination, r);
    CardRequestIs(lists, source, destination);
    EveryBoardQueryAgrees(board, ServerMove(db, lists[a].cards[source.index].id, destination.droppableId, r));
    InsertKeepsOrder(CardRank, joined, destination.index, moved);
    BoardOrder(lists, source, destination, r);
  }

  lemma BoardOrder(lists: seq<BoardList>, source: Location, destination: Location, r: Rank)
    requires DistinctLists(lists) && ValidDrag(lists, source, destination)
    ensures var a := IndexOfList(lists, source.droppableId);
      var (left, joined) := Others(lists, source, destination);
      var moved := lists[a].cards[source.index].(listId := destination.droppableId, rank := r);
      InOrder(RankedBoard(lists, source, destination, r)) <==>
        && (source.droppableId != destination.droppableId ==> StrictlyAscending(CardRank, left))
        && StrictlyAscending(CardRank, InsertAt(joined, destination.index, moved))
        && (forall k :: 0 <= k < |lists| && lists[k].id !in {source.droppableId, destination.droppableId}
              ==> StrictlyAscending(CardRank, lists[k].cards))
  {
    var a := IndexOfList(lists, source.droppableId);
    var b := IndexOfList(lists, destination.droppableId);
    var board := RankedBoard(lists, source, destination, r);
    var (left, joined) := Others(lists, source, destination);
    var moved := lists[a].cards[source.index].(listId := destination.droppableId, rank := r);
    assert board[b].cards == InsertAt(joined, destination.index, moved);
    assert a != b ==> board[a].cards == left;
    assert forall k :: 0 <= k < |lists| && k != a && k != b ==> board[k] == lists[k];
  }

  /**
   One card drag: a board that shows the table in strict order still does after the
   drag, its server move and its refetch.
   */
  lemma DragKeepsBoard(lists: seq<BoardList>, db: Db, source: Location, destination: Location, r: Rank, view: seq<BoardList>)
    requires Shows(lists, db) && InOrder(lists) && ValidDrag(lists, source, destination)
    requires Between(r, DragCard(lists, source, destination).1.value)
    requires DraggedId(lists, source, destination) in db
    requires BoardQuery(RankedBoard(lists, source, destination, r),
                        ServerMove(db, DraggedId(lists, source, destination), destination.droppableId, r), view)
    ensures view == RankedBoard(lists, source, destination, r) && InOrder(view)
    ensures Shows(view, ServerMove(db, DraggedId(lists, source, destination), destination.droppableId, r))
  {
    RestInOrder(lists, source, destination);
    CardMoveRefetch(lists, db, source, destination, r);
    CardRequestIs(lists, source, destination);
    MoveConservesCards(lists, db, source, destination, r);
    EveryBoardQueryAgrees(RankedBoard(lists, source, destination, r),
                          ServerMove(db, DraggedId(lists, source, destination), destination.droppableId, r));
  }

  lemma RestInOrder(lists: seq<BoardList>, source: Location, destination: Location)
    requires InOrder(lists) && ValidDrag(lists, source, destination)
    ensures var (left, joined) := Others(lists, source, destination);
      StrictlyAscending(CardRank, left) && StrictlyAscending(CardRank, joined)
  {
    var (left, joined) := Others(lists, source, destination);
    var cards := lists[IndexOfList(lists, source.droppableId)].cards;
    assert forall k :: 0 <= k < |left| ==> left[k] == cards[if k < source.index then k else k + 1];
  }

  // ----- When the screen and the server part ways

  /**
   A second drag before the refetch sends the first item's old rank. Here C was
   moved before A (the server gave it 1/2) and then B between C and A: the bounds
   are 3 and 1, and for every rank between those the refetch shows C, A, B.
   */
  lemma StaleRankMisplacesSecondDrag(r: Rank)
    requires 1.0 < r < 3.0
    ensures var a, b, c := BoardList("A", 1.0, []), BoardList("B", 2.0, []), BoardList("C", 3.0, []);
      var first := MovedLists([a, b, c], 2, 0);
      var second := MovedLists(first, 2, 1);
      var q := ListRequest(second, 1, "B");
      && second == [c, b, a]
      && q.prevRank == Some(3.0) && q.nextRank == Some(1.0)
      && forall view :: OrderedQuery(ListRank, {a, b.(rank := r), c.(rank := 0.5)}, view)
           ==> view == [c.(rank := 0.5), a, b.(rank := r)]
  {
    var a, b, c := BoardList("A", 1.0, []), BoardList("B", 2.0, []), BoardList("C", 3.0, []);
    assert MovedLists([a, b, c], 2, 0) == [c, a, b];
    assert MovedLists([c, a, b], 2, 1) == [c, b, a];
    var shown := [c.(rank := 0.5), a, b.(rank := r)];
    assert Elements(shown) == {a, b.(rank := r), c.(rank := 0.5)};
    assert StrictlyAscending(ListRank, shown);
    forall view | OrderedQuery(ListRank, {a, b.(rank := r), c.(rank := 0.5)}, view) ensures view == shown {
      QueryIsUnique(ListRank, shown, view);
    }
  }

  /** Two bounds with nothing between them. */
  predicate SameBounds(prev: Option<Rank>, next: Option<Rank>) {
    prev.Some? && next.Some? && prev.value == next.value
  }

  /**
   The ranks the server may pick for two bounds. Bounds that arrive in the wrong
   order are put right. For equal bounds it falls back to one fixed rank, or refuses
   the move when there is no fallback: cards have one, lists have none.
   */
  ghost predicate MayPick(r: Rank, prev: Option<Rank>, next: Option<Rank>, fallback: Option<Rank>) {
    if SameBounds(prev, next) then fallback == Some(r)
    else if prev.Some? && next.Some? then Lower(prev.value, next.value) < r < Higher(prev.value, next.value)
    else Fits(r, prev, next)
  }

  function Lower(a: Rank, b: Rank): Rank {
    if a < b then a else b
  }

  function Higher(a: Rank, b: Rank): Rank {
    if a < b then b else a
  }

  /** The shown neighbour ranks lie within the true gap. */
  ghost predicate WithinGap(p: Option<Rank>, n: Option<Rank>, truePrev: Option<Rank>, trueNext: Option<Rank>) {
    && (p.Some? && truePrev.Some? ==> truePrev.value <= p.value)
    && (n.Some? && trueNext.Some? ==> n.value <= trueNext.value)
    && (p.Some? && n.Some? && truePrev.Some? && trueNext.Some? ==> truePrev.value <= n.value && p.value <= trueNext.value)
  }

  /** Sending stale bounds is harmless for every pick exactly when both lie within the true gap. */
  lemma StaleBoundsIff(p: Option<Rank>, n: Option<Rank>, truePrev: Option<Rank>, trueNext: Option<Rank>, fallback: Option<Rank>)
    requires p.Some? == truePrev.Some? && n.Some? == trueNext.Some? && !SameBounds(p, n)
    requires truePrev.Some? && trueNext.Some? ==> truePrev.value < trueNext.value
    ensures (forall r :: MayPick(r, p, n, fallback) ==> Fits(r, truePrev, trueNext))
            <==> WithinGap(p, n, truePrev, trueNext)
  {
    if p.Some? && n.Some? {
      var lo, hi := Lower(p.value, n.value), Higher(p.value, n.value);
      if lo < truePrev.value {
        var r := (lo + Lower(hi, truePrev.value)) / 2.0;
        assert MayPick(r, p, n, fallback) && !Fits(r, truePrev, trueNext);
      } else if trueNext.value < hi {
        var r := (hi + Higher(lo, trueNext.value)) / 2.0;
        assert MayPick(r, p, n, fallback) && !Fits(r, truePrev, trueNext);
      }
    } else if p.Some? && p.value < truePrev.value {
      assert MayPick(truePrev.value, p, n, fallback) && !Fits(truePrev.value, truePrev, trueNext);
    } else if n.Some? && trueNext.value < n.value {
      assert MayPick(trueNext.value, p, n, fallback) && !Fits(trueNext.value, truePrev, trueNext);
    }
  }

  function RankBefore<T>(rank: T -> Rank, rest: seq<T>, i: nat): Option<Rank>
    requires i <= |rest|
  {
    if i > 0 then Some(rank(rest[i - 1])) else None
  }

  function RankFrom<T>(rank: T -> Rank, rest: seq<T>, i: nat): Option<Rank>
    requires i <= |rest|
  {
    if i < |rest| then Some(rank(rest[i])) else None
  }

  /** The ranks in the database once the server has moved x to rank r. */
  function Moved<T(==)>(actual: T -> Rank, x: T, r: Rank): T -> Rank {
    y => if y == x then r else actual(y)
  }

  lemma MovedOrder<T>(actual: T -> Rank, rest: seq<T>, i: nat, x: T, r: Rank)
    requires i <= |rest| && x !in rest
    ensures StrictlyAscending(Moved(actual, x, r), InsertAt(rest, i, x)) <==>
            StrictlyAscending(actual, rest) && Fits(r, RankBefore(actual, rest, i), RankFrom(actual, rest, i))
  {
    InsertKeepsOrder(Moved(actual, x, r), rest, i, x);
    assert forall k :: 0 <= k < |rest| ==> rest[k] in rest;
  }

  lemma SomePick(p: Option<Rank>, n: Option<Rank>, fallback: Option<Rank>) returns (r: Rank)
    requires !SameBounds(p, n)
    ensures MayPick(r, p, n, fallback)
  {
    r := if p.Some? && n.Some? then (p.value + n.value) / 2.0
         else if p.Some? then p.value + 1.0
         else if n.Some? then n.value - 1.0 else 0.0;
  }

  /** What makes every pick right: both bounds within the true gap, or for equal bounds the fallback rank in it. */
  ghost predicate Harmless(p: Option<Rank>, n: Option<Rank>, truePrev: Option<Rank>, trueNext: Option<Rank>, fallback: Option<Rank>) {
    if SameBounds(p, n) then fallback.Some? ==> Fits(fallback.value, truePrev, trueNext)
    else WithinGap(p, n, truePrev, trueNext)
  }

  /**
   A drag over ranks that may be stale, such as a second drag before the refetch:
   whatever the server picks, its order is the one on screen exactly when the server
   refuses the move, or the other items are in order in the database and the bounds
   sent, or the fallback for equal ones, lie within the true gap.
   */
  lemma StaleDragIff<T>(shown: T -> Rank, actual: T -> Rank, rest: seq<T>, i: nat, x: T, fallback: Option<Rank>)
    requires i <= |rest| && x !in rest
    ensures var p, n := RankBefore(shown, rest, i), RankFrom(shown, rest, i);
      (forall r :: MayPick(r, p, n, fallback) ==> StrictlyAscending(Moved(actual, x, r), InsertAt(rest, i, x)))
      <==>
      || (SameBounds(p, n) && fallback.None?)
      || (StrictlyAscending(actual, rest) && Harmless(p, n, RankBefore(actual, rest, i), RankFrom(actual, rest, i), fallback))
  {
    var p, n := RankBefore(shown, rest, i), RankFrom(shown, rest, i);
    forall r ensures StrictlyAscending(Moved(actual, x, r), InsertAt(rest, i, x)) <==>
                     StrictlyAscending(actual, rest) && Fits(r, RankBefore(actual, rest, i), RankFrom(actual, rest, i))
    {
      MovedOrder(actual, rest, i, x, r);
    }
    if SameBounds(p, n) {
      if fallback.Some? {
        assert MayPick(fallback.value, p, n, fallback);
      }
    } else {
      var some := SomePick(p, n, fallback);
      if StrictlyAscending(actual, rest) {
        StaleBoundsIff(p, n, RankBefore(actual, rest, i), RankFrom(actual, rest, i), fallback);
      }
    }
  }

  /** The cards a column renders: those the filter lets through, in order. */
  function FilterCards(show: Card -> bool, cards: seq<Card>): (r: seq<Card>)
    ensures |r| <= |cards|
  {
    if cards == [] then []
    else if show(cards[0]) then [cards[0]] + FilterCards(show, cards[1..])
    else FilterCards(show, cards[1..])
  }

  lemma {:induction false} ShownAreCards(show: Card -> bool, cards: seq<Card>)
    ensures forall c :: c in FilterCards(show, cards) <==> c in cards && show(c)
  {
    if cards != [] {
      ShownAreCards(show, cards[1..]);
      assert forall c :: c in cards <==> c == cards[0] || c in cards[1..];
    }
  }

  /**
   Indices are counted among the rendered cards but applied to all cards: the
   card the drag takes is the one under the mouse exactly when nothing before
   it, nor itself, is hidden.
   */
  lemma {:induction false} DragTakesTheRenderedCard(show: Card -> bool, cards: seq<Card>, i: nat)
    requires NoDuplicates(cards) && i < |FilterCards(show, cards)|
    ensures cards[i] == FilterCards(show, cards)[i] <==> forall j :: 0 <= j <= i ==> show(cards[j])
  {
    var shown := FilterCards(show, cards);
    if show(cards[0]) {
      if i > 0 {
        DragTakesTheRenderedCard(show, cards[1..], i - 1);
        assert forall j :: 1 <= j <= i ==> cards[j] == cards[1..][j - 1];
        assert forall j :: 0 <= j <= i - 1 ==> cards[1..][j] == cards[j + 1];
      }
    } else {
      HiddenPrefixShifts(show, cards[1..], i);
      if i == 0 {
        ShownAreCards(show, cards);
        assert shown[0] in shown;
      } else {
        var m :| i <= m < |cards[1..]| && cards[1..][m] == shown[i];
        assert cards[m + 1] == shown[i];
        assert cards[i] != cards[m + 1];
      }
    }
  }

  /** The i-th rendered card stands at index i or later. */
  lemma {:induction false} HiddenPrefixShifts(show: Card -> bool, cards: seq<Card>, i: nat)
    requires i < |FilterCards(show, cards)|
    ensures exists m :: i <= m < |cards| && cards[m] == FilterCards(show, cards)[i]
  {
    if show(cards[0]) && i == 0 {
      assert cards[0] == FilterCards(show, cards)[0];
    } else {
      var j := if show(cards[0]) then i - 1 else i;
      HiddenPrefixShifts(show, cards[1..], j);
      var m :| j <= m < |cards[1..]| && cards[1..][m] == FilterCards(show, cards[1..])[j];
      assert cards[m + 1] == FilterCards(show, cards)[i];
    }
  }

  lemma FilterCons(show: Card -> bool, c: Card, rest: seq<Card>)
    ensures FilterCards(show, [c] + rest) == (if show(c) then [c] else []) + FilterCards(show, rest)
  {
    assert ([c] + rest)[1..] == rest;
  }

  lemma {:induction false} FilterConcat(show: Card -> bool, a: seq<Card>, b: seq<Card>)
    ensures FilterCards(show, a + b) == FilterCards(show, a) + FilterCards(show, b)
  {
    if a == [] {
      assert a + b == b;
    } else {
      var c, tail := a[0], a[1..];
      FilterConcat(show, tail, b);
      FilterCons(show, c, tail + b);
      FilterCons(show, c, tail);
      ConcatAssociates([c], tail, b);
      ConcatAssociates(if show(c) then [c] else [], FilterCards(show, tail), FilterCards(show, b));
      assert a == [c] + tail;
    }
  }

  lemma {:induction false} FilterKeepsAllIff(show: Card -> bool, cards: seq<Card>)
    ensures |FilterCards(show, cards)| == |cards| <==> forall j :: 0 <= j < |cards| ==> show(cards[j])
  {
    if cards != [] {
      FilterKeepsAllIff(show, cards[1..]);
      assert forall j :: 1 <= j < |cards| ==> cards[j] == cards[1..][j - 1];
    }
  }

  lemma PositionIs<T>(front: seq<T>, x: T, back: seq<T>, i: nat)
    requires x !in front && x !in back
    ensures (i < |front + [x] + back| && (front + [x] + back)[i] == x) <==> i == |front|
  {
    var s := front + [x] + back;
    assert forall k :: 0 <= k < |front| ==> s[k] == front[k] && s[k] in front;
    assert forall k :: |front| < k < |s| ==> s[k] == back[k - |front| - 1] && s[k] in back;
  }

  lemma FilterOfInsert(show: Card -> bool, rest: seq<Card>, i: nat, card: Card)
    requires i <= |rest| && show(card)
    ensures FilterCards(show, InsertAt(rest, i, card)) == FilterCards(show, rest[..i]) + [card] + FilterCards(show, rest[i..])
  {
    FilterConcat(show, rest[..i] + [card], rest[i..]);
    FilterConcat(show, rest[..i], [card]);
    assert FilterCards(show, [card]) == [card];
  }

  /** An inserted card is rendered at its index exactly when everything before it is rendered. */
  lemma RenderedAfterDrop(show: Card -> bool, rest: seq<Card>, i: nat, card: Card)
    requires i <= |rest| && card !in rest && show(card)
    ensures var shown := FilterCards(show, InsertAt(rest, i, card));
      (i < |shown| && shown[i] == card) <==> forall j :: 0 <= j < i ==> show(rest[j])
  {
    var front, back := FilterCards(show, rest[..i]), FilterCards(show, rest[i..]);
    FilterOfInsert(show, rest, i, card);
    ShownAreCards(show, rest[..i]);
    ShownAreCards(show, rest[i..]);
    assert card !in front && card !in back;
    PositionIs(front, card, back, i);
    FilterKeepsAllIff(show, rest[..i]);
    assert forall j :: 0 <= j < i ==> rest[..i][j] == rest[j];
  }

  /**
   The drop's index is counted among the rendered cards as well: the column shows the
   card where it was dropped exactly when no hidden card is among as many of the
   target's other cards.
   */
  lemma DropShowsWhereItFell(lists: seq<BoardList>, db: Db, source: Location, destination: Location, show: Card -> bool)
    requires Shows(lists, db) && ValidDrag(lists, source, destination)
    requires show(lists[IndexOfList(lists, source.droppableId)].cards[source.index].(listId := destination.droppableId))
    ensures var b := IndexOfList(lists, destination.droppableId);
      var card := lists[IndexOfList(lists, source.droppableId)].cards[source.index].(listId := destination.droppableId);
      var (_, joined) := Others(lists, source, destination);
      var shown := FilterCards(show, DragCard(lists, source, destination).0[b].cards);
      (destination.index < |shown| && shown[destination.index] == card)
      <==> forall j :: 0 <= j < destination.index ==> show(joined[j])
  {
    var a := IndexOfList(lists, source.droppableId);
    var card := lists[a].cards[source.index].(listId := destination.droppableId);
    var (left, joined) := Others(lists, source, destination);
    OptimisticBoardIs(lists, source, destination);
    MovedRow(lists, db, source, destination);
    ElementsOfRemove(lists[a].cards, source.index);
    OthersAreOthers(lists, db, source, destination);
    RenderedAfterDrop(show, joined, destination.index, card);
  }

  /** The target's other cards are other rows than the dragged one. */
  lemma OthersAreOthers(lists: seq<BoardList>, db: Db, source: Location, destination: Location)
    requires Shows(lists, db) && ValidDrag(lists, source, destination)
    ensures var (_, joined) := Others(lists, source, destination);
      forall c :: c in joined ==> c.id != DraggedId(lists, source, destination)
  {
    var a, b := IndexOfList(lists, source.droppableId), IndexOfList(lists, destination.droppableId);
    var card := lists[a].cards[source.index];
    var (_, joined) := Others(lists, source, destination);
    MovedRow(lists, db, source, destination);
    ElementsOfRemove(lists[a].cards, source.index);
    forall c | c in joined ensures c.id != card.id {
      assert c in Elements(joined);
      assert c in Elements(lists[b].cards) && c in RowsOf(db, lists[b].id);
      assert db[c.id] == c && c.listId == lists[b].id;
    }
  }

  /** The filter with no search text, labels or assignee: subcards are hidden. */
  predicate TopLevel(c: Card) {
    c.parentCardId.None?
  }

  /** One hidden subcard above the dragged card, and the drag moves the subcard instead. */
  lemma HiddenSubcardIsDraggedInstead(sub: Card, card: Card)
    requires sub.parentCardId.Some? && card.parentCardId.None?
    ensures FilterCards(TopLevel, [sub, card]) == [card]
    ensures var lists := [BoardList("L", 1.0, [sub, card]), BoardList("M", 2.0, [])];
      DragCard(lists, Location("L", 0), Location("M", 0)).1 == Some(MoveRequest(sub.id, Some("M"), None, None))
  {
    assert [sub, card][1..] == [card];
    assert FilterCards(TopLevel, [card]) == [card];
    var lists := [BoardList("L", 1.0, [sub, card]), BoardList("M", 2.0, [])];
    assert IndexOfList(lists, "L") == 0;
    assert IndexOfList(lists, "M") == 1;
  }

  lemma ShownWithHidden(sub: Card, a: Card, b: Card, c: Card)
    requires sub.parentCardId.Some? && a.parentCardId.None? && b.parentCardId.None? && c.parentCardId.None?
    ensures FilterCards(TopLevel, [sub, a, b]) == [a, b]
    ensures FilterCards(TopLevel, [sub, a, b, c]) == [a, b, c]
  {
    FilterCons(TopLevel, c, []);
    FilterCons(TopLevel, b, []);
    FilterCons(TopLevel, b, [c]);
    FilterCons(TopLevel, a, [b]);
    FilterCons(TopLevel, a, [b, c]);
    FilterCons(TopLevel, sub, [a, b]);
    FilterCons(TopLevel, sub, [a, b, c]);
    assert [sub] + [a, b, c] == [sub, a, b, c] && [a] + [b, c] == [a, b, c] && [b] + [c] == [b, c] && [c] + [] == [c];
    assert [sub] + [a, b] == [sub, a, b] && [a] + [b] == [a, b] && [b] + [] == [b];
  }

  lemma DropAfterFirst(lists: seq<BoardList>, l: BoardList, m: BoardList, moved: Card)
    requires lists == [l, m] && l.id == "L" && m.id == "M" && |l.cards| == 1 && |m.cards| >= 1
    requires moved == l.cards[0].(listId := "M")
    ensures var after := DragCard(lists, Location("L", 0), Location("M", 1)).0;
      |after| == 2 && after[1].cards == InsertAt(m.cards, 1, moved)
  {
    assert IndexOfList(lists, "L") == 0;
    assert IndexOfList(lists, "M") == 1;
  }

  /** A hidden subcard on top of the target: a card dropped between x and y is rendered above x. */
  lemma HiddenSubcardShiftsTheDrop(lists: seq<BoardList>, card: Card, sub: Card, x: Card, y: Card)
    requires lists == [BoardList("L", 1.0, [card]), BoardList("M", 2.0, [sub, x, y])]
    requires sub.parentCardId.Some? && card.parentCardId.None? && x.parentCardId.None? && y.parentCardId.None?
    ensures FilterCards(TopLevel, [sub, x, y]) == [x, y]
    ensures var after := DragCard(lists, Location("L", 0), Location("M", 1)).0;
      |after| == 2 && FilterCards(TopLevel, after[1].cards) == [card.(listId := "M"), x, y]
  {
    var moved := card.(listId := "M");
    ShownWithHidden(sub, moved, x, y);
    ShownWithHidden(sub, x, y, y);
    DropAfterFirst(lists, lists[0], lists[1], moved);
    assert InsertAt([sub, x, y], 1, moved) == [sub, moved, x, y];
  }
}
