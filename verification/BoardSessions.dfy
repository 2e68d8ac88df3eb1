/**
 Whole sessions on one board: list drags and card drags, each answered by the server
 and followed by a refetch of both tables. Every refetch shows the optimistic board.
 */
module BoardSessions {
  import opened Options
  import opened Ordering
  import opened Board
  import opened BoardRefetch

  /** The list table, which holds a rank per list, and the card table. */
  datatype Tables = Tables(listRanks: map<Id, Rank>, cards: Db)

  /** A list without its cards: what the list table knows of it. */
  function Header(l: BoardList): BoardList {
    l.(cards := [])
  }

  function Headers(lists: seq<BoardList>): (h: seq<BoardList>)
    ensures |h| == |lists|
  {
    seq(|lists|, k requires 0 <= k < |lists| => Header(lists[k]))
  }

  ghost function HeaderRows(ranks: map<Id, Rank>): set<BoardList> {
    set id | id in ranks :: BoardList(id, ranks[id], [])
  }

  /** One answer to the board query: the lists ordered by rank, each with its cards ordered by rank. */
  ghost predicate Answers(t: Tables, view: seq<BoardList>) {
    && OrderedQuery(ListRank, HeaderRows(t.listRanks), Headers(view))
    && forall k :: 0 <= k < |view| ==> OrderedQuery(CardRank, RowsOf(t.cards, view[k].id), view[k].cards)
  }

  /** The board shows both tables, in strict rank order. */
  ghost predicate Current(board: seq<BoardList>, t: Tables) {
    && Elements(Headers(board)) == HeaderRows(t.listRanks)
    && StrictlyAscending(ListRank, Headers(board))
    && Shows(board, t.cards) && InOrder(board)
  }

  /** A board that shows the tables in strict order is the only answer. */
  lemma OnlyAnswer(board: seq<BoardList>, t: Tables, view: seq<BoardList>)
    requires Current(board, t) && Answers(t, view)
    ensures view == board
  {
    QueryIsUnique(ListRank, Headers(board), Headers(view));
    forall k | 0 <= k < |board| ensures view[k] == board[k] {
      assert Headers(view)[k] == Headers(board)[k];
      QueryIsUnique(CardRank, board[k].cards, view[k].cards);
    }
  }

  // ----- Steps

  /** A drop with the rank the server picks should it be asked, or a refetch alone. */
  datatype Step =
    | Drag(kind: DragKind, source: Location, destination: Option<Location>, id: Id, rank: Rank)
    | Refetch

  function RequestOf(board: seq<BoardList>, e: Step): Option<MoveRequest>
    requires e.Drag? && e.kind.ListDrag? ==> e.source.index < |board|
  {
    if e.Refetch? then None else Dragged(e.kind, board, e.source, e.destination, e.id).1
  }

  /** The drag library's part: the dragged list is on the board under its own id, and the drop is within the droppable. */
  ghost predicate OnBoard(board: seq<BoardList>, e: Step) {
    e.Drag? ==>
      && (e.kind.ListDrag? ==> e.source.index < |board|)
      && (RequestOf(board, e).Some? ==>
            match e.kind
            case ListDrag => e.destination.value.index < |board| && e.id == board[e.source.index].id
            case CardDrag => ValidDrag(board, e.source, e.destination.value))
  }

  /** When the server is asked, it picks a rank between the two it was sent. */
  ghost predicate Allowed(board: seq<BoardList>, e: Step) {
    && OnBoard(board, e)
    && (RequestOf(board, e).Some? ==> Between(e.rank, RequestOf(board, e).value))
  }

  /** The optimistic board of the drop, with the server's rank in it. */
  ghost function Optimistic(board: seq<BoardList>, e: Step): seq<BoardList> {
    if !OnBoard(board, e) || RequestOf(board, e).None? then board
    else
      var after := Dragged(e.kind, board, e.source, e.destination, e.id).0;
      var to := e.destination.value;
      match e.kind
      case ListDrag => if to.index < |after| then after[to.index := after[to.index].(rank := e.rank)] else after
      case CardDrag =>
        var b := IndexOfList(board, to.droppableId);
        if b < |after| && to.index < |after[b].cards| then
          after[b := after[b].(cards := after[b].cards[to.index := after[b].cards[to.index].(rank := e.rank)])]
        else after
  }

  /** The server carries out the request: a list gets a rank, a card a list and a rank. */
  ghost function Served(t: Tables, q: MoveRequest, r: Rank): Tables {
    match q.targetListId
    case None => t.(listRanks := t.listRanks[q.itemId := r])
    case Some(listId) => if q.itemId in t.cards then t.(cards := ServerMove(t.cards, q.itemId, listId, r)) else t
  }

  ghost function TablesAfter(t: Tables, board: seq<BoardList>, e: Step): Tables
    requires OnBoard(board, e)
  {
    var q := RequestOf(board, e);
    if q.Some? then Served(t, q.value, e.rank) else t
  }

  // ----- Card drags

  lemma HeadersOfPlaced(lists: seq<BoardList>, a: nat, left: seq<Card>, b: nat, cards: seq<Card>)
    requires a < |lists| && b < |lists|
    ensures Headers(Placed(lists, a, left, b, cards)) == Headers(lists)
  {
  }

  lemma HeadersOfRanked(board: seq<BoardList>, source: Location, destination: Location, r: Rank)
    requires ValidDrag(board, source, destination)
    ensures Headers(RankedBoard(board, source, destination, r)) == Headers(board)
  {
    var a, b := IndexOfList(board, source.droppableId), IndexOfList(board, destination.droppableId);
    var (left, joined) := Others(board, source, destination);
    var moved := board[a].cards[source.index].(listId := destination.droppableId, rank := r);
    HeadersOfPlaced(board, a, left, b, InsertAt(joined, destination.index, moved));
  }

  lemma InsertedFits(joined: seq<Card>, i: nat, moved: Card, q: MoveRequest)
    requires i <= |joined| && StrictlyAscending(CardRank, joined) && Between(moved.rank, q)
    requires q.prevRank == if i > 0 then Some(joined[i - 1].rank) else None
    requires q.nextRank == if i < |joined| then Some(joined[i].rank) else None
    ensures StrictlyAscending(CardRank, InsertAt(joined, i, moved))
  {
    InsertKeepsOrder(CardRank, joined, i, moved);
  }

  lemma TargetInOrder(board: seq<BoardList>, source: Location, destination: Location, r: Rank, q: MoveRequest)
    requires InOrder(board) && ValidDrag(board, source, destination)
    requires DragCard(board, source, destination).1 == Some(q) && Between(r, q)
    ensures var card := board[IndexOfList(board, source.droppableId)].cards[source.index];
      StrictlyAscending(CardRank, InsertAt(Others(board, source, destination).1, destination.index,
                                           card.(listId := destination.droppableId, rank := r)))
  {
    var card := board[IndexOfList(board, source.droppableId)].cards[source.index];
    RestInOrder(board, source, destination);
    CardRequestIs(board, source, destination);
    InsertedFits(Others(board, source, destination).1, destination.index,
                 card.(listId := destination.droppableId, rank := r), q);
  }

  lemma RankedBoardInOrder(board: seq<BoardList>, source: Location, destination: Location, r: Rank, q: MoveRequest)
    requires DistinctLists(board) && InOrder(board) && ValidDrag(board, source, destination)
    requires DragCard(board, source, destination).1 == Some(q) && Between(r, q)
    ensures InOrder(RankedBoard(board, source, destination, r))
  {
    TargetInOrder(board, source, destination, r, q);
    RestInOrder(board, source, destination);
    BoardOrder(board, source, destination, r);
  }

  lemma CardDragKeepsCurrent(board: seq<BoardList>, t: Tables, e: Step)
    requires Current(board, t) && Allowed(board, e) && RequestOf(board, e).Some? && e.kind.CardDrag?
    ensures Current(Optimistic(board, e), TablesAfter(t, board, e))
  {
    var source, destination := e.source, e.destination.value;
    RankedBoardIsOptimistic(board, source, destination, e.rank);
    CardRequestIs(board, source, destination);
    HeadersOfRanked(board, source, destination, e.rank);
    RankedBoardInOrder(board, source, destination, e.rank, RequestOf(board, e).value);
    MoveConservesCards(board, t.cards, source, destination, e.rank);
  }

  // ----- List drags

  lemma HeadersOfMoved(board: seq<BoardList>, from: nat, to: nat, x: BoardList)
    requires from < |board| && to < |board|
    ensures Headers(RemoveAt(board, from)) == RemoveAt(Headers(board), from)
    ensures Headers(InsertAt(RemoveAt(board, from), to, x)) == InsertAt(RemoveAt(Headers(board), from), to, Header(x))
  {
  }

  lemma RerankedRow(ranks: map<Id, Rank>, id: Id, r: Rank)
    requires id in ranks
    ensures HeaderRows(ranks[id := r]) == HeaderRows(ranks) - {BoardList(id, ranks[id], [])} + {BoardList(id, r, [])}
  {
    var after := ranks[id := r];
    forall l ensures l in HeaderRows(after) <==>
      l in HeaderRows(ranks) - {BoardList(id, ranks[id], [])} + {BoardList(id, r, [])}
    {
      if l in HeaderRows(ranks) && l.id != id {
        assert after[l.id] == ranks[l.id];
      }
      assert id in after;
    }
  }

  /** Where the k-th list stood before list `from` moved to `to`. */
  function Origin(from: nat, to: nat, k: int): int {
    if k == to then from
    else
      var j := if k < to then k else k - 1;
      if j < from then j else j + 1
  }

  lemma OriginIs<T>(s: seq<T>, from: nat, to: nat, x: T, k: nat)
    requires from < |s| && to < |s| && k < |s|
    ensures |InsertAt(RemoveAt(s, from), to, x)| == |s| && 0 <= Origin(from, to, k) < |s|
    ensures InsertAt(RemoveAt(s, from), to, x)[k] == if k == to then x else s[Origin(from, to, k)]
  {
  }

  lemma OriginsDiffer(n: nat, from: nat, to: nat, j: nat, k: nat)
    requires from < n && to < n && j < n && k < n && j != k
    ensures Origin(from, to, j) != Origin(from, to, k)
  {
  }

  /** Each list of the new board is a list of the old one, with its cards. */
  lemma MovedListsShow(board: seq<BoardList>, from: nat, to: nat, r: Rank, db: Db)
    requires from < |board| && to < |board| && Shows(board, db) && InOrder(board)
    ensures Shows(RankedLists(board, from, to, r), db) && InOrder(RankedLists(board, from, to, r))
  {
    RankedListsAre(board, from, to, r);
    var after := RankedLists(board, from, to, r);
    forall k: nat | k < |after|
      ensures 0 <= Origin(from, to, k) < |board|
      ensures var l := board[Origin(from, to, k)]; after[k].id == l.id && after[k].cards == l.cards
    {
      OriginIs(board, from, to, board[from].(rank := r), k);
    }
    forall j: nat, k: nat | j < k < |after| ensures after[j].id != after[k].id {
      OriginsDiffer(|board|, from, to, j, k);
    }
  }

  lemma HeaderIsRow(board: seq<BoardList>, t: Tables, k: nat)
    requires k < |board| && Elements(Headers(board)) == HeaderRows(t.listRanks)
    ensures board[k].id in t.listRanks && t.listRanks[board[k].id] == board[k].rank
  {
    assert Headers(board)[k] in Elements(Headers(board));
    assert Header(board[k]) in HeaderRows(t.listRanks);
  }

  lemma RankedListsAreCurrent(board: seq<BoardList>, t: Tables, from: nat, to: nat, r: Rank)
    requires Current(board, t) && from < |board| && to < |board|
    requires Between(r, ListRequest(MovedLists(board, from, to), to, board[from].id))
    ensures Current(RankedLists(board, from, to, r), t.(listRanks := t.listRanks[board[from].id := r]))
  {
    var x := board[from].(rank := r);
    var headers := Headers(board);
    assert DistinctLists(headers);
    RankedListsAre(board, from, to, r);
    RankedListsAre(headers, from, to, r);
    HeadersOfMoved(board, from, to, x);
    assert Header(x) == headers[from].(rank := r);
    HeaderIsRow(board, t, from);
    RerankedRow(t.listRanks, board[from].id, r);
    RequestBounds(ListRank, RemoveAt(board, from), to, board[from]);
    RestOfHeaders(board, from);
    InsertKeepsOrder(ListRank, RemoveAt(headers, from), to, Header(x));
    MovedListsShow(board, from, to, r, t.cards);
  }

  lemma RestOfHeaders(board: seq<BoardList>, from: nat)
    requires from < |board| && StrictlyAscending(ListRank, Headers(board))
    ensures StrictlyAscending(ListRank, RemoveAt(Headers(board), from))
    ensures forall k :: 0 <= k < |board| - 1 ==> ListRank(RemoveAt(Headers(board), from)[k]) == ListRank(RemoveAt(board, from)[k])
  {
    var h, rest := Headers(board), RemoveAt(Headers(board), from);
    assert forall k :: 0 <= k < |rest| ==> rest[k] == h[if k < from then k else k + 1];
  }

  lemma ListDragKeepsCurrent(board: seq<BoardList>, t: Tables, e: Step)
    requires Current(board, t) && Allowed(board, e) && RequestOf(board, e).Some? && e.kind.ListDrag?
    ensures Current(Optimistic(board, e), TablesAfter(t, board, e))
  {
    RankedListsAreCurrent(board, t, e.source.index, e.destination.value.index, e.rank);
  }

  // ----- Sessions

  lemma StepKeepsCurrent(board: seq<BoardList>, t: Tables, e: Step)
    requires Current(board, t) && Allowed(board, e)
    ensures Current(Optimistic(board, e), TablesAfter(t, board, e))
  {
    if RequestOf(board, e).Some? {
      match e.kind
      case ListDrag => ListDragKeepsCurrent(board, t, e);
      case CardDrag => CardDragKeepsCurrent(board, t, e);
    }
  }

  /** After the steps, each followed by some answer of the board query, the last answer is `view` over tables `u`. */
  ghost predicate Plays(board: seq<BoardList>, t: Tables, steps: seq<Step>, view: seq<BoardList>, u: Tables)
    decreases |steps|
  {
    if steps == [] then view == board && u == t
    else
      var n := |steps| - 1;
      exists before: seq<BoardList>, s: Tables ::
        && Plays(board, t, steps[..n], before, s)
        && Allowed(before, steps[n]) && u == TablesAfter(s, before, steps[n]) && Answers(u, view)
  }

  /** The board a user sees who trusts every optimistic update. */
  ghost function Seen(board: seq<BoardList>, steps: seq<Step>): seq<BoardList> {
    if steps == [] then board else Optimistic(Seen(board, steps[..|steps| - 1]), steps[|steps| - 1])
  }

  /**
   Over every session of list drags, card drags, server moves and refetches, every
   refetch shows the optimistic board, and the board shows both tables in strict order.
   */
  lemma {:induction false} SessionsShowTheOptimisticBoard(board: seq<BoardList>, t: Tables, steps: seq<Step>, view: seq<BoardList>, u: Tables)
    requires Current(board, t) && Plays(board, t, steps, view, u)
    ensures view == Seen(board, steps) && Current(view, u)
    decreases |steps|
  {
    if steps != [] {
      var n := |steps| - 1;
      var before: seq<BoardList>, s: Tables :|
        && Plays(board, t, steps[..n], before, s)
        && Allowed(before, steps[n]) && u == TablesAfter(s, before, steps[n]) && Answers(u, view);
      SessionsShowTheOptimisticBoard(board, t, steps[..n], before, s);
      StepKeepsCurrent(before, s, steps[n]);
      OnlyAnswer(Optimistic(before, steps[n]), u, view);
    }
  }
}
