/**
 Drag-and-drop reordering on the board canvas: the optimistic new order, the two
 neighbour ranks sent to the server, and what a refetch will show.
 */
module Board {
  import opened JsArrays
  import opened Options
  import opened Ordering

  type Id = string

  /** `title` stands for every field that neither the drag nor the default filter reads. */
  datatype Card = Card(id: Id, listId: Id, rank: Rank, parentCardId: Option<Id>, title: string)

  datatype BoardList = BoardList(id: Id, rank: Rank, cards: seq<Card>)

  function CardRank(c: Card): Rank { c.rank }

  function ListRank(l: BoardList): Rank { l.rank }

  datatype DragKind = ListDrag | CardDrag

  /** A droppable and a position in it, as the drag library reports them. */
  datatype Location = Location(droppableId: Id, index: nat)

  /** The body of a move call; a missing rank is a neighbour that does not exist. */
  datatype MoveRequest = MoveRequest(
    itemId: Id, targetListId: Option<Id>, prevRank: Option<Rank>, nextRank: Option<Rank>)

  // ----- What a drag does, in closed form

  /** The ranks left and right of position i, for an item that stands at i. */
  function PrevRank<T>(rank: T -> Rank, s: seq<T>, i: nat): Option<Rank> {
    if 0 < i <= |s| then Some(rank(s[i - 1])) else None
  }

  function NextRank<T>(rank: T -> Rank, s: seq<T>, i: nat): Option<Rank> {
    if i + 1 < |s| then Some(rank(s[i + 1])) else None
  }

  /** Index of the first list with this id, or the length when there is none. */
  function IndexOfList(lists: seq<BoardList>, id: Id): (k: nat)
    ensures k <= |lists|
    ensures k < |lists| ==> lists[k].id == id
    ensures forall j :: 0 <= j < k ==> lists[j].id != id
  {
    if lists == [] then 0
    else if lists[0].id == id then 0
    else
      var k := IndexOfList(lists[1..], id);
      assert forall j :: 1 <= j < k + 1 ==> lists[j] == lists[1..][j - 1];
      k + 1
  }

  function MovedLists(lists: seq<BoardList>, from: nat, to: nat): seq<BoardList>
    requires from < |lists|
  {
    var rest := RemoveAt(lists, from);
    InsertAt(rest, Least(to, |rest|), lists[from])
  }

  function ListRequest(lists: seq<BoardList>, to: nat, id: Id): MoveRequest {
    MoveRequest(id, None, PrevRank(ListRank, lists, to), NextRank(ListRank, lists, to))
  }

  /** The cards of the list the item leaves, and of the list it joins, after the move. */
  function MovedCards(source: BoardList, target: BoardList, from: nat, to: nat): (seq<Card>, seq<Card>)
    requires from < |source.cards|
  {
    var rest := RemoveAt(source.cards, from);
    var moved := source.cards[from].(listId := target.id);
    var joined := if source.id == target.id then rest else target.cards;
    var after := InsertAt(joined, Least(to, |joined|), moved);
    (if source.id == target.id then after else rest, after)
  }

  function ReplaceCards(l: BoardList, sourceId: Id, sourceCards: seq<Card>, targetId: Id, targetCards: seq<Card>): BoardList {
    if l.id == sourceId then l.(cards := sourceCards)
    else if l.id == targetId then l.(cards := targetCards)
    else l
  }

  /** The optimistic board and the request of a card drag; nothing happens when a list or the card is missing. */
  function DragCard(lists: seq<BoardList>, source: Location, destination: Location): (seq<BoardList>, Option<MoveRequest>) {
    var a := IndexOfList(lists, source.droppableId);
    var b := IndexOfList(lists, destination.droppableId);
    if a == |lists| || b == |lists| || source.index >= |lists[a].cards| then (lists, None)
    else
      var (left, joined) := MovedCards(lists[a], lists[b], source.index, destination.index);
      (seq(|lists|, k requires 0 <= k < |lists| =>
         ReplaceCards(lists[k], source.droppableId, left, destination.droppableId, joined)),
       Some(MoveRequest(lists[a].cards[source.index].id, Some(destination.droppableId),
                        PrevRank(CardRank, joined, destination.index),
                        NextRank(CardRank, joined, destination.index))))
  }

  function Dragged(kind: DragKind, lists: seq<BoardList>, source: Location, destination: Option<Location>, id: Id)
    : (seq<BoardList>, Option<MoveRequest>)
    requires kind.ListDrag? ==> source.index < |lists|
  {
    if destination.None? || destination.value == source then (lists, None)
    else match kind
      case CardDrag => DragCard(lists, source, destination.value)
      case ListDrag =>
        var after := MovedLists(lists, source.index, destination.value.index);
        (after, Some(ListRequest(after, destination.value.index, id)))
  }

  // ----- What a drop is for

  ghost predicate FirstList(lists: seq<BoardList>, id: Id, k: nat) {
    k < |lists| && lists[k].id == id && forall j :: 0 <= j < k ==> lists[j].id != id
  }

  ghost predicate NoList(lists: seq<BoardList>, id: Id) {
    forall l :: l in lists ==> l.id != id
  }

  /** Dropped nowhere, dropped where it was taken, or a list or the card is not on the board. */
  ghost predicate NothingToMove(kind: DragKind, lists: seq<BoardList>, source: Location, destination: Option<Location>) {
    || destination.None?
    || (destination.value.droppableId == source.droppableId && destination.value.index == source.index)
    || (kind.CardDrag?
        && (|| NoList(lists, source.droppableId) || NoList(lists, destination.value.droppableId)
            || forall a: nat :: FirstList(lists, source.droppableId, a) ==> |lists[a].cards| <= source.index))
  }

  /** `after` is `rest` with x at position i, or at the end when there is no such position. */
  ghost predicate HasPut<T>(after: seq<T>, rest: seq<T>, i: nat, x: T) {
    var at := if i < |rest| then i else |rest|;
    |after| == |rest| + 1 && after[at] == x && after[..at] == rest[..at] && after[at + 1..] == rest[at..]
  }

  /** The request names the item and the ranks that stand left and right of position i. */
  ghost predicate Asks<T>(q: MoveRequest, id: Id, list: Option<Id>, rank: T -> Rank, items: seq<T>, i: nat) {
    && q.itemId == id && q.targetListId == list
    && q.prevRank == (if i == 0 || i > |items| then None else Some(rank(items[i - 1])))
    && q.nextRank == (if i + 1 >= |items| then None else Some(rank(items[i + 1])))
  }

  /** The dragged list stands at the destination, the others keep their order. */
  ghost predicate ListDropped(
    before: seq<BoardList>, after: seq<BoardList>, from: nat, to: nat, id: Id, q: MoveRequest)
    requires from < |before|
  {
    HasPut(after, before[..from] + before[from + 1..], to, before[from]) && Asks(q, id, None, ListRank, after, to)
  }

  /** What a list holds after the drop: the card at its place, what the card left behind, or what it held before. */
  ghost predicate CardsAfter(
    before: seq<BoardList>, l: BoardList, cards: seq<Card>, source: Location, target: Location, a: nat, b: nat)
    requires a < |before| && b < |before| && source.index < |before[a].cards|
  {
    var i := source.index;
    var left := before[a].cards[..i] + before[a].cards[i + 1..];
    if l.id == target.droppableId then
      HasPut(cards, if source.droppableId == target.droppableId then left else before[b].cards,
             target.index, before[a].cards[i].(listId := target.droppableId))
    else if l.id == source.droppableId then cards == left
    else cards == l.cards
  }

  /** The dragged card stands in the target list under that list's id, has left the source list, and nothing else changed. */
  ghost predicate CardDropped(
    before: seq<BoardList>, after: seq<BoardList>, source: Location, target: Location, a: nat, b: nat, q: MoveRequest)
    requires a < |before| && b < |before| && source.index < |before[a].cards|
  {
    && |after| == |before|
    && (forall k :: 0 <= k < |before| ==>
          && after[k].id == before[k].id && after[k].rank == before[k].rank
          && CardsAfter(before, before[k], after[k].cards, source, target, a, b))
    && Asks(q, before[a].cards[source.index].id, Some(target.droppableId), CardRank, after[b].cards, target.index)
  }

  /** What the user did and what came of it, said about the boards before and after and the request alone. */
  ghost predicate Drop(
    kind: DragKind, before: seq<BoardList>, source: Location, destination: Option<Location>, id: Id,
    after: seq<BoardList>, request: Option<MoveRequest>)
    requires kind.ListDrag? ==> source.index < |before|
  {
    && (request.None? <==> NothingToMove(kind, before, source, destination))
    && (request.None? ==> after == before)
    && (request.Some? && kind.ListDrag? ==>
          ListDropped(before, after, source.index, destination.value.index, id, request.value))
    && (request.Some? && kind.CardDrag? ==>
          forall a: nat, b: nat ::
            FirstList(before, source.droppableId, a) && FirstList(before, destination.value.droppableId, b) ==>
              source.index < |before[a].cards| && CardDropped(before, after, source, destination.value, a, b, request.value))
  }

  lemma FirstListIs(lists: seq<BoardList>, id: Id)
    ensures NoList(lists, id) <==> IndexOfList(lists, id) == |lists|
    ensures forall k: nat :: FirstList(lists, id, k) <==> k < |lists| && k == IndexOfList(lists, id)
  {
    var k := IndexOfList(lists, id);
    if k < |lists| {
      assert lists[k] in lists;
    }
  }

  lemma InsertedIsPut<T>(rest: seq<T>, i: nat, x: T)
    ensures HasPut(InsertAt(rest, Least(i, |rest|), x), rest, i, x)
  {
  }

  lemma ListDragDrops(lists: seq<BoardList>, from: nat, to: nat, id: Id)
    requires from < |lists|
    ensures var after := MovedLists(lists, from, to); ListDropped(lists, after, from, to, id, ListRequest(after, to, id))
  {
    InsertedIsPut(RemoveAt(lists, from), to, lists[from]);
  }

  lemma ReplacedCards(lists: seq<BoardList>, l: BoardList, source: Location, target: Location, a: nat, b: nat)
    requires a < |lists| && b < |lists| && lists[a].id == source.droppableId && lists[b].id == target.droppableId
    requires source.index < |lists[a].cards|
    ensures var (left, joined) := MovedCards(lists[a], lists[b], source.index, target.index);
      var r := ReplaceCards(l, source.droppableId, left, target.droppableId, joined);
      && r.id == l.id && r.rank == l.rank && CardsAfter(lists, l, r.cards, source, target, a, b)
      && (l == lists[b] ==> r.cards == joined)
  {
    var rest := RemoveAt(lists[a].cards, source.index);
    InsertedIsPut(if source.droppableId == target.droppableId then rest else lists[b].cards, target.index,
                  lists[a].cards[source.index].(listId := target.droppableId));
  }

  lemma CardDragDrops(lists: seq<BoardList>, source: Location, target: Location, a: nat, b: nat)
    requires FirstList(lists, source.droppableId, a) && FirstList(lists, target.droppableId, b)
    requires source.index < |lists[a].cards|
    ensures var (after, q) := DragCard(lists, source, target);
      q.Some? && CardDropped(lists, after, source, target, a, b, q.value)
  {
    FirstListIs(lists, source.droppableId);
    FirstListIs(lists, target.droppableId);
    forall k | 0 <= k < |lists| {
      ReplacedCards(lists, lists[k], source, target, a, b);
    }
  }

  /** A drop asks the server for something exactly when there is something to move, and then moves exactly that. */
  lemma DraggedDrops(kind: DragKind, lists: seq<BoardList>, source: Location, destination: Option<Location>, id: Id)
    requires kind.ListDrag? ==> source.index < |lists|
    ensures var (after, request) := Dragged(kind, lists, source, destination, id);
      Drop(kind, lists, source, destination, id, after, request)
  {
    if destination.Some? && destination.value != source {
      if kind.ListDrag? {
        ListDragDrops(lists, source.index, destination.value.index, id);
      } else {
        var a, b := IndexOfList(lists, source.droppableId), IndexOfList(lists, destination.value.droppableId);
        FirstListIs(lists, source.droppableId);
        FirstListIs(lists, destination.value.droppableId);
        if a < |lists| && b < |lists| && source.index < |lists[a].cards| {
          CardDragDrops(lists, source, destination.value, a, b);
        }
      }
    }
  }

  // ----- The component, in the source's form

  class BoardCanvas {
    var localLists: seq<BoardList>
    var boardLists: seq<BoardList>

    constructor (lists: seq<BoardList>)
      ensures localLists == lists && boardLists == lists
    {
      localLists, boardLists := lists, lists;
    }

    method FindList(id: Id) returns (found: Option<BoardList>)
      ensures var k := IndexOfList(localLists, id);
        found == if k < |localLists| then Some(localLists[k]) else None
    {
      var i := 0;
      while i < |localLists|
        invariant 0 <= i <= |localLists|
        invariant forall j :: 0 <= j < i ==> localLists[j].id != id
      {
        if localLists[i].id == id {
          return Some(localLists[i]);
        }
        i := i + 1;
      }
      return None;
    }

    /** `handleDragEnd` up to its network call. */
    method HandleDragEnd(kind: DragKind, source: Location, destination: Option<Location>, draggableId: Id)
      returns (request: Option<MoveRequest>)
      requires kind.ListDrag? ==> source.index < |localLists|
      modifies this`localLists
      ensures (localLists, request) == Dragged(kind, old(localLists), source, destination, draggableId)
      ensures Drop(kind, old(localLists), source, destination, draggableId, localLists, request)
    {
      DraggedDrops(kind, localLists, source, destination, draggableId);
      if destination.None? {
        return None;
      }
      var dest := destination.value;
      if dest.droppableId == source.droppableId && dest.index == source.index {
        return None;
      }
      if kind == ListDrag {
        request := DragListEnd(source.index, dest.index, draggableId);
      } else {
        request := DragCardEnd(source, dest);
      }
    }

    method DragListEnd(from: nat, to: nat, draggableId: Id) returns (request: Option<MoveRequest>)
      requires from < |localLists|
      modifies this`localLists
      ensures localLists == MovedLists(old(localLists), from, to)
      ensures request == Some(ListRequest(localLists, to, draggableId))
    {
      var reordered := new JsArray.From(localLists);
      var removed := reordered.Splice(from, 1, []);
      assert reordered.elems == RemoveAt(localLists, from);
      var none := reordered.Splice(to, 0, removed);
      localLists := reordered.elems;
      var prevRank := if to > 0 && to - 1 < |localLists| then Some(localLists[to - 1].rank) else None;
      var nextRank := if to + 1 < |localLists| then Some(localLists[to + 1].rank) else None;
      request := Some(MoveRequest(draggableId, None, prevRank, nextRank));
    }

    method DragCardEnd(source: Location, dest: Location) returns (request: Option<MoveRequest>)
      modifies this`localLists
      ensures (localLists, request) == DragCard(old(localLists), source, dest)
    {
      var sourceList := FindList(source.droppableId);
      var targetList := FindList(dest.droppableId);
      if sourceList.None? || targetList.None? {
        return None;
      }
      var card, sourceCards, targetCards :=
        SpliceCards(sourceList.value, targetList.value, source.index, dest.index);
      if card.None? {
        return None;
      }
      localLists := WithCards(localLists, source.droppableId, sourceCards, dest.droppableId, targetCards);
      var to := dest.index;
      var prevRank := if to > 0 && to - 1 < |targetCards| then Some(targetCards[to - 1].rank) else None;
      var nextRank := if to + 1 < |targetCards| then Some(targetCards[to + 1].rank) else None;
      request := Some(MoveRequest(card.value.id, Some(dest.droppableId), prevRank, nextRank));
    }

    /** Source and target are one array when the card stays in its list. */
    static method SpliceCards(source: BoardList, target: BoardList, from: nat, to: nat)
      returns (card: Option<Card>, sourceCards: seq<Card>, targetCards: seq<Card>)
      ensures card == if from < |source.cards| then Some(source.cards[from]) else None
      ensures from < |source.cards| ==> (sourceCards, targetCards) == MovedCards(source, target, from, to)
    {
      var isSameList := source.id == target.id;
      var sourceArray := new JsArray.From(source.cards);
      var targetArray := sourceArray;
      if !isSameList {
        targetArray := new JsArray.From(target.cards);
      }
      var removed := sourceArray.Splice(from, 1, []);
      if removed == [] {
        return None, [], [];
      }
      assert sourceArray.elems == RemoveAt(source.cards, from);
      var movedCard := removed[0].(listId := target.id);
      var none := targetArray.Splice(to, 0, [movedCard]);
      return Some(removed[0]), sourceArray.elems, targetArray.elems;
    }

    static method WithCards(lists: seq<BoardList>, sourceId: Id, sourceCards: seq<Card>, targetId: Id, targetCards: seq<Card>)
      returns (updated: seq<BoardList>)
      requires sourceId == targetId ==> sourceCards == targetCards
      ensures updated == seq(|lists|, k requires 0 <= k < |lists| =>
                           ReplaceCards(lists[k], sourceId, sourceCards, targetId, targetCards))
    {
      updated := [];
      var i := 0;
      while i < |lists|
        invariant 0 <= i <= |lists| && |updated| == i
        invariant forall k :: 0 <= k < i ==>
          (updated[k] == ReplaceCards(lists[k], sourceId, sourceCards, targetId, targetCards))
      {
        var l := lists[i];
        if l.id == sourceId && sourceId == targetId {
          l := l.(cards := targetCards);
        } else if l.id == sourceId {
          l := l.(cards := sourceCards);
        } else if l.id == targetId {
          l := l.(cards := targetCards);
        }
        updated := updated + [l];
        i := i + 1;
      }
    }

    /** After the reply: a refused move puts back the board that was rendered when the drag ended. */
    method MoveSettled(success: bool, captured: seq<BoardList>)
      modifies this`localLists
      ensures localLists == if success then old(localLists) else captured
    {
      if !success {
        localLists := captured;
      }
    }

    method Refetched(lists: seq<BoardList>)
      modifies this
      ensures localLists == lists && boardLists == lists
    {
      boardLists := lists;
      localLists := lists;
    }
  }
}
