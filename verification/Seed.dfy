/**
 The seed script's ensure-helpers: find a row by its natural key, update it if it
 is there, create it if not. A program is a sequence of calls; later calls use
 the ids that earlier ones returned.
 */
module Seed {
  import opened Options

  type Id = nat
  type Text = string
  type Time = int
  type Bytes = seq<bv8>
  type Rank = int

  /** Only the order of ranks matters: the chain starts in the middle and each next rank is larger. */
  const MIDDLE_RANK: Rank := 0

  function GenNext(r: Rank): (n: Rank)
    ensures n > r
  {
    r + 8
  }

  datatype Key =
    | ListKey(boardId: Id, title: Text)
    | CardKey(listId: Id, title: Text, parentCardId: Option<Id>)
    | CommentKey(cardId: Id, authorId: Id, content: Text)
    | DocumentKey(workspaceId: Id, title: Text)
    | InvitationKey(workspaceId: Id, email: Text)
    | TokenKey(tokenHash: Text)

  // ----- Tables

  /** A stored rank may be unreadable to the rank library. */
  datatype List = List(boardId: Id, title: Text, rank: Option<Rank>, archivedAt: Option<Time>, deletedAt: Option<Time>)

  datatype Card = Card(
    listId: Id, title: Text, rank: Rank, description: Option<Text>, priority: Text, status: Text, parentCardId: Option<Id>,
    dueDate: Option<Time>, isComplete: bool, coverImageUrl: Option<Text>, estimateMinutes: Option<nat>, loggedMinutes: nat,
    createdBy: Id, archivedAt: Option<Time>, deletedAt: Option<Time>)

  datatype Comment = Comment(cardId: Id, authorId: Id, content: Text, parentCommentId: Option<Id>, deletedAt: Option<Time>)

  datatype Document = Document(
    workspaceId: Id, title: Text, createdBy: Id, previewText: Option<Text>, parentCardId: Option<Id>, status: Text,
    yjsState: Option<Bytes>)

  datatype Invitation = Invitation(
    workspaceId: Id, email: Text, role: Text, token: Text, invitedBy: Id, status: Text, expiresAt: Time,
    acceptedAt: Option<Time>)

  datatype RefreshToken = RefreshToken(
    userId: Id, tokenHash: Text, familyId: Text, expiresAt: Time, revokedAt: Option<Time>, replacedBy: Option<Text>)

  datatype Data =
    | OfList(list: List) | OfCard(card: Card) | OfComment(comment: Comment)
    | OfDocument(document: Document) | OfInvitation(invitation: Invitation) | OfToken(token: RefreshToken)
  {
    /** What the helper of this table looks a row up by. */
    function Key(): Key {
      match this
      case OfList(l) => ListKey(l.boardId, l.title)
      case OfCard(c) => CardKey(c.listId, c.title, c.parentCardId)
      case OfComment(c) => CommentKey(c.cardId, c.authorId, c.content)
      case OfDocument(d) => DocumentKey(d.workspaceId, d.title)
      case OfInvitation(i) => InvitationKey(i.workspaceId, i.email)
      case OfToken(t) => TokenKey(t.tokenHash)
    }
  }

  datatype Row = Row(id: Id, data: Data)

  // ----- Parameters

  /**
   Parameters of one ensure call with its ids resolved. An outer None is an absent
   (undefined) parameter; where the source tells undefined from null, the inner
   option is the nullable value.
   */
  datatype CardParams = CardParams(
    listId: Id, title: Text, parentCardId: Option<Id>, description: Option<Text>, priority: Option<Text>,
    status: Option<Text>, dueDate: Option<Option<Time>>, isComplete: Option<bool>, coverImageUrl: Option<Option<Text>>,
    estimateMinutes: Option<Option<nat>>, loggedMinutes: Option<nat>, createdBy: Id,
    archivedAt: Option<Time>, deletedAt: Option<Time>)

  datatype DocumentParams = DocumentParams(
    workspaceId: Id, title: Text, createdBy: Id, previewText: Option<Text>, parentCardId: Option<Id>,
    status: Option<Text>, yjsState: Option<Bytes>)

  datatype Params =
    | ForList(boardId: Id, title: Text, listArchivedAt: Option<Time>, listDeletedAt: Option<Time>)
    | ForCard(card: CardParams)
    | ForComment(comment: Comment)
    | ForDocument(document: DocumentParams)
    | ForInvitation(invitation: Invitation)
    | ForToken(token: RefreshToken)
  {
    function Key(): Key {
      match this
      case ForList(b, t, _, _) => ListKey(b, t)
      case ForCard(c) => CardKey(c.listId, c.title, c.parentCardId)
      case ForComment(c) => CommentKey(c.cardId, c.authorId, c.content)
      case ForDocument(d) => DocumentKey(d.workspaceId, d.title)
      case ForInvitation(i) => InvitationKey(i.workspaceId, i.email)
      case ForToken(t) => TokenKey(t.tokenHash)
    }
  }

  function OrElse<T>(a: Option<T>, b: Option<T>): Option<T> {
    if a.Some? then a else b
  }

  // ----- One row

  function CreatedCard(p: CardParams, rank: Rank): Card {
    Card(p.listId, p.title, rank, p.description, p.priority.GetOr("medium"), p.status.GetOr("not_started"), p.parentCardId,
         p.dueDate.GetOr(None), p.isComplete.GetOr(false), p.coverImageUrl.GetOr(None), p.estimateMinutes.GetOr(None),
         p.loggedMinutes.GetOr(0), p.createdBy, p.archivedAt, p.deletedAt)
  }

  function CreatedDocument(p: DocumentParams): Document {
    Document(p.workspaceId, p.title, p.createdBy, p.previewText, p.parentCardId, p.status.GetOr("active"), p.yjsState)
  }

  /** The `data` of the create call. */
  function Created(p: Params, rank: Rank): Data {
    match p
    case ForList(b, t, a, d) => OfList(List(b, t, Some(rank), a, d))
    case ForCard(c) => OfCard(CreatedCard(c, rank))
    case ForComment(c) => OfComment(c)
    case ForDocument(d) => OfDocument(CreatedDocument(d))
    case ForInvitation(i) => OfInvitation(i)
    case ForToken(t) => OfToken(t)
  }

  function UpdatedCard(p: CardParams, c: Card): Card {
    c.(description := OrElse(p.description, c.description),
       priority := p.priority.GetOr(c.priority),
       status := p.status.GetOr(c.status),
       dueDate := p.dueDate.GetOr(c.dueDate),
       isComplete := p.isComplete.GetOr(c.isComplete),
       coverImageUrl := p.coverImageUrl.GetOr(c.coverImageUrl),
       estimateMinutes := p.estimateMinutes.GetOr(c.estimateMinutes),
       loggedMinutes := p.loggedMinutes.GetOr(c.loggedMinutes),
       archivedAt := p.archivedAt,
       deletedAt := p.deletedAt)
  }

  /** A stored collaborative state is never replaced. */
  function UpdatedDocument(p: DocumentParams, d: Document): Document {
    d.(previewText := OrElse(p.previewText, d.previewText),
       parentCardId := OrElse(p.parentCardId, d.parentCardId),
       status := p.status.GetOr(d.status),
       yjsState := if p.yjsState.Some? && d.yjsState.None? then p.yjsState else d.yjsState)
  }

  /** The token stays. */
  function UpdatedInvitation(p: Invitation, i: Invitation): Invitation {
    i.(role := p.role, status := p.status, expiresAt := p.expiresAt, acceptedAt := p.acceptedAt, invitedBy := p.invitedBy)
  }

  function UpdatedToken(p: RefreshToken, t: RefreshToken): RefreshToken {
    t.(expiresAt := p.expiresAt, revokedAt := p.revokedAt, replacedBy := OrElse(p.replacedBy, t.replacedBy))
  }

  /** The row after the update call: some columns overwritten, some only when given, some never. */
  function Updated(p: Params, r: Data): Data {
    match (p, r)
    case (ForList(_, _, a, d), OfList(l)) => OfList(l.(archivedAt := a, deletedAt := d))
    case (ForCard(q), OfCard(c)) => OfCard(UpdatedCard(q, c))
    case (ForComment(q), OfComment(c)) => OfComment(c.(parentCommentId := q.parentCommentId, deletedAt := q.deletedAt))
    case (ForDocument(q), OfDocument(d)) => OfDocument(UpdatedDocument(q, d))
    case (ForInvitation(q), OfInvitation(i)) => OfInvitation(UpdatedInvitation(q, i))
    case (ForToken(q), OfToken(t)) => OfToken(UpdatedToken(q, t))
    case _ => r
  }

  // ----- The database and the rank chains

  /** `rows` in creation order; the rank maps live in the process. */
  datatype Store = Store(rows: seq<Row>, nextId: Id, listRanks: map<Id, Rank>, cardRanks: map<Id, Rank>)

  function Keys(rows: seq<Row>): seq<Key> {
    seq(|rows|, k requires 0 <= k < |rows| => rows[k].data.Key())
  }

  /** The earliest key that matches, or the length. */
  function FirstIndex(keys: seq<Key>, key: Key): (k: nat)
    ensures k <= |keys| && (k < |keys| ==> keys[k] == key) && forall j :: 0 <= j < k ==> keys[j] != key
  {
    FirstFrom(keys, key, 0)
  }

  function FirstFrom(keys: seq<Key>, key: Key, i: nat): (k: nat)
    requires i <= |keys|
    ensures i <= k <= |keys| && (k < |keys| ==> keys[k] == key) && forall j :: i <= j < k ==> keys[j] != key
    decreases |keys| - i
  {
    if i == |keys| || keys[i] == key then i else FirstFrom(keys, key, i + 1)
  }

  function NextRank(ranks: map<Id, Rank>, scope: Id): Rank {
    if scope in ranks then GenNext(ranks[scope]) else MIDDLE_RANK
  }

  /** The rank a create allocates, with the chains after it. */
  function Allocated(s: Store, p: Params): (Rank, map<Id, Rank>, map<Id, Rank>) {
    match p
    case ForList(b, _, _, _) => (NextRank(s.listRanks, b), s.listRanks[b := NextRank(s.listRanks, b)], s.cardRanks)
    case ForCard(c) =>
      (NextRank(s.cardRanks, c.listId), s.listRanks, s.cardRanks[c.listId := NextRank(s.cardRanks, c.listId)])
    case _ => (MIDDLE_RANK, s.listRanks, s.cardRanks)
  }

  predicate Drifted(p: Params, l: List)
    requires p.ForList?
  {
    l.archivedAt != p.listArchivedAt || l.deletedAt != p.listDeletedAt
  }

  /** Finding a list in the wanted state starts its board's chain at that list's rank, unless the chain exists. */
  function Backfilled(ranks: map<Id, Rank>, p: Params, r: Data): map<Id, Rank> {
    if p.ForList? && r.OfList? && !Drifted(p, r.list) && p.boardId !in ranks && r.list.rank.Some?
    then ranks[p.boardId := r.list.rank.value]
    else ranks
  }

  function Ensure(s: Store, p: Params): (Store, Id) {
    var k := FirstIndex(Keys(s.rows), p.Key());
    if k < |s.rows| then
      var row := s.rows[k];
      (s.(rows := s.rows[k := row.(data := Updated(p, row.data))], listRanks := Backfilled(s.listRanks, p, row.data)), row.id)
    else
      var (rank, listRanks, cardRanks) := Allocated(s, p);
      (Store(s.rows + [Row(s.nextId, Created(p, rank))], s.nextId + 1, listRanks, cardRanks), s.nextId)
  }

  // ----- Programs

  /** A call: its parameters may depend in any way on the ids that the calls before it returned. */
  type Call = seq<Id> -> Params

  /** The store and the returned ids after the first n calls. */
  function Run(s: Store, program: seq<Call>, n: nat): (Store, seq<Id>)
    requires n <= |program|
  {
    if n == 0 then (s, [])
    else
      var (t, ids) := Run(s, program, n - 1);
      var (u, id) := Ensure(t, program[n - 1](ids));
      (u, ids + [id])
  }

  // ----- The script, in the source's form

  class Database {
    var rows: seq<Row>
    var nextId: Id
    var listRanks: map<Id, Rank>
    var cardRanks: map<Id, Rank>

    function Snapshot(): Store
      reads this
    {
      Store(rows, nextId, listRanks, cardRanks)
    }

    /** A process start: rows from before, empty rank chains. */
    constructor (rows: seq<Row>, nextId: Id)
      ensures Snapshot() == Store(rows, nextId, map[], map[])
    {
      this.rows, this.nextId, listRanks, cardRanks := rows, nextId, map[], map[];
    }

    /** findFirst ordered by creation. */
    method FindFirst(key: Key) returns (k: nat)
      ensures k == FirstIndex(Keys(rows), key)
    {
      k := 0;
      while k < |rows| && rows[k].data.Key() != key
        invariant k <= |rows| && forall j :: 0 <= j < k ==> rows[j].data.Key() != key
      {
        k := k + 1;
      }
      FirstIndexIs(Keys(rows), key, k);
    }

    method Update(k: nat, data: Data)
      requires k < |rows|
      modifies this`rows
      ensures rows == old(rows)[k := old(rows)[k].(data := data)]
    {
      rows := rows[k := rows[k].(data := data)];
    }

    method Create(data: Data) returns (id: Id)
      modifies this`rows, this`nextId
      ensures rows == old(rows) + [Row(old(nextId), data)] && nextId == old(nextId) + 1 && id == old(nextId)
    {
      id := nextId;
      rows := rows + [Row(id, data)];
      nextId := nextId + 1;
    }

    method NextListRank(boardId: Id) returns (rank: Rank)
      modifies this`listRanks
      ensures rank == NextRank(old(listRanks), boardId) && listRanks == old(listRanks)[boardId := rank]
    {
      rank := if boardId in listRanks then GenNext(listRanks[boardId]) else MIDDLE_RANK;
      listRanks := listRanks[boardId := rank];
    }

    method NextCardRank(listId: Id) returns (rank: Rank)
      modifies this`cardRanks
      ensures rank == NextRank(old(cardRanks), listId) && cardRanks == old(cardRanks)[listId := rank]
    {
      rank := if listId in cardRanks then GenNext(cardRanks[listId]) else MIDDLE_RANK;
      cardRanks := cardRanks[listId := rank];
    }

    /** Repairs drift, or else backfills the chain. */
    method EnsureListRow(p: Params) returns (id: Id)
      requires p.ForList?
      modifies this
      ensures (Snapshot(), id) == Ensure(old(Snapshot()), p)
    {
      var k := FindFirst(p.Key());
      if k == |rows| {
        var rank := NextListRank(p.boardId);
        id := Create(OfList(List(p.boardId, p.title, Some(rank), p.listArchivedAt, p.listDeletedAt)));
        return;
      }
      id := rows[k].id;
      var existing := rows[k].data.list;
      if existing.archivedAt != p.listArchivedAt || existing.deletedAt != p.listDeletedAt {
        Update(k, OfList(existing.(archivedAt := p.listArchivedAt, deletedAt := p.listDeletedAt)));
        return;
      }
      assert rows == rows[k := rows[k].(data := Updated(p, rows[k].data))];
      if p.boardId !in listRanks && existing.rank.Some? {
        listRanks := listRanks[p.boardId := existing.rank.value];
      }
    }

    method EnsureCardRow(p: Params) returns (id: Id)
      requires p.ForCard?
      modifies this
      ensures (Snapshot(), id) == Ensure(old(Snapshot()), p)
    {
      var k := FindFirst(p.Key());
      if k == |rows| {
        var rank := NextCardRank(p.card.listId);
        id := Create(OfCard(CreatedCard(p.card, rank)));
        return;
      }
      id := rows[k].id;
      Update(k, OfCard(UpdatedCard(p.card, rows[k].data.card)));
    }

    /** Written only when its thread or its deletion changed. */
    method EnsureCommentRow(p: Params) returns (id: Id)
      requires p.ForComment?
      modifies this
      ensures (Snapshot(), id) == Ensure(old(Snapshot()), p)
    {
      var k := FindFirst(p.Key());
      if k == |rows| {
        id := Create(OfComment(p.comment));
        return;
      }
      id := rows[k].id;
      var existing := rows[k].data.comment;
      if existing.parentCommentId != p.comment.parentCommentId || existing.deletedAt != p.comment.deletedAt {
        Update(k, OfComment(existing.(parentCommentId := p.comment.parentCommentId, deletedAt := p.comment.deletedAt)));
        return;
      }
      assert rows == rows[k := rows[k].(data := Updated(p, rows[k].data))];
    }

    method EnsureDocumentRow(p: Params) returns (id: Id)
      requires p.ForDocument?
      modifies this
      ensures (Snapshot(), id) == Ensure(old(Snapshot()), p)
    {
      var k := FindFirst(p.Key());
      if k == |rows| {
        id := Create(OfDocument(CreatedDocument(p.document)));
        return;
      }
      id := rows[k].id;
      Update(k, OfDocument(UpdatedDocument(p.document, rows[k].data.document)));
    }

    method EnsureInvitationRow(p: Params) returns (id: Id)
      requires p.ForInvitation?
      modifies this
      ensures (Snapshot(), id) == Ensure(old(Snapshot()), p)
    {
      var k := FindFirst(p.Key());
      if k == |rows| {
        id := Create(OfInvitation(p.invitation));
        return;
      }
      id := rows[k].id;
      Update(k, OfInvitation(UpdatedInvitation(p.invitation, rows[k].data.invitation)));
    }

    method EnsureRefreshTokenRow(p: Params) returns (id: Id)
      requires p.ForToken?
      modifies this
      ensures (Snapshot(), id) == Ensure(old(Snapshot()), p)
    {
      var k := FindFirst(p.Key());
      if k == |rows| {
        id := Create(OfToken(p.token));
        return;
      }
      id := rows[k].id;
      Update(k, OfToken(UpdatedToken(p.token, rows[k].data.token)));
    }
  }

  lemma {:induction false} FirstIndexIs(keys: seq<Key>, key: Key, k: nat)
    requires k <= |keys| && (k < |keys| ==> keys[k] == key) && forall j :: 0 <= j < k ==> keys[j] != key
    ensures FirstIndex(keys, key) == k
  {
  }
}
