/**
 What the ensure-helpers write, column by column: after a call the row it names holds every value given, and after a
 run each column holds the last value given for it.
 */
module SeedColumns {
  import opened Options
  import opened Seed
  import opened SeedIdempotence

  // ----- What a call leaves in the row it names, column by column

  /** A column's content; the nullable columns hold an option. */
  datatype Value =
    | AText(text: Text) | MaybeText(textOrNull: Option<Text>)
    | ATime(time: Time) | MaybeTime(timeOrNull: Option<Time>)
    | AnId(id: Id) | MaybeId(idOrNull: Option<Id>)
    | ANumber(number: nat) | MaybeNumber(numberOrNull: Option<nat>)
    | Flag(flag: bool) | MaybeBytes(bytesOrNull: Option<Bytes>)

  /** The columns other than ids, natural keys and ranks. */
  datatype Column =
    | ListArchivedAt | ListDeletedAt
    | CardDescription | CardPriority | CardStatus | CardDueDate | CardIsComplete | CardCoverImageUrl | CardEstimateMinutes
    | CardLoggedMinutes | CardArchivedAt | CardDeletedAt | CardCreatedBy
    | CommentParent | CommentDeletedAt
    | DocumentPreviewText | DocumentParentCard | DocumentStatus | DocumentYjsState | DocumentCreatedBy
    | InvitationRole | InvitationStatus | InvitationExpiresAt | InvitationAcceptedAt | InvitationInvitedBy | InvitationToken
    | TokenExpiresAt | TokenRevokedAt | TokenReplacedBy | TokenUserId | TokenFamilyId

  /** None for a column of another table. */
  function Stored(col: Column, r: Data): Option<Value> {
    match r
    case OfList(l) =>
      (match col
       case ListArchivedAt => Some(MaybeTime(l.archivedAt))
       case ListDeletedAt => Some(MaybeTime(l.deletedAt))
       case _ => None)
    case OfCard(c) => StoredInCard(col, c)
    case OfComment(c) =>
      (match col
       case CommentParent => Some(MaybeId(c.parentCommentId))
       case CommentDeletedAt => Some(MaybeTime(c.deletedAt))
       case _ => None)
    case OfDocument(d) =>
      (match col
       case DocumentPreviewText => Some(MaybeText(d.previewText))
       case DocumentParentCard => Some(MaybeId(d.parentCardId))
       case DocumentStatus => Some(AText(d.status))
       case DocumentYjsState => Some(MaybeBytes(d.yjsState))
       case DocumentCreatedBy => Some(AnId(d.createdBy))
       case _ => None)
    case OfInvitation(i) => StoredInInvitation(col, i)
    case OfToken(t) =>
      (match col
       case TokenExpiresAt => Some(ATime(t.expiresAt))
       case TokenRevokedAt => Some(MaybeTime(t.revokedAt))
       case TokenReplacedBy => Some(MaybeText(t.replacedBy))
       case TokenUserId => Some(AnId(t.userId))
       case TokenFamilyId => Some(AText(t.familyId))
       case _ => None)
  }

  function StoredInCard(col: Column, c: Card): Option<Value> {
    match col
    case CardDescription => Some(MaybeText(c.description))
    case CardPriority => Some(AText(c.priority))
    case CardStatus => Some(AText(c.status))
    case CardDueDate => Some(MaybeTime(c.dueDate))
    case CardIsComplete => Some(Flag(c.isComplete))
    case CardCoverImageUrl => Some(MaybeText(c.coverImageUrl))
    case CardEstimateMinutes => Some(MaybeNumber(c.estimateMinutes))
    case CardLoggedMinutes => Some(ANumber(c.loggedMinutes))
    case CardArchivedAt => Some(MaybeTime(c.archivedAt))
    case CardDeletedAt => Some(MaybeTime(c.deletedAt))
    case CardCreatedBy => Some(AnId(c.createdBy))
    case _ => None
  }

  function StoredInInvitation(col: Column, i: Invitation): Option<Value> {
    match col
    case InvitationRole => Some(AText(i.role))
    case InvitationStatus => Some(AText(i.status))
    case InvitationExpiresAt => Some(ATime(i.expiresAt))
    case InvitationAcceptedAt => Some(MaybeTime(i.acceptedAt))
    case InvitationInvitedBy => Some(AnId(i.invitedBy))
    case InvitationToken => Some(AText(i.token))
    case _ => None
  }

  /** The value the parameters give for a column: none when the parameter is absent or the column another table's. */
  function Given(col: Column, p: Params): Option<Value> {
    match p
    case ForList(_, _, archivedAt, deletedAt) =>
      (match col
       case ListArchivedAt => Some(MaybeTime(archivedAt))
       case ListDeletedAt => Some(MaybeTime(deletedAt))
       case _ => None)
    case ForCard(c) => GivenForCard(col, c)
    case ForComment(c) =>
      (match col
       case CommentParent => Some(MaybeId(c.parentCommentId))
       case CommentDeletedAt => Some(MaybeTime(c.deletedAt))
       case _ => None)
    case ForDocument(d) =>
      (match col
       case DocumentPreviewText => if d.previewText.Some? then Some(MaybeText(d.previewText)) else None
       case DocumentParentCard => if d.parentCardId.Some? then Some(MaybeId(d.parentCardId)) else None
       case DocumentStatus => if d.status.Some? then Some(AText(d.status.value)) else None
       case DocumentYjsState => if d.yjsState.Some? then Some(MaybeBytes(d.yjsState)) else None
       case DocumentCreatedBy => Some(AnId(d.createdBy))
       case _ => None)
    case ForInvitation(i) => StoredInInvitation(col, i)
    case ForToken(t) =>
      (match col
       case TokenExpiresAt => Some(ATime(t.expiresAt))
       case TokenRevokedAt => Some(MaybeTime(t.revokedAt))
       case TokenReplacedBy => if t.replacedBy.Some? then Some(MaybeText(t.replacedBy)) else None
       case TokenUserId => Some(AnId(t.userId))
       case TokenFamilyId => Some(AText(t.familyId))
       case _ => None)
  }

  function GivenForCard(col: Column, c: CardParams): Option<Value> {
    match col
    case CardDescription => if c.description.Some? then Some(MaybeText(c.description)) else None
    case CardPriority => if c.priority.Some? then Some(AText(c.priority.value)) else None
    case CardStatus => if c.status.Some? then Some(AText(c.status.value)) else None
    case CardDueDate => if c.dueDate.Some? then Some(MaybeTime(c.dueDate.value)) else None
    case CardIsComplete => if c.isComplete.Some? then Some(Flag(c.isComplete.value)) else None
    case CardCoverImageUrl => if c.coverImageUrl.Some? then Some(MaybeText(c.coverImageUrl.value)) else None
    case CardEstimateMinutes => if c.estimateMinutes.Some? then Some(MaybeNumber(c.estimateMinutes.value)) else None
    case CardLoggedMinutes => if c.loggedMinutes.Some? then Some(ANumber(c.loggedMinutes.value)) else None
    case CardArchivedAt => Some(MaybeTime(c.archivedAt))
    case CardDeletedAt => Some(MaybeTime(c.deletedAt))
    case CardCreatedBy => Some(AnId(c.createdBy))
    case _ => None
  }

  /** What a new row has where nothing is given. */
  function Default(col: Column): Option<Value> {
    match col
    case CardPriority => Some(AText("medium"))
    case CardStatus => Some(AText("not_started"))
    case CardIsComplete => Some(Flag(false))
    case CardLoggedMinutes => Some(ANumber(0))
    case CardDescription => Some(MaybeText(None))
    case CardDueDate => Some(MaybeTime(None))
    case CardCoverImageUrl => Some(MaybeText(None))
    case CardEstimateMinutes => Some(MaybeNumber(None))
    case DocumentStatus => Some(AText("active"))
    case DocumentPreviewText => Some(MaybeText(None))
    case DocumentParentCard => Some(MaybeId(None))
    case DocumentYjsState => Some(MaybeBytes(None))
    case TokenReplacedBy => Some(MaybeText(None))
    case _ => None
  }

  /** Columns that only the call that creates the row sets. */
  predicate SetOnce(col: Column) {
    col in {CardCreatedBy, DocumentCreatedBy, InvitationToken, TokenUserId, TokenFamilyId}
  }

  /** A given value replaces the stored one; a stored collaborative state stays. */
  function Settled(col: Column, stored: Option<Value>, given: Option<Value>): Option<Value> {
    if SetOnce(col) || given.None? then stored
    else if col == DocumentYjsState && stored != Some(MaybeBytes(None)) then stored
    else given
  }

  ghost predicate RowSettled(p: Params, before: Data, after: Data) {
    after.Key() == before.Key() && forall col :: Stored(col, after) == Settled(col, Stored(col, before), Given(col, p))
  }

  ghost predicate RowCreated(p: Params, r: Data) {
    && Names(p, r)
    && forall col :: if Stored(col, r).Some? then Stored(col, r) == OrElse(Given(col, p), Default(col)) else Given(col, p).None?
  }

  /** The parameters name a row by its natural key: the same table, and the same values in the key's columns. */
  ghost predicate Names(p: Params, r: Data) {
    match (p, r)
    case (ForList(boardId, title, _, _), OfList(l)) => l.boardId == boardId && l.title == title
    case (ForCard(q), OfCard(c)) => c.listId == q.listId && c.title == q.title && c.parentCardId == q.parentCardId
    case (ForComment(q), OfComment(c)) => c.cardId == q.cardId && c.authorId == q.authorId && c.content == q.content
    case (ForDocument(q), OfDocument(d)) => d.workspaceId == q.workspaceId && d.title == q.title
    case (ForInvitation(q), OfInvitation(i)) => i.workspaceId == q.workspaceId && i.email == q.email
    case (ForToken(q), OfToken(t)) => t.tokenHash == q.tokenHash
    case _ => false
  }

  lemma NamesIff(p: Params, r: Data)
    ensures Names(p, r) <==> p.Key() == r.Key()
  {
  }

  ghost predicate FirstNamed(rows: seq<Row>, p: Params, k: nat) {
    k < |rows| && Names(p, rows[k].data) && forall j :: 0 <= j < k ==> !Names(p, rows[j].data)
  }

  /** One ensure call, said of the tables before and after: the earliest row named settles, or a row is added. */
  ghost predicate Ensured(s: Store, p: Params, t: Store, id: Id) {
    && (forall k: nat :: FirstNamed(s.rows, p, k) ==>
          && |t.rows| == |s.rows| && t.nextId == s.nextId
          && t.rows[k].id == s.rows[k].id == id && RowSettled(p, s.rows[k].data, t.rows[k].data)
          && forall j :: 0 <= j < |s.rows| && j != k ==> t.rows[j] == s.rows[j])
    && ((forall j :: 0 <= j < |s.rows| ==> !Names(p, s.rows[j].data)) ==>
          && |t.rows| == |s.rows| + 1 && t.rows[..|s.rows|] == s.rows && t.nextId == s.nextId + 1
          && t.rows[|s.rows|].id == s.nextId == id && RowCreated(p, t.rows[|s.rows|].data))
  }

  lemma FirstNamedIs(rows: seq<Row>, p: Params)
    ensures forall k: nat :: FirstNamed(rows, p, k) <==> k < |rows| && k == FirstIndex(Keys(rows), p.Key())
    ensures (forall j :: 0 <= j < |rows| ==> !Names(p, rows[j].data)) <==> FirstIndex(Keys(rows), p.Key()) == |rows|
  {
    forall j | 0 <= j < |rows| ensures Names(p, rows[j].data) <==> Keys(rows)[j] == p.Key() {
      NamesIff(p, rows[j].data);
    }
  }

  lemma CardSettles(p: CardParams, c: Card, col: Column)
    ensures StoredInCard(col, UpdatedCard(p, c)) == Settled(col, StoredInCard(col, c), GivenForCard(col, p))
  {
  }

  lemma DocumentSettles(p: DocumentParams, d: Document, col: Column)
    ensures Stored(col, OfDocument(UpdatedDocument(p, d))) ==
            Settled(col, Stored(col, OfDocument(d)), Given(col, ForDocument(p)))
  {
  }

  lemma UpdateSettles(p: Params, r: Data)
    requires p.Key() == r.Key()
    ensures RowSettled(p, r, Updated(p, r))
  {
    forall col ensures Stored(col, Updated(p, r)) == Settled(col, Stored(col, r), Given(col, p)) {
      match p
      case ForCard(c) => CardSettles(c, r.card, col);
      case ForDocument(d) => DocumentSettles(d, r.document, col);
      case _ =>
    }
  }

  lemma CreateSettles(p: Params, rank: Rank)
    ensures RowCreated(p, Created(p, rank))
  {
    var r := Created(p, rank);
    CreatedIsUpdated(p, rank);
    NamesIff(p, r);
    forall col
      ensures if Stored(col, r).Some? then Stored(col, r) == OrElse(Given(col, p), Default(col)) else Given(col, p).None?
    {
      if p.ForCard? {
        CreatedCardHas(p.card, rank, col);
      }
    }
  }

  lemma CreatedCardHas(c: CardParams, rank: Rank, col: Column)
    ensures var stored := StoredInCard(col, CreatedCard(c, rank));
      if stored.Some? then stored == OrElse(GivenForCard(col, c), Default(col)) else GivenForCard(col, c).None?
  {
  }

  /** What an ensure call leaves: every given column, every other column as it was, and the rest of the tables. */
  lemma EnsureSettles(s: Store, p: Params)
    ensures Ensured(s, p, Ensure(s, p).0, Ensure(s, p).1)
  {
    var k := FirstIndex(Keys(s.rows), p.Key());
    FirstNamedIs(s.rows, p);
    if k < |s.rows| {
      UpdateSettles(p, s.rows[k].data);
    } else {
      CreateSettles(p, Allocated(s, p).0);
    }
  }

  // ----- One row's history

  /** The parameters of the calls, among the first n, that name row k. */
  function Reached(s: Store, program: seq<Call>, n: nat, k: nat): seq<Params>
    requires n <= |program|
  {
    if n == 0 then []
    else
      var (t, ids) := Run(s, program, n - 1);
      var p := program[n - 1](ids);
      AddedIf(Target(t.rows, p) == k, Reached(s, program, n - 1, k), p)
  }

  function AddedIf(named: bool, ps: seq<Params>, p: Params): seq<Params> {
    if named then ps + [p] else ps
  }

  function Replayed(r: Data, ps: seq<Params>): Data {
    if ps == [] then r else Updated(ps[|ps| - 1], Replayed(r, ps[..|ps| - 1]))
  }

  ghost predicate AllNamed(ps: seq<Params>, key: Key) {
    forall p :: p in ps ==> p.Key() == key
  }

  /** The three ways a call can meet row k: it names another row, it updates this one, or it creates it. */
  lemma OneCall(t: Store, p: Params, k: nat)
    requires k < |Ensure(t, p).0.rows|
    ensures Target(t.rows, p) != k ==> k < |t.rows| && Ensure(t, p).0.rows[k] == t.rows[k]
    ensures Target(t.rows, p) == k < |t.rows| ==>
      Ensure(t, p).0.rows[k].data == Updated(p, t.rows[k].data) && t.rows[k].data.Key() == p.Key()
    ensures k >= |t.rows| ==> k == |t.rows| == Target(t.rows, p) && Ensure(t, p).0.rows[k].data == Created(p, Allocated(t, p).0)
  {
  }

  lemma GrowsByOne(t: Store, p: Params)
    ensures |t.rows| <= |Ensure(t, p).0.rows| <= |t.rows| + 1
    ensures Target(t.rows, p) < |Ensure(t, p).0.rows|
  {
  }

  /** Row k, whose data is r, is its start `first` after the updates of `ps`. */
  ghost predicate History(r: Data, first: Data, ps: seq<Params>) {
    r == Replayed(first, ps) && r.Key() == first.Key() && AllNamed(ps, first.Key())
  }

  lemma OneUpdateMore(r: Data, first: Data, ps: seq<Params>, p: Params)
    requires History(r, first, ps) && p.Key() == r.Key()
    ensures History(Updated(p, r), first, ps + [p])
  {
    UpdateKeepsKey(p, r);
    assert (ps + [p])[..|ps|] == ps;
  }

  lemma NewHistory(p: Params, rank: Rank)
    ensures History(Created(p, rank), Created(p, rank), [p])
  {
    CreatedIsUpdated(p, rank);
    assert [p][..0] == [];
  }

  lemma {:induction false} NotReachedYet(s: Store, program: seq<Call>, n: nat, k: nat)
    requires n <= |program| && |Run(s, program, n).0.rows| <= k
    ensures Reached(s, program, n, k) == []
  {
    if n > 0 {
      var m: nat := n - 1;
      var (t, ids) := Run(s, program, m);
      GrowsByOne(t, program[m](ids));
      NotReachedYet(s, program, m, k);
    }
  }

  /** Row k after n calls: what it was before the run, or as the first call to reach it creates it, then every update. */
  ghost predicate HistoryAt(s: Store, program: seq<Call>, n: nat, k: nat, first: Data)
    requires n <= |program| && k < |Run(s, program, n).0.rows|
  {
    && History(Run(s, program, n).0.rows[k].data, first, Reached(s, program, n, k))
    && if k < |s.rows| then first == s.rows[k].data else StartsAs(first, Reached(s, program, n, k))
  }

  ghost predicate StartsAs(first: Data, ps: seq<Params>) {
    ps != [] && exists rank :: first == Created(ps[0], rank)
  }

  lemma StartsStill(first: Data, ps: seq<Params>, named: bool, p: Params)
    requires StartsAs(first, ps)
    ensures StartsAs(first, AddedIf(named, ps, p))
  {
    assert AddedIf(named, ps, p)[0] == ps[0];
  }

  lemma CallKeepsHistory(t: Store, p: Params, k: nat, first: Data, ps: seq<Params>)
    requires k < |t.rows| && History(t.rows[k].data, first, ps)
    ensures k < |Ensure(t, p).0.rows|
    ensures History(Ensure(t, p).0.rows[k].data, first, AddedIf(Target(t.rows, p) == k, ps, p))
  {
    GrowsByOne(t, p);
    OneCall(t, p, k);
    if Target(t.rows, p) == k {
      OneUpdateMore(t.rows[k].data, first, ps, p);
    }
  }

  lemma CallStartsHistory(t: Store, p: Params, k: nat) returns (first: Data)
    requires |t.rows| <= k < |Ensure(t, p).0.rows|
    ensures var ps := AddedIf(Target(t.rows, p) == k, [], p);
      StartsAs(first, ps) && History(Ensure(t, p).0.rows[k].data, first, ps)
  {
    OneCall(t, p, k);
    first := Created(p, Allocated(t, p).0);
    NewHistory(p, Allocated(t, p).0);
    assert [] + [p] == [p];
  }

  lemma OneCallMore(s: Store, program: seq<Call>, m: nat, n: nat, k: nat) returns (t: Store, p: Params)
    requires 0 < n <= |program| && m == n - 1
    ensures t == Run(s, program, m).0 && Run(s, program, n).0 == Ensure(t, p).0
    ensures Reached(s, program, n, k) == AddedIf(Target(t.rows, p) == k, Reached(s, program, m, k), p)
  {
    t, p := Run(s, program, m).0, program[m](Run(s, program, m).1);
  }

  lemma HistoryGoesOn(s: Store, program: seq<Call>, m: nat, n: nat, k: nat, first: Data)
    requires 0 < n <= |program| && m == n - 1 && k < |Run(s, program, m).0.rows| && HistoryAt(s, program, m, k, first)
    ensures k < |Run(s, program, n).0.rows| && HistoryAt(s, program, n, k, first)
  {
    var t, p := OneCallMore(s, program, m, n, k);
    CallKeepsHistory(t, p, k, first, Reached(s, program, m, k));
    if k >= |s.rows| {
      StartsStill(first, Reached(s, program, m, k), Target(t.rows, p) == k, p);
    }
  }

  lemma HistoryStarts(s: Store, program: seq<Call>, m: nat, n: nat, k: nat) returns (first: Data)
    requires 0 < n <= |program| && m == n - 1 && |Run(s, program, m).0.rows| <= k < |Run(s, program, n).0.rows|
    ensures HistoryAt(s, program, n, k, first)
  {
    var t, p := OneCallMore(s, program, m, n, k);
    NotReachedYet(s, program, m, k);
    RunKeepsCount(s, program, m);
    first := CallStartsHistory(t, p, k);
  }

  lemma {:induction false} RowHistory(s: Store, program: seq<Call>, n: nat, k: nat) returns (first: Data)
    requires n <= |program| && k < |Run(s, program, n).0.rows|
    ensures HistoryAt(s, program, n, k, first)
  {
    if n == 0 {
      first := s.rows[k].data;
    } else {
      var m: nat := n - 1;
      if k < |Run(s, program, m).0.rows| {
        first := RowHistory(s, program, m, k);
        HistoryGoesOn(s, program, m, n, k, first);
      } else {
        first := HistoryStarts(s, program, m, n, k);
      }
    }
  }

  lemma {:induction false} RunKeepsCount(s: Store, program: seq<Call>, n: nat)
    requires n <= |program|
    ensures |s.rows| <= |Run(s, program, n).0.rows|
  {
    if n > 0 {
      var m: nat := n - 1;
      RunKeepsCount(s, program, m);
      GrowsByOne(Run(s, program, m).0, program[m](Run(s, program, m).1));
    }
  }

  // ----- Columns after a run

  /** The last of the parameters to give the column a value. */
  function LastGiven(col: Column, ps: seq<Params>): Option<Value> {
    if ps == [] then None
    else if Given(col, ps[|ps| - 1]).Some? then Given(col, ps[|ps| - 1])
    else LastGiven(col, ps[..|ps| - 1])
  }

  function FirstGiven(col: Column, ps: seq<Params>): Option<Value> {
    if ps == [] then None
    else if Given(col, ps[0]).Some? then Given(col, ps[0])
    else FirstGiven(col, ps[1..])
  }

  lemma {:induction false} ReplaySettles(col: Column, r: Data, ps: seq<Params>)
    requires AllNamed(ps, r.Key()) && !SetOnce(col) && col != DocumentYjsState
    ensures Stored(col, Replayed(r, ps)) == OrElse(LastGiven(col, ps), Stored(col, r)) && Replayed(r, ps).Key() == r.Key()
  {
    if ps != [] {
      var init, p := ps[..|ps| - 1], ps[|ps| - 1];
      ReplaySettles(col, r, init);
      UpdateSettles(p, Replayed(r, init));
    }
  }

  lemma {:induction false} FirstGivenAppends(col: Column, ps: seq<Params>, p: Params)
    ensures FirstGiven(col, ps + [p]) == OrElse(FirstGiven(col, ps), Given(col, p))
  {
    if ps == [] {
      assert [] + [p] == [p] && [p][1..] == [];
    } else {
      assert (ps + [p])[0] == ps[0] && (ps + [p])[1..] == ps[1..] + [p];
      FirstGivenAppends(col, ps[1..], p);
    }
  }

  lemma {:induction false} NothingGiven(col: Column, ps: seq<Params>)
    requires LastGiven(col, ps).None?
    ensures forall p :: p in ps ==> Given(col, p).None?
  {
    if ps != [] {
      NothingGiven(col, ps[..|ps| - 1]);
      assert ps == ps[..|ps| - 1] + [ps[|ps| - 1]];
    }
  }

  /** A column that keeps its first content. */
  lemma {:induction false} ReplayKeepsFirst(col: Column, r: Data, ps: seq<Params>)
    requires AllNamed(ps, r.Key()) && (SetOnce(col) || col == DocumentYjsState)
    ensures Stored(col, Replayed(r, ps)) ==
      if SetOnce(col) || Stored(col, r) != Some(MaybeBytes(None)) then Stored(col, r)
      else OrElse(FirstGiven(col, ps), Stored(col, r))
    ensures Replayed(r, ps).Key() == r.Key()
  {
    if ps != [] {
      var init, p := ps[..|ps| - 1], ps[|ps| - 1];
      ReplayKeepsFirst(col, r, init);
      UpdateSettles(p, Replayed(r, init));
      FirstGivenAppends(col, init, p);
      assert ps == init + [p];
      GivenStateIsContent(init);
    }
  }

  lemma {:induction false} GivenStateIsContent(ps: seq<Params>)
    ensures FirstGiven(DocumentYjsState, ps) != Some(MaybeBytes(None))
  {
    if ps != [] {
      GivenStateIsContent(ps[1..]);
    }
  }

  /** What a column of row k held before the run; in a row that the run creates, what it holds unless a value is given. */
  function Start(s: Store, k: nat, col: Column): Option<Value> {
    if k < |s.rows| then Stored(col, s.rows[k].data) else Default(col)
  }

  lemma SameTable(r: Data, q: Data, col: Column)
    requires r.Key() == q.Key()
    ensures Stored(col, r).Some? <==> Stored(col, q).Some?
  {
  }

  lemma CreatedColumn(first: Data, ps: seq<Params>, col: Column)
    requires StartsAs(first, ps) && Stored(col, first).Some?
    ensures Stored(col, first) == OrElse(Given(col, ps[0]), Default(col))
  {
    var rank :| first == Created(ps[0], rank);
    CreateSettles(ps[0], rank);
  }

  lemma LastContent(r: Data, first: Data, ps: seq<Params>, col: Column)
    requires History(r, first, ps) && StartsAs(first, ps) && Stored(col, r).Some?
    requires !SetOnce(col) && col != DocumentYjsState
    ensures Stored(col, r) == OrElse(LastGiven(col, ps), Default(col))
  {
    ReplaySettles(col, first, ps);
    SameTable(r, first, col);
    CreatedColumn(first, ps, col);
    if LastGiven(col, ps).None? {
      NothingGiven(col, ps);
      assert ps[0] in ps;
    }
  }

  /**
   Convergence: after any run, every column of every row holds the last value that the calls naming the row gave it, and
   what it held before, or the default of a new row, where none did.
   */
  lemma LastGivenStands(s: Store, program: seq<Call>, n: nat, k: nat, col: Column)
    requires n <= |program| && k < |Run(s, program, n).0.rows| && Stored(col, Run(s, program, n).0.rows[k].data).Some?
    requires !SetOnce(col) && col != DocumentYjsState
    ensures Stored(col, Run(s, program, n).0.rows[k].data) ==
            OrElse(LastGiven(col, Reached(s, program, n, k)), Start(s, k, col))
  {
    var first := RowHistory(s, program, n, k);
    var r, ps := Run(s, program, n).0.rows[k].data, Reached(s, program, n, k);
    if k < |s.rows| {
      ReplaySettles(col, first, ps);
    } else {
      LastContent(r, first, ps, col);
    }
  }

  lemma FirstContent(r: Data, first: Data, ps: seq<Params>, col: Column)
    requires History(r, first, ps) && StartsAs(first, ps) && Stored(col, r).Some?
    requires SetOnce(col) || col == DocumentYjsState
    ensures Stored(col, r) == OrElse(FirstGiven(col, ps), Default(col))
  {
    ReplayKeepsFirst(col, first, ps);
    SameTable(r, first, col);
    CreatedColumn(first, ps, col);
  }

  /** The columns set once, and the collaborative state: the first content stands, before the run or given in it. */
  lemma FirstGivenStands(s: Store, program: seq<Call>, n: nat, k: nat, col: Column)
    requires n <= |program| && k < |Run(s, program, n).0.rows| && Stored(col, Run(s, program, n).0.rows[k].data).Some?
    requires SetOnce(col) || col == DocumentYjsState
    ensures Stored(col, Run(s, program, n).0.rows[k].data) ==
      if k < |s.rows| && (SetOnce(col) || Start(s, k, col) != Some(MaybeBytes(None))) then Start(s, k, col)
      else OrElse(FirstGiven(col, Reached(s, program, n, k)), Start(s, k, col))
  {
    var first := RowHistory(s, program, n, k);
    var r, ps := Run(s, program, n).0.rows[k].data, Reached(s, program, n, k);
    if k < |s.rows| {
      ReplayKeepsFirst(col, first, ps);
    } else {
      FirstContent(r, first, ps, col);
    }
  }
}
