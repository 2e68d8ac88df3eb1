/**
 * Editor presence on documents: who is connected, in which colour.
 *
 * Joins that register before the next one asks for a colour keep "same user iff same colour" for as long as
 * 16 users at most are present. The handler awaits in between: see PresenceJoins.
 */
module Presence {
  import opened Colors
  import opened Options

  type SocketId = string
  type DocumentId = string

  datatype Editor = Editor(userId: UserId, color: Color)
  datatype Entry = Entry(socket: SocketId, editor: Editor)

  // ---- One document's entries, in insertion order ----

  function Put(es: seq<Entry>, socket: SocketId, editor: Editor): seq<Entry> {
    if es == [] then [Entry(socket, editor)]
    else if es[0].socket == socket then [Entry(socket, editor)] + es[1..]
    else [es[0]] + Put(es[1..], socket, editor)
  }

  function Without(es: seq<Entry>, socket: SocketId): seq<Entry> {
    if es == [] then [] else (if es[0].socket == socket then [] else [es[0]]) + Without(es[1..], socket)
  }

  function Lookup(es: seq<Entry>, socket: SocketId): Option<Editor> {
    if es == [] then None else if es[0].socket == socket then Some(es[0].editor) else Lookup(es[1..], socket)
  }

  function Editors(es: seq<Entry>): seq<Editor> {
    seq(|es|, i requires 0 <= i < |es| => es[i].editor)
  }

  function ColorsOf(es: seq<Entry>): set<Color> {
    set e | e in es :: e.editor.color
  }

  ghost function UsersOf(es: seq<Entry>): set<UserId> {
    set e | e in es :: e.editor.userId
  }

  ghost predicate Listed(es: seq<Entry>, socket: SocketId) {
    exists e :: e in es && e.socket == socket
  }

  ghost predicate DistinctSockets(es: seq<Entry>) {
    es != [] ==> !Listed(es[1..], es[0].socket) && DistinctSockets(es[1..])
  }

  /** The colour of the user's first tab, when there is one. */
  function KnownColor(es: seq<Entry>, user: UserId): Option<Color> {
    if es == [] then None
    else if es[0].editor.userId == user then Some(es[0].editor.color)
    else KnownColor(es[1..], user)
  }

  function ColorFor(es: seq<Entry>, user: UserId): Color {
    KnownColor(es, user).GetOr(Assigned(user, ColorsOf(es)))
  }

  class EditorPresence {
    var editors: map<DocumentId, seq<Entry>>

    /** A document with no editors has no entry, and a socket is listed once. */
    ghost predicate Valid()
      reads this
    {
      forall d :: d in editors ==> editors[d] != [] && DistinctSockets(editors[d])
    }

    function Room(document: DocumentId): seq<Entry>
      reads this
    {
      if document in editors then editors[document] else []
    }

    constructor ()
      ensures Valid() && forall d :: Room(d) == []
    {
      editors := map[];
    }

    method AddEditor(document: DocumentId, socket: SocketId, info: Editor)
      requires Valid()
      modifies this
      ensures Valid()
      ensures Room(document) == Put(old(Room(document)), socket, info)
      ensures forall d :: d != document ==> Room(d) == old(Room(d))
    {
      PutIsListed(Room(document), socket, info);
      if document !in editors {
        editors := editors[document := []];
      }
      editors := editors[document := Put(editors[document], socket, info)];
    }

    method RemoveEditor(document: DocumentId, socket: SocketId) returns (info: Option<Editor>)
      requires Valid()
      modifies this
      ensures Valid()
      ensures info == Lookup(old(Room(document)), socket)
      ensures Room(document) == Without(old(Room(document)), socket)
      ensures forall d :: d != document ==> Room(d) == old(Room(d))
    {
      if document !in editors {
        return None;
      }
      info := Lookup(editors[document], socket);
      WithoutIsGone(editors[document], socket);
      editors := editors[document := Without(editors[document], socket)];
      if editors[document] == [] {
        editors := editors - {document};
      }
    }

    method GetEditors(document: DocumentId) returns (all: seq<Editor>)
      ensures |all| == |Room(document)| && forall i :: 0 <= i < |all| ==> all[i] == Room(document)[i].editor
    {
      if document !in editors {
        return [];
      }
      return Editors(editors[document]);
    }

    method AssignColor(document: DocumentId, user: UserId) returns (c: Color)
      ensures c == ColorFor(Room(document), user)
    {
      var es := Room(document);
      var i := 0;
      while i < |es|
        invariant 0 <= i <= |es|
        invariant KnownColor(es, user) == KnownColor(es[i..], user)
      {
        if es[i].editor.userId == user {
          return es[i].editor.color;
        }
        i := i + 1;
      }
      c := AssignCollaboratorColor(user, ColorsOf(es));
    }
  }

  /** `Map.set` on a new key adds the entry at the end. */
  lemma {:induction false} PutAppends(es: seq<Entry>, socket: SocketId, editor: Editor)
    requires !Listed(es, socket)
    ensures Put(es, socket, editor) == es + [Entry(socket, editor)]
  {
    if es != [] {
      assert es[0] in es;
      assert forall e :: e in es[1..] ==> e in es;
      PutAppends(es[1..], socket, editor);
      assert [es[0]] + (es[1..] + [Entry(socket, editor)]) == es + [Entry(socket, editor)];
    }
  }

  /** `Map.set` lists the new entry and keeps every other socket's. */
  lemma {:induction false} PutIsListed(es: seq<Entry>, socket: SocketId, editor: Editor)
    requires DistinctSockets(es)
    ensures Put(es, socket, editor) != [] && DistinctSockets(Put(es, socket, editor))
    ensures forall e :: e in Put(es, socket, editor) <==> e == Entry(socket, editor) || (e in es && e.socket != socket)
  {
    if es != [] {
      assert forall e :: e in es <==> e == es[0] || e in es[1..];
      if es[0].socket == socket {
        PutFirst(es, socket, editor);
      } else {
        PutIsListed(es[1..], socket, editor);
        PutLater(es, socket, editor);
      }
    }
  }

  lemma PutFirst(es: seq<Entry>, socket: SocketId, editor: Editor)
    requires DistinctSockets(es) && es != [] && es[0].socket == socket
    ensures DistinctSockets(Put(es, socket, editor))
    ensures forall e :: e in Put(es, socket, editor) <==> e == Entry(socket, editor) || (e in es && e.socket != socket)
  {
    assert Put(es, socket, editor)[1..] == es[1..];
    assert forall e :: e in es <==> e == es[0] || e in es[1..];
    assert forall e :: e in es[1..] ==> e.socket != socket;
  }

  lemma PutLater(es: seq<Entry>, socket: SocketId, editor: Editor)
    requires DistinctSockets(es) && es != [] && es[0].socket != socket
    requires DistinctSockets(Put(es[1..], socket, editor))
    requires forall e :: e in Put(es[1..], socket, editor) <==> e == Entry(socket, editor) || (e in es[1..] && e.socket != socket)
    ensures DistinctSockets(Put(es, socket, editor))
    ensures forall e :: e in Put(es, socket, editor) <==> e == es[0] || e in Put(es[1..], socket, editor)
  {
    assert Put(es, socket, editor)[1..] == Put(es[1..], socket, editor);
  }

  /** `Map.delete`: the socket's entry goes, the others stay. */
  lemma {:induction false} WithoutIsGone(es: seq<Entry>, socket: SocketId)
    ensures forall e :: e in Without(es, socket) <==> e in es && e.socket != socket
    ensures DistinctSockets(es) ==> DistinctSockets(Without(es, socket))
    ensures Lookup(es, socket).Some? <==> Listed(es, socket)
  {
    if es != [] {
      var rest := Without(es[1..], socket);
      WithoutIsGone(es[1..], socket);
      assert forall e :: e in es <==> e == es[0] || e in es[1..];
      if es[0].socket == socket {
        assert Without(es, socket) == rest;
      } else {
        assert Without(es, socket)[1..] == rest;
      }
    }
  }

  // ---- Colours of the users present ----

  /** Two tabs show the same colour exactly when they belong to the same user. */
  ghost predicate Consistent(es: seq<Entry>) {
    forall a, b :: a in es && b in es ==> SameUser(a.editor, b.editor)
  }

  ghost predicate SameUser(a: Editor, b: Editor) {
    a.userId == b.userId <==> a.color == b.color
  }

  /** A socket is authenticated as one user. */
  ghost predicate Owned(es: seq<Entry>, owner: SocketId -> UserId) {
    forall e :: e in es ==> e.editor.userId == owner(e.socket)
  }

  ghost predicate Good(es: seq<Entry>, owner: SocketId -> UserId) {
    DistinctSockets(es) && Owned(es, owner) && Consistent(es)
  }

  /** A join that registers before anything else happens. */
  function Join(es: seq<Entry>, socket: SocketId, owner: SocketId -> UserId): seq<Entry> {
    Put(es, socket, Editor(owner(socket), ColorFor(es, owner(socket))))
  }

  lemma {:induction false} KnownColorIs(es: seq<Entry>, user: UserId)
    ensures KnownColor(es, user).Some? <==> user in UsersOf(es)
    ensures KnownColor(es, user).Some? ==> exists e :: e in es && e.editor == Editor(user, KnownColor(es, user).value)
  {
    if es != [] {
      KnownColorIs(es[1..], user);
      assert forall e :: e in es <==> e == es[0] || e in es[1..];
      if es[0].editor.userId == user {
        assert es[0].editor == Editor(user, KnownColor(es, user).value);
      }
    }
  }

  /** Pigeonhole, first half: there are no more colours than users. */
  lemma {:induction false} NoMoreColorsThanUsers(es: seq<Entry>)
    requires Consistent(es)
    ensures |ColorsOf(es)| <= |UsersOf(es)|
  {
    if es == [] {
      assert ColorsOf(es) == {} && UsersOf(es) == {};
    } else {
      var rest := es[1..];
      var first := es[0].editor;
      assert forall e :: e in es <==> e == es[0] || e in rest;
      NoMoreColorsThanUsers(rest);
      assert ColorsOf(es) == ColorsOf(rest) + {first.color};
      assert UsersOf(es) == UsersOf(rest) + {first.userId};
      if first.userId in UsersOf(rest) {
        var e :| e in rest && e.editor.userId == first.userId;
        assert SameUser(e.editor, first);
        assert first.color in ColorsOf(rest);
      }
    }
  }

  function FirstColors(n: nat): set<Color> {
    set i: nat | i < n :: Palette(i)
  }

  /** Pigeonhole, second half: exhausting the palette takes 16 colours. */
  lemma {:induction false} ColorsCount(n: nat)
    ensures |FirstColors(n)| == n
  {
    if n > 0 {
      ColorsCount(n - 1);
      assert FirstColors(n) == FirstColors(n - 1) + {Palette(n - 1)};
    }
  }

  lemma SetsGrow<T>(a: set<T>, b: set<T>)
    requires a <= b
    ensures |a| <= |b|
  {
    assert b == a + (b - a);
  }

  lemma RoomLeft(es: seq<Entry>)
    requires Consistent(es) && |UsersOf(es)| < PALETTE_SIZE
    ensures !PaletteExhausted(ColorsOf(es))
  {
    NoMoreColorsThanUsers(es);
    ColorsCount(PALETTE_SIZE);
    if PaletteExhausted(ColorsOf(es)) {
      SetsGrow(FirstColors(PALETTE_SIZE), ColorsOf(es));
    }
  }

  ghost function EditorsOf(es: seq<Entry>): set<Editor> {
    set e | e in es :: e.editor
  }

  lemma SameEditors(es: seq<Entry>, after: seq<Entry>)
    requires EditorsOf(es) == EditorsOf(after)
    ensures UsersOf(es) == UsersOf(after)
    ensures Consistent(es) ==> Consistent(after)
  {
    assert UsersOf(es) == set d | d in EditorsOf(es) :: d.userId;
    assert UsersOf(after) == set d | d in EditorsOf(after) :: d.userId;
    if Consistent(es) {
      forall a, b | a in after && b in after
        ensures SameUser(a.editor, b.editor)
      {
        assert a.editor in EditorsOf(es) && b.editor in EditorsOf(es);
      }
    }
  }

  /** The colour a known user is given is the one all the user's entries have. */
  lemma KnownUserKeepsColor(es: seq<Entry>, user: UserId)
    requires Consistent(es) && user in UsersOf(es)
    ensures Editor(user, ColorFor(es, user)) in EditorsOf(es)
    ensures forall e :: e in es && e.editor.userId == user ==> e.editor == Editor(user, ColorFor(es, user))
  {
    KnownColorIs(es, user);
    var known :| known in es && known.editor == Editor(user, ColorFor(es, user));
    forall e | e in es && e.editor.userId == user
      ensures e.editor == known.editor
    {
      assert SameUser(e.editor, known.editor);
    }
  }

  /** Joining with a user already present changes nothing about who has which colour. */
  lemma JoinOfKnown(es: seq<Entry>, socket: SocketId, owner: SocketId -> UserId)
    requires Good(es, owner) && owner(socket) in UsersOf(es)
    ensures Good(Join(es, socket, owner), owner)
    ensures UsersOf(Join(es, socket, owner)) == UsersOf(es)
  {
    var info := Editor(owner(socket), ColorFor(es, owner(socket)));
    KnownUserKeepsColor(es, owner(socket));
    PutIsListed(es, socket, info);
    PutOfListedEditor(es, socket, info);
    SameEditors(es, Put(es, socket, info));
  }

  lemma PutOfListedEditor(es: seq<Entry>, socket: SocketId, info: Editor)
    requires DistinctSockets(es) && info in EditorsOf(es)
    requires forall e :: e in es && e.socket == socket ==> e.editor == info
    ensures EditorsOf(Put(es, socket, info)) == EditorsOf(es)
  {
    var after := Put(es, socket, info);
    PutIsListed(es, socket, info);
    assert Entry(socket, info) in after;
    forall d | d in EditorsOf(es)
      ensures d in EditorsOf(after)
    {
      var e :| e in es && e.editor == d;
      assert e.socket != socket ==> e in after;
    }
  }

  lemma JoinOfNew(es: seq<Entry>, socket: SocketId, owner: SocketId -> UserId)
    requires Good(es, owner) && owner(socket) !in UsersOf(es)
    ensures Join(es, socket, owner) == es + [Entry(socket, Editor(owner(socket), Assigned(owner(socket), ColorsOf(es))))]
    ensures DistinctSockets(Join(es, socket, owner)) && Owned(Join(es, socket, owner), owner)
    ensures UsersOf(Join(es, socket, owner)) == UsersOf(es) + {owner(socket)}
    ensures Consistent(Join(es, socket, owner)) <==> Assigned(owner(socket), ColorsOf(es)) !in ColorsOf(es)
  {
    var user := owner(socket);
    KnownColorIs(es, user);
    var color := Assigned(user, ColorsOf(es));
    var entry := Entry(socket, Editor(user, color));
    assert !Listed(es, socket);
    PutAppends(es, socket, entry.editor);
    PutIsListed(es, socket, entry.editor);
    AppendedConsistency(es, entry);
  }

  lemma AppendedConsistency(es: seq<Entry>, entry: Entry)
    requires Consistent(es) && entry.editor.userId !in UsersOf(es)
    ensures Consistent(es + [entry]) <==> entry.editor.color !in ColorsOf(es)
    ensures UsersOf(es + [entry]) == UsersOf(es) + {entry.editor.userId}
  {
    var after := es + [entry];
    assert forall e :: e in after <==> e in es || e == entry;
    if entry.editor.color in ColorsOf(es) {
      var e :| e in es && e.editor.color == entry.editor.color;
      assert e in after && entry in after && !SameUser(e.editor, entry.editor);
    } else {
      forall a, b | a in after && b in after
        ensures SameUser(a.editor, b.editor)
      {
      }
    }
  }

  /**
   * A join keeps "same user iff same colour" exactly when the user is already there, or a palette colour is free,
   * or nobody present has the one hue the user's hash gives.
   */
  lemma JoinKeepsIff(es: seq<Entry>, socket: SocketId, owner: SocketId -> UserId)
    requires Good(es, owner)
    ensures Good(Join(es, socket, owner), owner) <==>
      || owner(socket) in UsersOf(es)
      || !PaletteExhausted(ColorsOf(es))
      || Hsl((Fnv(owner(socket)) + 40) % 360) !in ColorsOf(es)
  {
    var user := owner(socket);
    if user in UsersOf(es) {
      JoinOfKnown(es, socket, owner);
    } else {
      JoinOfNew(es, socket, owner);
      FirstFreeIsAssigned(user, ColorsOf(es));
      if PaletteExhausted(ColorsOf(es)) {
        ExhaustedHue(user, ColorsOf(es));
      }
    }
  }

  // ---- Runs of joins and leaves ----

  datatype Event = Joins(socket: SocketId) | Leaves(socket: SocketId)

  function After(es: seq<Entry>, e: Event, owner: SocketId -> UserId): seq<Entry> {
    if e.Joins? then Join(es, e.socket, owner) else Without(es, e.socket)
  }

  function Run(es: seq<Entry>, events: seq<Event>, owner: SocketId -> UserId): seq<Entry>
    decreases |events|
  {
    if events == [] then es else Run(After(es, events[0], owner), events[1..], owner)
  }

  /** At no point of the run are more than 16 users present. */
  ghost predicate SmallRun(es: seq<Entry>, events: seq<Event>, owner: SocketId -> UserId)
    decreases |events|
  {
    && |UsersOf(es)| <= PALETTE_SIZE
    && (events != [] ==> SmallRun(After(es, events[0], owner), events[1..], owner))
  }

  lemma LeaveKeeps(es: seq<Entry>, socket: SocketId, owner: SocketId -> UserId)
    requires Good(es, owner)
    ensures Good(Without(es, socket), owner)
  {
    WithoutIsGone(es, socket);
  }

  lemma SmallJoinKeeps(es: seq<Entry>, socket: SocketId, owner: SocketId -> UserId)
    requires Good(es, owner) && |UsersOf(Join(es, socket, owner))| <= PALETTE_SIZE
    ensures Good(Join(es, socket, owner), owner)
  {
    JoinKeepsIff(es, socket, owner);
    if owner(socket) !in UsersOf(es) {
      JoinOfNew(es, socket, owner);
      RoomLeft(es);
    }
  }

  /** Over every run with at most 16 users present at once, colours tell users apart and a user's tabs agree. */
  lemma {:induction false} ColorsStayDistinct(es: seq<Entry>, events: seq<Event>, owner: SocketId -> UserId)
    requires Good(es, owner) && SmallRun(es, events, owner)
    ensures Good(Run(es, events, owner), owner)
    decreases |events|
  {
    if events != [] {
      var e := events[0];
      if e.Joins? {
        SmallJoinKeeps(es, e.socket, owner);
      } else {
        LeaveKeeps(es, e.socket, owner);
      }
      ColorsStayDistinct(After(es, e, owner), events[1..], owner);
    }
  }
}
