/**
 * Joins of one document as the gateway runs them: a handler asks for a colour, waits for the room join, and only
 * then registers. Others may ask, register and leave in between, and the socket itself may be gone.
 */
module PresenceJoins {
  import opened Colors
  import opened Int32
  import opened Options
  import opened Presence

  /** One execution of the join handler. */
  type JoinId = nat

  /** Who is registered, and what the handlers that wait have been given. */
  datatype State = State(present: seq<Entry>, asked: map<JoinId, Entry>)

  /** Leaving a document and losing the connection both end in `Disconnects`. */
  datatype JoinEvent =
    | Asks(join: JoinId, socket: SocketId)
    | Registers(join: JoinId)
    | Disconnects(socket: SocketId)

  const EMPTY: State := State([], map[])

  function Asked(es: seq<Entry>, socket: SocketId, owner: SocketId -> UserId): Entry {
    Entry(socket, Editor(owner(socket), ColorFor(es, owner(socket))))
  }

  function Next(s: State, e: JoinEvent, owner: SocketId -> UserId): State {
    match e
    case Asks(join, socket) => if join in s.asked then s else s.(asked := s.asked[join := Asked(s.present, socket, owner)])
    case Registers(join) =>
      if join in s.asked then State(Put(s.present, s.asked[join].socket, s.asked[join].editor), s.asked - {join}) else s
    case Disconnects(socket) => s.(present := Without(s.present, socket))
  }

  function StateAfter(events: seq<JoinEvent>, owner: SocketId -> UserId): State {
    if events == [] then EMPTY
    else Next(StateAfter(events[..|events| - 1], owner), events[|events| - 1], owner)
  }

  // ---- A registration ----

  /** Among the other sockets' entries the colour is still the user's own, or the user is not there and it is nobody's. */
  predicate StillFits(es: seq<Entry>, entry: Entry) {
    var others := Without(es, entry.socket);
    match KnownColor(others, entry.editor.userId)
    case Some(color) => color == entry.editor.color
    case None => entry.editor.color !in ColorsOf(others)
  }

  /** The same, entry by entry. */
  lemma StillFitsIs(es: seq<Entry>, entry: Entry)
    requires Consistent(es)
    ensures StillFits(es, entry) <==>
      forall e :: e in es && e.socket != entry.socket ==> SameUser(e.editor, entry.editor)
  {
    var others := Without(es, entry.socket);
    WithoutIsGone(es, entry.socket);
    KnownColorIs(others, entry.editor.userId);
    if KnownColor(others, entry.editor.userId).Some? {
      var known :| known in others && known.editor == Editor(entry.editor.userId, KnownColor(others, entry.editor.userId).value);
      forall e | e in others
        ensures SameUser(e.editor, known.editor)
      {
      }
    } else {
      forall e | e in others
        ensures e.editor.userId != entry.editor.userId && e.editor.color in ColorsOf(others)
      {
        assert e.editor.userId in UsersOf(others) <==> e in others;
      }
    }
  }

  /** A registration keeps "same user iff same colour" exactly when the colour still fits. */
  lemma RegisterKeepsIff(es: seq<Entry>, entry: Entry, owner: SocketId -> UserId)
    requires Good(es, owner) && entry.editor.userId == owner(entry.socket)
    ensures Good(Put(es, entry.socket, entry.editor), owner) <==> StillFits(es, entry)
  {
    var after := Put(es, entry.socket, entry.editor);
    PutIsListed(es, entry.socket, entry.editor);
    StillFitsIs(es, entry);
    assert entry in after;
    if StillFits(es, entry) {
      forall a, b | a in after && b in after
        ensures SameUser(a.editor, b.editor)
      {
        assert a == entry || (a in es && a.socket != entry.socket);
        assert b == entry || (b in es && b.socket != entry.socket);
      }
    } else {
      var e :| e in es && e.socket != entry.socket && !SameUser(e.editor, entry.editor);
      assert e in after;
    }
  }

  // ---- Runs ----

  ghost predicate Sound(s: State, owner: SocketId -> UserId) {
    forall j :: j in s.asked ==> s.asked[j].editor.userId == owner(s.asked[j].socket)
  }

  /** The event is a registration whose colour no longer fits. */
  predicate Misfits(s: State, e: JoinEvent) {
    e.Registers? && e.join in s.asked && !StillFits(s.present, s.asked[e.join])
  }

  lemma NextKeepsIff(s: State, e: JoinEvent, owner: SocketId -> UserId)
    requires Sound(s, owner)
    ensures Sound(Next(s, e, owner), owner)
    ensures Good(s.present, owner) ==> (Good(Next(s, e, owner).present, owner) <==> !Misfits(s, e))
  {
    if Good(s.present, owner) {
      match e
      case Asks(_, _) =>
      case Registers(join) =>
        if join in s.asked {
          RegisterKeepsIff(s.present, s.asked[join], owner);
        }
      case Disconnects(socket) => LeaveKeeps(s.present, socket, owner);
    }
  }

  lemma {:induction false} RunIsSound(events: seq<JoinEvent>, owner: SocketId -> UserId)
    ensures Sound(StateAfter(events, owner), owner)
  {
    if events != [] {
      RunIsSound(events[..|events| - 1], owner);
      NextKeepsIff(StateAfter(events[..|events| - 1], owner), events[|events| - 1], owner);
    }
  }

  /** In every state of the run, the last one included, colours tell users apart and a user's tabs agree. */
  ghost predicate AlwaysGood(events: seq<JoinEvent>, owner: SocketId -> UserId) {
    Good(StateAfter(events, owner).present, owner) && (events != [] ==> AlwaysGood(events[..|events| - 1], owner))
  }

  ghost predicate NothingMisfits(events: seq<JoinEvent>, owner: SocketId -> UserId) {
    events != [] ==>
      && NothingMisfits(events[..|events| - 1], owner)
      && !Misfits(StateAfter(events[..|events| - 1], owner), events[|events| - 1])
  }

  /** However joins and leaves interleave: colours stay right exactly when every colour still fits as it is registered. */
  lemma {:induction false} AlwaysGoodIff(events: seq<JoinEvent>, owner: SocketId -> UserId)
    ensures AlwaysGood(events, owner) <==> NothingMisfits(events, owner)
  {
    if events != [] {
      var init := events[..|events| - 1];
      AlwaysGoodIff(init, owner);
      RunIsSound(init, owner);
      NextKeepsIff(StateAfter(init, owner), events[|events| - 1], owner);
    }
  }

  /** Registering at once is `Join`. */
  lemma AskedAndRegistered(s: State, join: JoinId, socket: SocketId, owner: SocketId -> UserId)
    requires join !in s.asked
    ensures Next(Next(s, Asks(join, socket), owner), Registers(join), owner)
      == State(Join(s.present, socket, owner), s.asked)
  {
    assert s.asked[join := Asked(s.present, socket, owner)] - {join} == s.asked;
  }

  // ---- Two joins that ask in one room ----

  /** Both handlers ask for a colour before either registers: the await on the room join lies in between. */
  function JoinTogether(es: seq<Entry>, s: SocketId, t: SocketId, owner: SocketId -> UserId): seq<Entry> {
    var first := Editor(owner(s), ColorFor(es, owner(s)));
    var second := Editor(owner(t), ColorFor(es, owner(t)));
    Put(Put(es, s, first), t, second)
  }

  /** The user is present already, or there is a colour left for the user. */
  ghost predicate HasColor(es: seq<Entry>, user: UserId) {
    user in UsersOf(es) || !PaletteExhausted(ColorsOf(es)) || Hsl((Fnv(user) + 40) % 360) !in ColorsOf(es)
  }

  /** Two different users, both new, whose hashes make the same choice among the colours present. */
  ghost predicate Clash(es: seq<Entry>, u: UserId, v: UserId) {
    u != v && u !in UsersOf(es) && v !in UsersOf(es) && SameChoice(Fnv(u), Fnv(v), ColorsOf(es))
  }

  lemma KnownJoinKeepsEditors(es: seq<Entry>, s: SocketId, owner: SocketId -> UserId)
    requires Good(es, owner) && owner(s) in UsersOf(es)
    ensures EditorsOf(Join(es, s, owner)) == EditorsOf(es) == EditorsOf(es) + {Editor(owner(s), ColorFor(es, owner(s)))}
  {
    KnownUserKeepsColor(es, owner(s));
    PutOfListedEditor(es, s, Editor(owner(s), ColorFor(es, owner(s))));
  }

  lemma NewJoinKeepsEditors(es: seq<Entry>, s: SocketId, owner: SocketId -> UserId)
    requires Good(es, owner) && owner(s) !in UsersOf(es)
    ensures EditorsOf(Join(es, s, owner)) == EditorsOf(es) + {Editor(owner(s), ColorFor(es, owner(s)))}
  {
    var info := Editor(owner(s), ColorFor(es, owner(s)));
    assert !Listed(es, s);
    PutAppends(es, s, info);
    EditorsAppend(es, Entry(s, info));
  }

  lemma JoinIsOwned(es: seq<Entry>, s: SocketId, owner: SocketId -> UserId)
    requires Good(es, owner)
    ensures DistinctSockets(Join(es, s, owner)) && Owned(Join(es, s, owner), owner)
  {
    PutIsListed(es, s, Editor(owner(s), ColorFor(es, owner(s))));
  }

  lemma JoinConsistentIff(es: seq<Entry>, s: SocketId, owner: SocketId -> UserId)
    requires Good(es, owner)
    ensures Consistent(Join(es, s, owner)) <==> HasColor(es, owner(s))
  {
    JoinIsOwned(es, s, owner);
    JoinKeepsIff(es, s, owner);
  }

  lemma JoinAddsEditor(es: seq<Entry>, s: SocketId, owner: SocketId -> UserId)
    requires Good(es, owner)
    ensures EditorsOf(Join(es, s, owner)) == EditorsOf(es) + {Editor(owner(s), ColorFor(es, owner(s)))}
  {
    if owner(s) in UsersOf(es) {
      KnownJoinKeepsEditors(es, s, owner);
    } else {
      NewJoinKeepsEditors(es, s, owner);
    }
  }

  /** Joining changes neither the colours nor the users of those already there. */
  lemma JoinKeepsEditors(es: seq<Entry>, s: SocketId, owner: SocketId -> UserId)
    requires Good(es, owner)
    ensures DistinctSockets(Join(es, s, owner)) && Owned(Join(es, s, owner), owner)
    ensures EditorsOf(Join(es, s, owner)) == EditorsOf(es) + {Editor(owner(s), ColorFor(es, owner(s)))}
    ensures Consistent(Join(es, s, owner)) <==> HasColor(es, owner(s))
  {
    JoinIsOwned(es, s, owner);
    JoinConsistentIff(es, s, owner);
    JoinAddsEditor(es, s, owner);
  }

  lemma EditorsAppend(es: seq<Entry>, entry: Entry)
    ensures EditorsOf(es + [entry]) == EditorsOf(es) + {entry.editor}
  {
    assert forall e :: e in es + [entry] <==> e in es || e == entry;
  }

  /** Putting an editor who is listed already, in the same colours, changes nobody's colour. */
  lemma SecondPutIsListed(es: seq<Entry>, s: SocketId, t: SocketId, owner: SocketId -> UserId)
    requires Good(es, owner)
    requires owner(t) in UsersOf(es) || owner(t) == owner(s)
    ensures Consistent(JoinTogether(es, s, t, owner)) <==> Consistent(Join(es, s, owner))
  {
    var one := Join(es, s, owner);
    var first := Editor(owner(s), ColorFor(es, owner(s)));
    var second := Editor(owner(t), ColorFor(es, owner(t)));
    JoinKeepsEditors(es, s, owner);
    PutIsListed(es, s, first);
    if owner(t) in UsersOf(es) {
      KnownUserKeepsColor(es, owner(t));
    }
    forall e | e in one && e.socket == t
      ensures e.editor == second
    {
      assert e == Entry(s, first) || e in es;
    }
    PutOfListedEditor(one, t, second);
    SameEditors(one, Put(one, t, second));
    SameEditors(Put(one, t, second), one);
  }

  lemma NotListed(es: seq<Entry>, t: SocketId, owner: SocketId -> UserId)
    requires Owned(es, owner) && owner(t) !in UsersOf(es)
    ensures !Listed(es, t)
  {
  }

  lemma UsersAndColors(es: seq<Entry>, after: seq<Entry>, info: Editor)
    requires EditorsOf(after) == EditorsOf(es) + {info}
    ensures UsersOf(after) == UsersOf(es) + {info.userId} && ColorsOf(after) == ColorsOf(es) + {info.color}
  {
    assert UsersOf(after) == set d | d in EditorsOf(after) :: d.userId;
    assert ColorsOf(after) == set d | d in EditorsOf(after) :: d.color;
    assert UsersOf(es) == set d | d in EditorsOf(es) :: d.userId;
    assert ColorsOf(es) == set d | d in EditorsOf(es) :: d.color;
  }

  /** A second user who is new adds one entry, in the colour chosen before the first was there. */
  lemma SecondPutIsNew(es: seq<Entry>, s: SocketId, t: SocketId, owner: SocketId -> UserId)
    requires Good(es, owner) && Good(Join(es, s, owner), owner)
    requires owner(t) !in UsersOf(es) && owner(t) != owner(s)
    ensures Consistent(JoinTogether(es, s, t, owner)) <==>
      Assigned(owner(t), ColorsOf(es)) !in ColorsOf(es) + {ColorFor(es, owner(s))}
  {
    var one := Join(es, s, owner);
    JoinKeepsEditors(es, s, owner);
    UsersAndColors(es, one, Editor(owner(s), ColorFor(es, owner(s))));
    KnownColorIs(es, owner(t));
    var entry := Entry(t, Editor(owner(t), Assigned(owner(t), ColorsOf(es))));
    NotListed(one, t, owner);
    PutAppends(one, t, entry.editor);
    AppendedConsistency(one, entry);
  }

  /** A failed first join is not repaired by the second. */
  lemma StillInconsistent(es: seq<Entry>, s: SocketId, t: SocketId, owner: SocketId -> UserId)
    requires Good(es, owner) && !Consistent(Join(es, s, owner)) && owner(t) !in UsersOf(es) && owner(t) != owner(s)
    ensures !Consistent(JoinTogether(es, s, t, owner))
  {
    var one := Join(es, s, owner);
    JoinKeepsEditors(es, s, owner);
    UsersAndColors(es, one, Editor(owner(s), ColorFor(es, owner(s))));
    NotListed(one, t, owner);
    PutAppends(one, t, Editor(owner(t), ColorFor(es, owner(t))));
    var a, b :| a in one && b in one && !SameUser(a.editor, b.editor);
    assert a in JoinTogether(es, s, t, owner) && b in JoinTogether(es, s, t, owner);
  }

  /**
   Two joins that ask in one room, nobody else joining or leaving before both have registered, whoever joins: colours
   still tell users apart exactly when each join would have been fine alone and the two do not clash.
   */
  lemma OverlappingJoinsKeepIff(es: seq<Entry>, s: SocketId, t: SocketId, owner: SocketId -> UserId)
    requires Good(es, owner)
    ensures Consistent(JoinTogether(es, s, t, owner)) <==>
      HasColor(es, owner(s)) && HasColor(es, owner(t)) && !Clash(es, owner(s), owner(t))
  {
    var u, v := owner(s), owner(t);
    JoinKeepsEditors(es, s, owner);
    if v in UsersOf(es) || u == v {
      SecondPutIsListed(es, s, t, owner);
    } else if !Consistent(Join(es, s, owner)) {
      StillInconsistent(es, s, t, owner);
    } else {
      SecondPutIsNew(es, s, t, owner);
      NewColorFits(es, v);
      KnownColorIs(es, u);
      if u in UsersOf(es) {
        KnownUserKeepsColor(es, u);
      } else {
        SameColorIff(u, v, ColorsOf(es));
      }
    }
  }

  lemma NewColorFits(es: seq<Entry>, user: UserId)
    requires user !in UsersOf(es)
    ensures Assigned(user, ColorsOf(es)) !in ColorsOf(es) <==> HasColor(es, user)
  {
    FirstFreeIsAssigned(user, ColorsOf(es));
    if PaletteExhausted(ColorsOf(es)) {
      ExhaustedHue(user, ColorsOf(es));
    }
  }

  /** In an empty room: ids that differ only in a last code unit equal modulo 16 end up in the same colour. */
  lemma OverlapInEmptyRoom(s: SocketId, t: SocketId, owner: SocketId -> UserId, stem: UserId, c: CodeUnit, d: CodeUnit)
    requires owner(s) == stem + [c] && owner(t) == stem + [d] && c != d && c % 16 == d % 16
    ensures !Consistent(JoinTogether([], s, t, owner))
    ensures Consistent(Run([], [Joins(s), Joins(t)], owner))
  {
    var none: seq<Entry> := [];
    assert ColorsOf(none) == {} && UsersOf(none) == {};
    assert (stem + [c])[|stem|] != (stem + [d])[|stem|];
    SameStartIff(stem, c, d);
    EmptyPalette(owner(s));
    EmptyPalette(owner(t));
    SameColorIff(owner(s), owner(t), {});
    OverlappingJoinsKeepIff(none, s, t, owner);
    TwoJoins(s, t, owner);
  }

  lemma EmptyPalette(u: UserId)
    ensures Assigned(u, {}) == Palette(Slot(Fnv(u), 0))
  {
    FirstFreeIsAssigned(u, {});
    assert FirstFree(Fnv(u), {}, 0);
  }

  lemma TwoJoins(s: SocketId, t: SocketId, owner: SocketId -> UserId)
    ensures Consistent(Run([], [Joins(s), Joins(t)], owner))
  {
    var none: seq<Entry> := [];
    assert ColorsOf(none) == {} && UsersOf(none) == {};
    var one := Join(none, s, owner);
    KnownColorIs(none, owner(s));
    SmallJoinKeeps(none, s, owner) by { JoinOfNew(none, s, owner); }
    var both := Join(one, t, owner);
    JoinOfNew(none, s, owner);
    if owner(t) in UsersOf(one) {
      JoinOfKnown(one, t, owner);
    } else {
      JoinOfNew(one, t, owner);
      assert |UsersOf(both)| <= 2;
      SmallJoinKeeps(one, t, owner);
    }
    assert [Joins(s), Joins(t)][1..] == [Joins(t)];
    assert [Joins(t)][1..] == [];
    assert Run(none, [Joins(s), Joins(t)], owner) == Run(one, [Joins(t)], owner) == Run(both, [], owner) == both;
  }

  /** The same from the registrations: both colours still fit exactly when both users had one and the two do not clash. */
  lemma BothStillFitIff(es: seq<Entry>, s: SocketId, t: SocketId, owner: SocketId -> UserId)
    requires Good(es, owner)
    ensures StillFits(es, Asked(es, s, owner)) && StillFits(Join(es, s, owner), Asked(es, t, owner)) <==>
      HasColor(es, owner(s)) && HasColor(es, owner(t)) && !Clash(es, owner(s), owner(t))
  {
    var one := Join(es, s, owner);
    RegisterKeepsIff(es, Asked(es, s, owner), owner);
    JoinKeepsEditors(es, s, owner);
    OverlappingJoinsKeepIff(es, s, t, owner);
    if Good(one, owner) {
      RegisterKeepsIff(one, Asked(es, t, owner), owner);
      PutIsListed(one, t, Asked(es, t, owner).editor);
    }
  }

  // ---- A leave between two asks ----

  /** The colour a new user gets in a room of one. */
  lemma RoomOfOne(first: Entry, u: UserId)
    requires first.editor.userId != u
    ensures ColorFor([first], u) == Assigned(u, {first.editor.color})
  {
    var one := [first];
    assert one[1..] == [];
    assert ColorsOf(one) == {first.editor.color};
    assert KnownColor(one, u) == None;
  }

  lemma SecondSlot(u: UserId)
    ensures Assigned(u, {Palette(Slot(Fnv(u), 0))}) == Palette(Slot(Fnv(u), 1))
  {
    var taken := {Palette(Slot(Fnv(u), 0))};
    SlotAdvances(Fnv(u), 0);
    FirstFreeIsAssigned(u, taken);
    assert FirstFree(Fnv(u), taken, 1);
    assert Palette(Slot(Fnv(u), 1)) !in taken;
  }

  lemma EmptyRoom(u: UserId)
    ensures ColorFor([], u) == Palette(Slot(Fnv(u), 0))
  {
    var none: seq<Entry> := [];
    assert ColorsOf(none) == {};
    EmptyPalette(u);
  }

  lemma SmallRooms(e: Entry, f: Entry)
    requires e.socket != f.socket
    ensures Put([], e.socket, e.editor) == [e] && Without([e], e.socket) == []
    ensures Put([e], f.socket, f.editor) == [e, f]
  {
    assert [e][1..] == [];
    assert [e] + [f] == [e, f];
  }

  lemma OneAsk(s: State, join: JoinId, entry: Entry, owner: SocketId -> UserId)
    requires join !in s.asked && Asked(s.present, entry.socket, owner) == entry
    ensures Next(s, Asks(join, entry.socket), owner) == State(s.present, s.asked[join := entry])
  {
  }

  /** a is alone when b asks, and gone before b registers. */
  lemma GoneBeforeRegistered(first: Entry, second: Entry, owner: SocketId -> UserId) returns (events: seq<JoinEvent>)
    requires Asked([], first.socket, owner) == first && Asked([first], second.socket, owner) == second
    requires first.socket != second.socket
    ensures events == [Asks(0, first.socket), Registers(0), Asks(1, second.socket), Disconnects(first.socket)]
    ensures StateAfter(events, owner) == State([], map[1 := second])
  {
    SmallRooms(first, second);
    events := [];
    events := AppendEvent(events, Asks(0, first.socket), owner);
    assert StateAfter(events, owner) == State([], map[0 := first]);
    events := AppendEvent(events, Registers(0), owner);
    assert map[0 := first] - {0} == map[];
    assert StateAfter(events, owner) == State([first], map[]);
    OneAsk(State([first], map[]), 1, second, owner);
    events := AppendEvent(events, Asks(1, second.socket), owner);
    assert StateAfter(events, owner) == State([first], map[1 := second]);
    events := AppendEvent(events, Disconnects(first.socket), owner);
  }

  lemma AppendEvent(events: seq<JoinEvent>, e: JoinEvent, owner: SocketId -> UserId) returns (more: seq<JoinEvent>)
    ensures more == events + [e] && StateAfter(more, owner) == Next(StateAfter(events, owner), e, owner)
  {
    more := events + [e];
    assert more[..|events|] == events;
  }

  /** c asks before the other has registered. */
  lemma BothRegister(events: seq<JoinEvent>, second: Entry, third: Entry, owner: SocketId -> UserId) returns (more: seq<JoinEvent>)
    requires StateAfter(events, owner) == State([], map[1 := second])
    requires Asked([], third.socket, owner) == third && second.socket != third.socket
    ensures more == events + [Asks(2, third.socket), Registers(1), Registers(2)]
    ensures StateAfter(more, owner) == State([second, third], map[])
  {
    SmallRooms(second, third);
    OneAsk(State([], map[1 := second]), 2, third, owner);
    more := AppendEvent(events, Asks(2, third.socket), owner);
    assert map[1 := second, 2 := third] - {1} == map[2 := third];
    more := AppendEvent(more, Registers(1), owner);
    assert StateAfter(more, owner) == State([second], map[2 := third]);
    more := AppendEvent(more, Registers(2), owner);
    assert map[2 := third] - {2} == map[];
  }

  lemma BothHaveColors(u: UserId, v: UserId)
    requires u != v && Slot(Fnv(u), 1) == Slot(Fnv(v), 0)
    ensures HasColor([], u) && HasColor([], v) && !Clash([], u, v)
  {
    var none: seq<Entry> := [];
    assert ColorsOf(none) == {} && UsersOf(none) == {};
    assert Palette(0) !in ColorsOf(none);
    EmptyPalette(u);
    EmptyPalette(v);
    SlotAdvances(Fnv(u), 0);
    assert Assigned(u, {}) != Assigned(v, {});
    SameColorIff(u, v, {});
  }

  /** a's user, in the colour of b's, leaves after b has asked; c asks in the empty room and gets what b got. */
  lemma LeaveBetweenAsks(a: SocketId, b: SocketId, c: SocketId, owner: SocketId -> UserId) returns (events: seq<JoinEvent>)
    requires owner(a) != owner(b) && owner(b) != owner(c)
    requires Slot(Fnv(owner(a)), 0) == Slot(Fnv(owner(b)), 0) && Slot(Fnv(owner(b)), 1) == Slot(Fnv(owner(c)), 0)
    ensures events == [Asks(0, a), Registers(0), Asks(1, b), Disconnects(a), Asks(2, c), Registers(1), Registers(2)]
    ensures !Consistent(StateAfter(events, owner).present)
    ensures HasColor([], owner(b)) && HasColor([], owner(c)) && !Clash([], owner(b), owner(c))
  {
    var color := Palette(Slot(Fnv(owner(b)), 1));
    var first := Entry(a, Editor(owner(a), Palette(Slot(Fnv(owner(a)), 0))));
    var second, third := Entry(b, Editor(owner(b), color)), Entry(c, Editor(owner(c), color));
    EmptyRoom(owner(a));
    EmptyRoom(owner(c));
    RoomOfOne(first, owner(b));
    SecondSlot(owner(b));
    events := GoneBeforeRegistered(first, second, owner);
    events := BothRegister(events, second, third, owner);
    var present := StateAfter(events, owner).present;
    assert present == [second, third];
    assert second in present && third in present && !SameUser(second.editor, third.editor);
    BothHaveColors(owner(b), owner(c));
  }

  lemma TripledModulo(x: int, low: int)
    requires x % 16 == low && (low == 0 || low == 11)
    ensures (3 * (x % 16)) % 16 == if low == 0 then 0 else 1
  {
  }

  /** The palette position a one-letter id starts at, by arithmetic. */
  lemma LetterSlot(id: UserId, c: CodeUnit, low: int)
    requires id == [c] && c < 256 && LetterBits(c) % 16 == low && (low == 0 || low == 11)
    ensures Slot(Fnv(id), 0) == if low == 0 then 0 else 1
  {
    var bits := LetterBits(c);
    LetterHash(id, c);
    PrimeMod16(bits);
    TripledModulo(bits, low);
    SlotAdvances(Fnv(id), 0);
  }

  lemma LowLetterBits()
    ensures LetterBits(101) % 16 == LetterBits(117) % 16 == 0 && LetterBits(110) % 16 == 11
  {
    assert TwoBits(2166136261, 101) == 0 && TwoBits(541534065, 25) == 0;
    assert TwoBits(2166136261, 117) == 0 && TwoBits(541534065, 29) == 0;
    assert TwoBits(2166136261, 110) == 3 && TwoBits(541534065, 27) == 2;
  }

  lemma SlotsInARow(h: int)
    requires 0 <= h && Slot(h, 0) == 0
    ensures Slot(h, 1) == 1
  {
    SlotAdvances(h, 0);
  }

  lemma LettersInARow(x: UserId, u: UserId, w: UserId, c: CodeUnit, d: CodeUnit, e: CodeUnit)
    requires x == [c] && u == [d] && w == [e] && c < 256 && d < 256 && e < 256
    requires LetterBits(c) % 16 == LetterBits(d) % 16 == 0 && LetterBits(e) % 16 == 11
    ensures Slot(Fnv(x), 0) == Slot(Fnv(u), 0) && Slot(Fnv(u), 1) == Slot(Fnv(w), 0)
  {
    LetterSlot(x, c, 0);
    LetterSlot(u, d, 0);
    LetterSlot(w, e, 11);
    SlotsInARow(Fnv(u));
  }

  /** "e", "u" and "n" are such users. */
  lemma SuchUsers() returns (x: UserId, u: UserId, w: UserId)
    ensures x != u && u != w
    ensures Slot(Fnv(x), 0) == Slot(Fnv(u), 0) && Slot(Fnv(u), 1) == Slot(Fnv(w), 0)
  {
    var c: CodeUnit, d: CodeUnit, e: CodeUnit := 101, 117, 110;
    x, u, w := [c], [d], [e];
    assert x[0] != u[0] && u[0] != w[0];
    LowLetterBits();
    LettersInARow(x, u, w, c, d, e);
  }
}
