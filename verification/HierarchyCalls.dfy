/**
 * The card service's calls in flight. Between its reads and its one write a call waits, so other calls may write
 * after its checks have passed; the write itself checks nothing.
 *
 * Runs separate every read from the write. What a run keeps is decided at the moment of each write.
 */
module HierarchyCalls {
  import opened Options
  import opened Hierarchy

  type CallId = nat

  /** A call whose first `passed` reads have passed the tests that follow them. */
  datatype Call = Call(op: Op, passed: nat)

  datatype State = State(cards: Cards, calls: map<CallId, Call>)

  /** How many reads of cards come before the write. */
  function Reads(op: Op): nat {
    match op
    case Create(_, under) => if under.None? then 0 else 1
    case Attach(_, _) => 3
    case _ => 1
  }

  /** What the tests right after a read make of it. */
  function ReadOutcome(cs: Cards, op: Op, read: nat): Outcome
    requires read < Reads(op)
  {
    match op
    case Create(_, under) =>
      if !Active(cs, under.value) then NotFound
      else if cs[under.value].parent.Some? then MaxDepth
      else Done
    case Attach(parent, child) =>
      if read == 0 then ParentOutcome(cs, parent)
      else if read == 1 then ChildOutcome(cs, parent, child)
      else if |ActiveSubcards(cs, child)| > 0 then HasSubcards
      else Done
    case Detach(child) =>
      if !Active(cs, child) then NotFound else if cs[child].parent.None? then NoParent else Done
    case Archive(card) => if Active(cs, card) then Done else NotFound
    case Unarchive(card) => if card in cs then Done else NotFound
    case Delete(card) =>
      if card !in cs then NotFound else if cs[card].deleted then AlreadyDeleted else Done
  }

  function ParentOutcome(cs: Cards, parent: Id): Outcome {
    if !Active(cs, parent) then NotFound
    else if cs[parent].parent.Some? then MaxDepth
    else Done
  }

  function ChildOutcome(cs: Cards, parent: Id, child: Id): Outcome {
    if !Active(cs, child) then NotFound
    else if child == parent then Cycle
    else if cs[child].parent.Some? then AlreadyHasParent
    else Done
  }

  /** An update of a row that does not exist throws; no call gets that far. */
  function Write(cs: Cards, op: Op): Cards {
    if Writable(cs, op) then Written(cs, op) else cs
  }

  /** A call's state after one resumption, with its outcome once it has ended. */
  datatype Step = Step(state: State, outcome: Option<Outcome>)

  predicate Ready(s: State, call: CallId) {
    call in s.calls && s.calls[call].passed >= Reads(s.calls[call].op)
  }

  /** From one await to the next. */
  function Resumed(s: State, call: CallId): Step
    requires call in s.calls
  {
    var op := s.calls[call].op;
    var read := s.calls[call].passed;
    if Ready(s, call) then Step(State(Write(s.cards, op), s.calls - {call}), Some(Done))
    else if ReadOutcome(s.cards, op, read) == Done then Step(State(s.cards, s.calls[call := Call(op, read + 1)]), None)
    else Step(State(s.cards, s.calls - {call}), Some(ReadOutcome(s.cards, op, read)))
  }

  // ---- The service ----

  class CardService {
    var cards: Cards
    var calls: map<CallId, Call>

    ghost function Now(): State
      reads this
    {
      State(cards, calls)
    }

    constructor ()
      ensures Now() == START
    {
      cards, calls := map[], map[];
    }

    /** A request arrives. */
    method Begin(call: CallId, op: Op)
      requires call !in calls
      modifies this
      ensures Now() == Next(old(Now()), Event.Begin(call, op))
    {
      calls := calls[call := Call(op, 0)];
    }

    method EndCall(call: CallId)
      modifies this`calls
      ensures calls == old(calls) - {call}
    {
      calls := calls - {call};
    }

    /** Both ways of creating a card under a parent: as a new card of a list and as a subcard. */
    method ResumeCreate(call: CallId) returns (o: Option<Outcome>)
      requires Sound(Now()) && call in calls && calls[call].op.Create?
      requires Fresh(Now(), Resume(call))
      modifies this
      ensures Step(Now(), o) == Resumed(old(Now()), call) && Sound(Now())
      ensures Forest(old(cards)) ==> Forest(cards)
      ensures Shallow(old(cards)) ==> (Shallow(cards) <==> !DeepensNow(old(Now()), Resume(call)))
    {
      NextKeeps(Now(), Resume(call));
      var op := calls[call].op;
      if calls[call].passed == 0 && op.under.Some? {
        var parentId := op.under.value;
        if !Active(cards, parentId) {
          EndCall(call);
          return Some(NotFound);
        }
        if cards[parentId].parent.Some? {
          EndCall(call);
          return Some(MaxDepth);
        }
        calls := calls[call := Call(op, 1)];
        return None;
      }
      cards := cards[op.id := Card(op.under, false, false)];
      EndCall(call);
      return Some(Done);
    }

    method ResumeAttach(call: CallId) returns (o: Option<Outcome>)
      requires Sound(Now()) && call in calls && calls[call].op.Attach?
      modifies this
      ensures Step(Now(), o) == Resumed(old(Now()), call) && Sound(Now())
      ensures Forest(old(cards)) ==> (Forest(cards) <==> !ClosesCycleNow(old(Now()), Resume(call)))
      ensures Shallow(old(cards)) ==> (Shallow(cards) <==> !DeepensNow(old(Now()), Resume(call)))
    {
      NextKeeps(Now(), Resume(call));
      var op := calls[call].op;
      match calls[call].passed
      case 0 =>
        if !Active(cards, op.parent) {
          EndCall(call);
          return Some(NotFound);
        }
        if cards[op.parent].parent.Some? {
          EndCall(call);
          return Some(MaxDepth);
        }
        calls := calls[call := Call(op, 1)];
        return None;
      case 1 =>
        if !Active(cards, op.child) {
          EndCall(call);
          return Some(NotFound);
        }
        if op.child == op.parent {
          EndCall(call);
          return Some(Cycle);
        }
        if cards[op.child].parent.Some? {
          EndCall(call);
          return Some(AlreadyHasParent);
        }
        calls := calls[call := Call(op, 2)];
        return None;
      case 2 =>
        var subcardCount := |ActiveSubcards(cards, op.child)|;
        if subcardCount > 0 {
          EndCall(call);
          return Some(HasSubcards);
        }
        calls := calls[call := Call(op, 3)];
        return None;
      case _ =>
        cards := cards[op.child := cards[op.child].(parent := Some(op.parent))];
        EndCall(call);
        return Some(Done);
    }

    method ResumeDetach(call: CallId) returns (o: Option<Outcome>)
      requires Sound(Now()) && call in calls && calls[call].op.Detach?
      modifies this
      ensures Step(Now(), o) == Resumed(old(Now()), call) && Sound(Now())
      ensures Forest(old(cards)) ==> Forest(cards)
      ensures Shallow(old(cards)) ==> Shallow(cards)
    {
      NextKeeps(Now(), Resume(call));
      var op := calls[call].op;
      if calls[call].passed == 0 {
        if !Active(cards, op.child) {
          EndCall(call);
          return Some(NotFound);
        }
        if cards[op.child].parent.None? {
          EndCall(call);
          return Some(NoParent);
        }
        calls := calls[call := Call(op, 1)];
        return None;
      }
      cards := cards[op.child := cards[op.child].(parent := None)];
      EndCall(call);
      return Some(Done);
    }

    method ResumeArchive(call: CallId) returns (o: Option<Outcome>)
      requires Sound(Now()) && call in calls && calls[call].op.Archive?
      modifies this
      ensures Step(Now(), o) == Resumed(old(Now()), call) && Sound(Now())
      ensures Forest(old(cards)) ==> Forest(cards)
      ensures Shallow(old(cards)) ==> Shallow(cards)
    {
      NextKeeps(Now(), Resume(call));
      var op := calls[call].op;
      if calls[call].passed == 0 {
        if !Active(cards, op.card) {
          EndCall(call);
          return Some(NotFound);
        }
        calls := calls[call := Call(op, 1)];
        return None;
      }
      cards := cards[op.card := cards[op.card].(archived := true)];
      EndCall(call);
      return Some(Done);
    }

    method ResumeUnarchive(call: CallId) returns (o: Option<Outcome>)
      requires Sound(Now()) && call in calls && calls[call].op.Unarchive?
      modifies this
      ensures Step(Now(), o) == Resumed(old(Now()), call) && Sound(Now())
      ensures Forest(old(cards)) ==> Forest(cards)
      ensures Shallow(old(cards)) ==> (Shallow(cards) <==> !DeepensNow(old(Now()), Resume(call)))
    {
      NextKeeps(Now(), Resume(call));
      var op := calls[call].op;
      if calls[call].passed == 0 {
        if op.card !in cards {
          EndCall(call);
          return Some(NotFound);
        }
        calls := calls[call := Call(op, 1)];
        return None;
      }
      cards := cards[op.card := cards[op.card].(archived := false)];
      EndCall(call);
      return Some(Done);
    }

    method ResumeDelete(call: CallId) returns (o: Option<Outcome>)
      requires Sound(Now()) && call in calls && calls[call].op.Delete?
      modifies this
      ensures Step(Now(), o) == Resumed(old(Now()), call) && Sound(Now())
      ensures Forest(old(cards)) ==> Forest(cards)
      ensures Shallow(old(cards)) ==> Shallow(cards)
    {
      NextKeeps(Now(), Resume(call));
      var op := calls[call].op;
      if calls[call].passed == 0 {
        if op.card !in cards {
          EndCall(call);
          return Some(NotFound);
        }
        if cards[op.card].deleted {
          EndCall(call);
          return Some(AlreadyDeleted);
        }
        calls := calls[call := Call(op, 1)];
        return None;
      }
      cards := cards[op.card := cards[op.card].(deleted := true)];
      EndCall(call);
      return Some(Done);
    }
  }

  // ---- A call that nothing interrupts ----

  /** The reads from `read` on, all in one state. */
  function FirstRefusal(cs: Cards, op: Op, read: nat): Outcome
    decreases Reads(op) - read
  {
    if read >= Reads(op) then Done
    else if ReadOutcome(cs, op, read) != Done then ReadOutcome(cs, op, read)
    else FirstRefusal(cs, op, read + 1)
  }

  lemma CheckIsFirstRefusal(cs: Cards, op: Op)
    ensures Check(cs, op) == FirstRefusal(cs, op, 0)
  {
    if op.Attach? {
      assert FirstRefusal(cs, op, 3) == Done;
      assert FirstRefusal(cs, op, 2) == ReadOutcome(cs, op, 2);
    } else if Reads(op) > 0 {
      assert FirstRefusal(cs, op, 1) == Done;
    }
  }

  /** The call is resumed until it ends. */
  function Finished(s: State, call: CallId): Step
    requires call in s.calls
    decreases Reads(s.calls[call].op) - s.calls[call].passed
  {
    var step := Resumed(s, call);
    if step.outcome.Some? then step else Finished(step.state, call)
  }

  lemma {:induction false} FinishedIs(s: State, call: CallId)
    requires call in s.calls
    ensures var op, read := s.calls[call].op, s.calls[call].passed;
      var o := FirstRefusal(s.cards, op, read);
      Finished(s, call) == Step(State(if o == Done then Write(s.cards, op) else s.cards, s.calls - {call}), Some(o))
    decreases Reads(s.calls[call].op) - s.calls[call].passed
  {
    var step := Resumed(s, call);
    if step.outcome.None? {
      FinishedIs(step.state, call);
      assert step.state.calls - {call} == s.calls - {call};
    }
  }

  /** A call that nothing interrupts is the one-step operation. */
  lemma UninterruptedIsOneStep(s: State, call: CallId, op: Op)
    requires call !in s.calls
    ensures Finished(Next(s, Begin(call, op)), call) == Step(State(After(s.cards, op), s.calls), Some(Check(s.cards, op)))
  {
    var begun := Next(s, Begin(call, op));
    FinishedIs(begun, call);
    CheckIsFirstRefusal(s.cards, op);
    assert begun.calls - {call} == s.calls;
    if Check(s.cards, op) == Done {
      CheckedIsWritable(s.cards, op);
    }
  }

  // ---- Runs ----

  datatype Event = Begin(call: CallId, op: Op) | Resume(call: CallId)

  const START: State := State(map[], map[])

  function Next(s: State, e: Event): State {
    match e
    case Begin(call, op) => if call in s.calls then s else State(s.cards, s.calls[call := Call(op, 0)])
    case Resume(call) => if call in s.calls then Resumed(s, call).state else s
  }

  function StateAfter(events: seq<Event>): State {
    if events == [] then START else Next(StateAfter(events[..|events| - 1]), events[|events| - 1])
  }

  /** The event is the write of its call. */
  predicate Writes(s: State, e: Event) {
    e.Resume? && Ready(s, e.call)
  }

  /** A created card gets an id the database has never handed out. */
  predicate Fresh(s: State, e: Event) {
    Writes(s, e) ==> FreshId(s.cards, s.calls[e.call].op)
  }

  ghost predicate FreshEvents(events: seq<Event>) {
    events != [] ==>
      FreshEvents(events[..|events| - 1]) && Fresh(StateAfter(events[..|events| - 1]), events[|events| - 1])
  }

  ghost predicate ClosesCycleNow(s: State, e: Event) {
    Writes(s, e) && ClosesCycle(s.cards, s.calls[e.call].op)
  }

  ghost predicate DeepensNow(s: State, e: Event) {
    Writes(s, e) && Deepens(s.cards, s.calls[e.call].op)
  }

  /** The rows a call has read exist. */
  ghost predicate ReadRowsExist(cs: Cards, call: Call) {
    match call.op
    case Create(_, under) => call.passed > 0 && under.Some? ==> under.value in cs
    case Attach(parent, child) => (call.passed > 0 ==> parent in cs) && (call.passed > 1 ==> child in cs)
    case Detach(child) => call.passed > 0 ==> child in cs
    case Archive(card) => call.passed > 0 ==> card in cs
    case Unarchive(card) => call.passed > 0 ==> card in cs
    case Delete(card) => call.passed > 0 ==> card in cs
  }

  /** Every parent exists, and so does every row that a call under way has read. */
  ghost predicate Sound(s: State) {
    && Closed(s.cards)
    && forall c :: c in s.calls ==> s.calls[c].passed <= Reads(s.calls[c].op) && ReadRowsExist(s.cards, s.calls[c])
  }

  lemma WriteKeepsRows(cs: Cards, op: Op)
    ensures cs.Keys <= Write(cs, op).Keys
    ensures Closed(cs) ==> Closed(Write(cs, op))
  {
    var after := Write(cs, op);
    if Closed(cs) {
      forall x: Id, p: Id | Up(after, x, p)
        ensures p in after
      {
        assert Up(cs, x, p) || p in cs;
      }
    }
  }

  /** What one event keeps, exactly. */
  lemma NextKeeps(s: State, e: Event)
    requires Sound(s) && Fresh(s, e)
    ensures Sound(Next(s, e))
    ensures Forest(s.cards) ==> (Forest(Next(s, e).cards) <==> !ClosesCycleNow(s, e))
    ensures Shallow(s.cards) ==> (Shallow(Next(s, e).cards) <==> !DeepensNow(s, e))
  {
    if Writes(s, e) {
      var op := s.calls[e.call].op;
      assert Writable(s.cards, op);
      WriteKeepsRows(s.cards, op);
      if Forest(s.cards) {
        WriteKeepsForestIff(s.cards, op);
      }
      if Shallow(s.cards) {
        WriteKeepsShallowIff(s.cards, op);
      }
    }
  }

  lemma {:induction false} RunIsSound(events: seq<Event>)
    requires FreshEvents(events)
    ensures Sound(StateAfter(events))
  {
    if events != [] {
      RunIsSound(events[..|events| - 1]);
      NextKeeps(StateAfter(events[..|events| - 1]), events[|events| - 1]);
    }
  }

  /** No state of the run, the last one included, has a cycle. */
  ghost predicate AlwaysForest(events: seq<Event>) {
    Forest(StateAfter(events).cards) && (events != [] ==> AlwaysForest(events[..|events| - 1]))
  }

  ghost predicate NoWriteCloses(events: seq<Event>) {
    events != [] ==>
      && NoWriteCloses(events[..|events| - 1])
      && !ClosesCycleNow(StateAfter(events[..|events| - 1]), events[|events| - 1])
  }

  /** However the calls interleave: never a cycle exactly when no write, at its moment, hangs a card above itself. */
  lemma {:induction false} AlwaysForestIff(events: seq<Event>)
    requires FreshEvents(events)
    ensures AlwaysForest(events) <==> NoWriteCloses(events)
  {
    if events == [] {
      EmptyForest();
    } else {
      var init := events[..|events| - 1];
      AlwaysForestIff(init);
      RunIsSound(init);
      NextKeeps(StateAfter(init), events[|events| - 1]);
    }
  }

  /** No state of the run has three active cards in a row. */
  ghost predicate AlwaysShallow(events: seq<Event>) {
    Shallow(StateAfter(events).cards) && (events != [] ==> AlwaysShallow(events[..|events| - 1]))
  }

  ghost predicate NoWriteDeepens(events: seq<Event>) {
    events != [] ==>
      && NoWriteDeepens(events[..|events| - 1])
      && !DeepensNow(StateAfter(events[..|events| - 1]), events[|events| - 1])
  }

  /** However the calls interleave: the limit holds throughout exactly when no write, at its moment, makes three in a row. */
  lemma {:induction false} AlwaysShallowIff(events: seq<Event>)
    requires FreshEvents(events)
    ensures AlwaysShallow(events) <==> NoWriteDeepens(events)
  {
    if events != [] {
      var init := events[..|events| - 1];
      AlwaysShallowIff(init);
      RunIsSound(init);
      NextKeeps(StateAfter(init), events[|events| - 1]);
    }
  }

  // ---- Two calls whose checks overlap ----

  /** Two attachments that are both checked before either is written. */
  function Overlapped(cs: Cards, p: Id, c: Id, q: Id, d: Id): Cards
    requires CheckAttach(cs, p, c) == Done && CheckAttach(cs, q, d) == Done
  {
    Reparented(Reparented(cs, c, Some(p)), d, Some(q))
  }

  lemma HangUnderRoot(cs: Cards, c: Id, p: Id)
    requires Forest(cs) && c in cs && p in cs && c != p && cs[p].parent == None
    ensures Forest(Reparented(cs, c, Some(p)))
  {
    forall n: nat
      ensures Ancestor(cs, p, n) != Some(c)
    {
      NothingAbove(cs, p, n);
    }
    HangingKeepsForestIff(cs, c, p);
  }

  /** They close a cycle exactly when each hangs the other's parent. */
  lemma OverlappedIsForestIff(cs: Cards, p: Id, c: Id, q: Id, d: Id)
    requires Forest(cs) && CheckAttach(cs, p, c) == Done && CheckAttach(cs, q, d) == Done
    ensures Forest(Overlapped(cs, p, c, q, d)) <==> !(c == q && d == p)
  {
    HangUnderRoot(cs, c, p);
    var first := Reparented(cs, c, Some(p));
    if c == q && d == p {
      assert Ancestor(first, c, 0) == Some(c);
      OneStepUp(first, c, c, p, 1);
      HangingKeepsForestIff(first, d, q);
    } else if q != c {
      HangUnderRoot(first, d, q);
    } else {
      HangUnderRoot(cs, d, q);
      HangUnderRoot(Reparented(cs, d, Some(q)), c, p);
      assert Overlapped(cs, p, c, q, d) == Reparented(Reparented(cs, d, Some(q)), c, Some(p));
    }
  }

  /** They make three in a row exactly when one hangs the other's parent. */
  lemma OverlappedIsShallowIff(cs: Cards, p: Id, c: Id, q: Id, d: Id)
    requires Shallow(cs) && CheckAttach(cs, p, c) == Done && CheckAttach(cs, q, d) == Done
    ensures Shallow(Overlapped(cs, p, c, q, d)) <==> c != q && d != p
  {
    var first := Reparented(cs, c, Some(p));
    CheckedDeepensNot(cs, Attach(p, c));
    HangingKeepsShallowIff(cs, c, p);
    HangingKeepsShallowIff(first, d, q);
    NoActiveSubcards(cs, d);
    if c == q {
      assert Up(first, q, p) && Active(first, p);
    } else if d == p {
      assert Active(first, c) && Up(first, c, d);
    } else {
      forall x: Id
        ensures !(Active(first, x) && Up(first, x, d))
      {
        assert !(Active(cs, x) && Up(cs, x, d));
      }
    }
  }

  /** A subcard created while its parent is attached elsewhere: three in a row exactly when the two are the same card. */
  lemma CreatedWhileAttachedIff(cs: Cards, id: Id, p: Id, q: Id, d: Id)
    requires Shallow(cs) && Closed(cs) && id !in cs
    requires Check(cs, Create(id, Some(p))) == Done && CheckAttach(cs, q, d) == Done
    ensures Shallow(Written(Reparented(cs, d, Some(q)), Create(id, Some(p)))) <==> p != d
  {
    var first := Reparented(cs, d, Some(q));
    CheckedDeepensNot(cs, Attach(q, d));
    HangingKeepsShallowIff(cs, d, q);
    WriteKeepsRows(cs, Attach(q, d));
    CreateKeepsShallowIff(first, id, Some(p));
    if p == d {
      assert Up(first, p, q) && Active(first, q);
    }
  }

  // ---- Any checked operations can overlap ----

  /** The writes of `ops`, in order. */
  function WrittenAll(cs: Cards, ops: seq<Op>): Cards {
    if ops == [] then cs else Write(WrittenAll(cs, ops[..|ops| - 1]), ops[|ops| - 1])
  }

  ghost predicate FreshWrites(cs: Cards, ops: seq<Op>) {
    ops != [] ==> FreshWrites(cs, ops[..|ops| - 1]) && FreshId(WrittenAll(cs, ops[..|ops| - 1]), ops[|ops| - 1])
  }

  /** The events that start a call or let one go on, none of them starting a restore. */
  ghost predicate NoRestoreBegins(events: seq<Event>) {
    forall e :: e in events && e.Begin? ==> !e.op.Unarchive?
  }

  lemma OneEventMore(events: seq<Event>, e: Event)
    requires FreshEvents(events) && Fresh(StateAfter(events), e)
    ensures FreshEvents(events + [e]) && StateAfter(events + [e]) == Next(StateAfter(events), e)
    ensures NoRestoreBegins(events) && (e.Begin? ==> !e.op.Unarchive?) ==> NoRestoreBegins(events + [e])
  {
    assert (events + [e])[..|events|] == events;
  }

  /** A checked operation's call can pass all its reads and wait before its write. */
  lemma {:induction false} ReadsPass(events: seq<Event>, call: CallId, op: Op, n: nat) returns (more: seq<Event>)
    requires FreshEvents(events) && call !in StateAfter(events).calls
    requires Check(StateAfter(events).cards, op) == Done && n <= Reads(op)
    ensures FreshEvents(more)
    ensures var s := StateAfter(events); StateAfter(more) == State(s.cards, s.calls[call := Call(op, n)])
    ensures NoRestoreBegins(events) && !op.Unarchive? ==> NoRestoreBegins(more)
  {
    if n == 0 {
      OneEventMore(events, Begin(call, op));
      more := events + [Begin(call, op)];
    } else {
      var before := ReadsPass(events, call, op, n - 1);
      assert ReadOutcome(StateAfter(events).cards, op, n - 1) == Done;
      OneEventMore(before, Resume(call));
      more := before + [Resume(call)];
    }
  }

  /** The calls of `ops`, each with all its reads behind it, from number `first` on. */
  function Waiting(ops: seq<Op>, first: nat): map<CallId, Call> {
    map i: nat | first <= i < |ops| :: Call(ops[i], Reads(ops[i]))
  }

  lemma {:induction false} AllReadsPass(events: seq<Event>, ops: seq<Op>) returns (more: seq<Event>)
    requires FreshEvents(events) && StateAfter(events).calls == map[]
    requires forall op :: op in ops ==> Check(StateAfter(events).cards, op) == Done
    ensures FreshEvents(more) && StateAfter(more) == State(StateAfter(events).cards, Waiting(ops, 0))
    ensures NoRestoreBegins(events) && (forall op :: op in ops ==> !op.Unarchive?) ==> NoRestoreBegins(more)
  {
    if ops == [] {
      more := events;
    } else {
      var n: nat := |ops| - 1;
      var op := ops[n];
      var before := AllReadsPass(events, ops[..n]);
      more := ReadsPass(before, n, op, Reads(op));
      assert Waiting(ops, 0) == Waiting(ops[..n], 0)[n := Call(op, Reads(op))];
    }
  }

  lemma OneWriteMore(cs: Cards, ops: seq<Op>, n: nat)
    requires 0 < n <= |ops|
    ensures WrittenAll(cs, ops[..n]) == Write(WrittenAll(cs, ops[..n - 1]), ops[n - 1])
    ensures FreshWrites(cs, ops[..n]) <==>
      FreshWrites(cs, ops[..n - 1]) && FreshId(WrittenAll(cs, ops[..n - 1]), ops[n - 1])
  {
    assert ops[..n][..n - 1] == ops[..n - 1];
  }

  lemma NextWaitingWrites(cs: Cards, ops: seq<Op>, m: nat)
    requires m < |ops|
    ensures Next(State(cs, Waiting(ops, m)), Resume(m)) == State(Write(cs, ops[m]), Waiting(ops, m + 1))
    ensures FreshId(cs, ops[m]) ==> Fresh(State(cs, Waiting(ops, m)), Resume(m))
  {
    assert Waiting(ops, m) - {m} == Waiting(ops, m + 1);
  }

  lemma {:induction false} AllWritten(events: seq<Event>, ops: seq<Op>, cs: Cards, n: nat) returns (more: seq<Event>)
    requires FreshEvents(events) && StateAfter(events) == State(cs, Waiting(ops, 0))
    requires n <= |ops| && FreshWrites(cs, ops[..n])
    ensures FreshEvents(more) && StateAfter(more) == State(WrittenAll(cs, ops[..n]), Waiting(ops, n))
    ensures NoRestoreBegins(events) ==> NoRestoreBegins(more)
  {
    if n == 0 {
      more := events;
    } else {
      var m: nat := n - 1;
      OneWriteMore(cs, ops, n);
      var before := AllWritten(events, ops, cs, m);
      NextWaitingWrites(WrittenAll(cs, ops[..m]), ops, m);
      OneEventMore(before, Resume(m));
      more := before + [Resume(m)];
    }
  }

  /** Operations that all pass their checks in one state can all be written after it, in any order they are listed in. */
  lemma OverlapIsReachable(events: seq<Event>, ops: seq<Op>) returns (more: seq<Event>)
    requires FreshEvents(events) && StateAfter(events).calls == map[]
    requires forall op :: op in ops ==> Check(StateAfter(events).cards, op) == Done
    requires FreshWrites(StateAfter(events).cards, ops)
    ensures FreshEvents(more) && StateAfter(more) == State(WrittenAll(StateAfter(events).cards, ops), map[])
    ensures NoRestoreBegins(events) && (forall op :: op in ops ==> !op.Unarchive?) ==> NoRestoreBegins(more)
  {
    var read := AllReadsPass(events, ops);
    assert ops[..|ops|] == ops;
    more := AllWritten(read, ops, StateAfter(events).cards, |ops|);
    assert Waiting(ops, |ops|) == map[];
  }

  // ---- What overlapping calls reach ----

  const FRESH_CARD: Card := Card(None, false, false)

  const THREE_CARDS: Cards := map[0 := FRESH_CARD, 1 := FRESH_CARD, 2 := FRESH_CARD]

  lemma ThreeCards() returns (events: seq<Event>)
    ensures FreshEvents(events) && NoRestoreBegins(events) && StateAfter(events) == State(THREE_CARDS, map[])
  {
    var ops := [Create(0, None), Create(1, None), Create(2, None)];
    WritesOfThree(map[], Create(0, None), Create(1, None), Create(2, None));
    events := OverlapIsReachable([], ops);
  }

  lemma WritesOfThree(cs: Cards, a: Op, b: Op, c: Op)
    ensures WrittenAll(cs, [a, b, c]) == Write(Write(Write(cs, a), b), c)
    ensures WrittenAll(cs, [a, b]) == Write(Write(cs, a), b)
    ensures FreshId(cs, a) && FreshId(Write(cs, a), b) ==> FreshWrites(cs, [a, b])
    ensures FreshWrites(cs, [a, b]) && FreshId(Write(Write(cs, a), b), c) ==> FreshWrites(cs, [a, b, c])
  {
    assert [a][..0] == [];
    assert [a, b][..1] == [a];
    assert [a, b, c][..2] == [a, b];
    assert WrittenAll(cs, [a]) == Write(WrittenAll(cs, []), a);
    assert FreshWrites(cs, []) && (FreshWrites(cs, [a]) <==> FreshId(cs, a));
  }

  lemma FreshCardsAttach(p: Id, c: Id)
    requires p < 3 && c < 3 && p != c
    ensures Check(THREE_CARDS, Attach(p, c)) == Done
  {
    assert ActiveSubcards(THREE_CARDS, c) == {};
  }

  lemma ThreeCardsAreFine()
    ensures Forest(THREE_CARDS) && Shallow(THREE_CARDS) && Closed(THREE_CARDS)
  {
    var flat: map<Id, nat> := map[0 := 0, 1 := 0, 2 := 0];
    assert Ranked(THREE_CARDS, flat);
  }

  /** Three fresh cards, 1 attached under 0 while 2 is attached under 1: a chain of three, and nothing was restored. */
  lemma OverlapReachesThreeLevels() returns (events: seq<Event>)
    ensures FreshEvents(events) && NoRestoreBegins(events) && !Shallow(StateAfter(events).cards)
  {
    var base := ThreeCards();
    var a, b := Attach(0, 1), Attach(1, 2);
    FreshCardsAttach(0, 1);
    FreshCardsAttach(1, 2);
    WritesOfThree(THREE_CARDS, a, b, b);
    events := OverlapIsReachable(base, [a, b]);
    ThreeCardsAreFine();
    OverlappedIsShallowIff(THREE_CARDS, 0, 1, 1, 2);
  }

  /** 1 attached under 0 while a subcard of 1 is created. */
  lemma CreateReachesThreeLevels() returns (events: seq<Event>)
    ensures FreshEvents(events) && NoRestoreBegins(events) && !Shallow(StateAfter(events).cards)
  {
    var base := ThreeCards();
    var a, b := Attach(0, 1), Create(3, Some(1));
    FreshCardsAttach(0, 1);
    WritesOfThree(THREE_CARDS, a, b, b);
    events := OverlapIsReachable(base, [a, b]);
    ThreeCardsAreFine();
    CreatedWhileAttachedIff(THREE_CARDS, 3, 1, 0, 1);
  }

  /** Two fresh cards, each attached under the other at the same moment. */
  lemma OverlapClosesACycle() returns (events: seq<Event>)
    ensures FreshEvents(events) && !Forest(StateAfter(events).cards)
  {
    var base := ThreeCards();
    var a, b := Attach(0, 1), Attach(1, 0);
    FreshCardsAttach(0, 1);
    FreshCardsAttach(1, 0);
    WritesOfThree(THREE_CARDS, a, b, b);
    events := OverlapIsReachable(base, [a, b]);
    ThreeCardsAreFine();
    OverlappedIsForestIff(THREE_CARDS, 0, 1, 1, 0);
  }

  /** Three attachments, 0 under 1, 1 under 2 and 2 under 0: every two of them leave a forest, all three do not. */
  lemma ThreeOverlapsCloseACycle() returns (events: seq<Event>)
    ensures FreshEvents(events) && !Forest(StateAfter(events).cards)
    ensures StateAfter(events).cards == WrittenAll(THREE_CARDS, [Attach(1, 0), Attach(2, 1), Attach(0, 2)])
    ensures Forest(WrittenAll(THREE_CARDS, [Attach(1, 0), Attach(2, 1)]))
    ensures Forest(WrittenAll(THREE_CARDS, [Attach(1, 0), Attach(0, 2)]))
    ensures Forest(WrittenAll(THREE_CARDS, [Attach(2, 1), Attach(0, 2)]))
  {
    var base := ThreeCards();
    var a, b, c := Attach(1, 0), Attach(2, 1), Attach(0, 2);
    FreshCardsAttach(1, 0);
    FreshCardsAttach(2, 1);
    FreshCardsAttach(0, 2);
    WritesOfThree(THREE_CARDS, a, b, c);
    WritesOfThree(THREE_CARDS, a, c, c);
    WritesOfThree(THREE_CARDS, b, c, c);
    ThreeCardsAreFine();
    OverlappedIsForestIff(THREE_CARDS, 1, 0, 2, 1);
    OverlappedIsForestIff(THREE_CARDS, 1, 0, 0, 2);
    OverlappedIsForestIff(THREE_CARDS, 2, 1, 0, 2);
    events := OverlapIsReachable(base, [a, b, c]);
    var two := Overlapped(THREE_CARDS, 1, 0, 2, 1);
    assert Ancestor(two, 0, 0) == Some(0);
    OneStepUp(two, 0, 0, 1, 1);
    OneStepUp(two, 0, 1, 2, 2);
    HangingKeepsForestIff(two, 2, 0);
  }
}
