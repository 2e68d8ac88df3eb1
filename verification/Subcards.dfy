/**
 The optimistic subcard list: creates that are shown before the server answers,
 reverts, attaches, detaches, toggles and reloads, with a cached rollup.
 */
module Subcards {
  import opened Options

  type Id = string

  datatype Status = Unset | NotStarted | Active | Done | Closed

  datatype Card = Card(id: Id, title: string, isComplete: bool, isCompleted: bool, status: Status)

  datatype Rollup = Rollup(total: nat, completed: nat)

  /** A server answer may come without a rollup. */
  datatype Data = Data(subcards: seq<Card>, rollup: Option<Rollup>)

  // ----- Counting

  /** The test every updater counts with, and the one the display falls back to. */
  predicate CountsAsDone(c: Card) {
    c.isComplete || c.status == Done
  }

  predicate ShownAsDone(c: Card) {
    c.isComplete || c.isCompleted
  }

  function Count(test: Card -> bool, rows: seq<Card>): nat {
    if rows == [] then 0 else (if test(rows[0]) then 1 else 0) + Count(test, rows[1..])
  }

  function Counted(rows: seq<Card>): Rollup {
    Rollup(|rows|, Count(CountsAsDone, rows))
  }

  // ----- Updaters

  function Without(rows: seq<Card>, id: Id): seq<Card> {
    if rows == [] then []
    else if rows[0].id == id then Without(rows[1..], id)
    else [rows[0]] + Without(rows[1..], id)
  }

  function Mapped(f: Card -> Card, rows: seq<Card>): (r: seq<Card>)
    ensures |r| == |rows|
  {
    if rows == [] then [] else [f(rows[0])] + Mapped(f, rows[1..])
  }

  function Swap(id: Id, replacement: Card): Card -> Card {
    (c: Card) => if c.id == id then replacement else c
  }

  function Marked(id: Id, done: bool): Card -> Card {
    (c: Card) =>
      if c.id == id then c.(isComplete := done, isCompleted := done, status := if done then Done else NotStarted)
      else c
  }

  function Recounted(rows: seq<Card>): Option<Data> {
    Some(Data(rows, Some(Counted(rows))))
  }

  function TempRow(tempId: Id, title: string): Card {
    Card(tempId, title, false, false, NotStarted)
  }

  function Rows(data: Option<Data>): seq<Card> {
    if data.Some? then data.value.subcards else []
  }

  datatype Event =
    | Create(tempId: Id, title: string)
    | Succeed(tempId: Id, card: Card)
    | Fail(tempId: Id)
    | Attach(card: Card)
    | Detach(id: Id)
    | Toggle(row: Card)
    | Load(data: Data)

  function Apply(data: Option<Data>, e: Event): Option<Data> {
    match e
    case Create(t, title) => Recounted(Rows(data) + [TempRow(t, title)])
    case Attach(card) => Recounted(Rows(data) + [card])
    case Load(d) => Some(d)
    case Succeed(t, card) =>
      if data.None? then None else Some(data.value.(subcards := Mapped(Swap(t, card), data.value.subcards)))
    case Fail(t) => if data.None? then None else Recounted(Without(data.value.subcards, t))
    case Detach(id) => if data.None? then None else Recounted(Without(data.value.subcards, id))
    case Toggle(row) =>
      if data.None? then None
      else Recounted(Mapped(Marked(row.id, !row.isComplete && !row.isCompleted), data.value.subcards))
  }

  function Run(data: Option<Data>, events: seq<Event>): Option<Data>
    decreases |events|
  {
    if events == [] then data else Run(Apply(data, events[0]), events[1..])
  }

  /** The rows and the rollup on screen. */
  function Displayed(data: Option<Data>): (seq<Card>, Rollup) {
    var rows := Rows(data);
    (rows,
     if data.Some? && data.value.rollup.Some? then data.value.rollup.value
     else Rollup(|rows|, Count(ShownAsDone, rows)))
  }

  // ----- The component, in the source's form

  datatype Answer = Created(card: Card) | Refused | Threw

  /** What the updaters keep, said once for all of them. */
  lemma UpdaterKeeps(data: Option<Data>, e: Event)
    ensures Agrees(data) && Honest(data, e) ==> Agrees(Apply(data, e))
    ensures e.Detach? ==> forall c :: c in Rows(Apply(data, e)) ==> c.id != e.id
    ensures e.Fail? ==> forall c :: c in Rows(Apply(data, e)) ==> c.id != e.tempId
  {
    if Agrees(data) && Honest(data, e) {
      StepAgrees(data, e);
    }
    if data.Some? && (e.Detach? || e.Fail?) {
      WithoutTwice(data.value.subcards, if e.Detach? then e.id else e.tempId);
    }
  }

  // ----- What the updaters do to the rows, row by row

  lemma {:induction false} MappedAt(f: Card -> Card, rows: seq<Card>, k: nat)
    requires k < |rows|
    ensures Mapped(f, rows)[k] == f(rows[k])
  {
    if k > 0 {
      MappedAt(f, rows[1..], k - 1);
    }
  }

  /** The row is done or not done by every flag it has. */
  predicate Ticked(c: Card, done: bool) {
    c.isComplete == done && c.isCompleted == done && c.status == if done then Done else NotStarted
  }

  /** Every row in its place: those with the clicked id turn to the opposite of the clicked row, the others stay. */
  ghost predicate Toggled(before: seq<Card>, clicked: Card, after: seq<Card>) {
    && |after| == |before|
    && forall k :: 0 <= k < |before| ==>
         if before[k].id != clicked.id then after[k] == before[k]
         else && after[k].id == before[k].id && after[k].title == before[k].title
              && Ticked(after[k], !(clicked.isComplete || clicked.isCompleted))
  }

  lemma ToggleTurnsRows(data: Option<Data>, clicked: Card)
    ensures Toggled(Rows(data), clicked, Rows(Apply(data, Toggle(clicked))))
  {
    forall k | 0 <= k < |Rows(data)| {
      MappedAt(Marked(clicked.id, !clicked.isComplete && !clicked.isCompleted), Rows(data), k);
    }
  }

  /** Clicking a row and then clicking it again as it is shown: the second click undoes the first. */
  lemma ToggleTwice(data: Option<Data>, k: nat)
    requires k < |Rows(data)|
    ensures var once := Apply(data, Toggle(Rows(data)[k]));
      && k < |Rows(once)|
      && ShownAsDone(Rows(once)[k]) == !ShownAsDone(Rows(data)[k])
      && var twice := Apply(once, Toggle(Rows(once)[k]));
         && |Rows(twice)| == |Rows(data)|
         && Ticked(Rows(twice)[k], ShownAsDone(Rows(data)[k]))
         && forall j :: 0 <= j < |Rows(data)| && Rows(data)[j].id != Rows(data)[k].id ==> Rows(twice)[j] == Rows(data)[j]
  {
    var once := Apply(data, Toggle(Rows(data)[k]));
    ToggleTurnsRows(data, Rows(data)[k]);
    ToggleTurnsRows(once, Rows(once)[k]);
  }

  /** Every row in its place: those with the temporary id become the server's card, the others stay. */
  lemma SuccessSwapsRows(data: Option<Data>, tempId: Id, card: Card)
    ensures var after := Rows(Apply(data, Succeed(tempId, card)));
      && |after| == |Rows(data)|
      && forall k :: 0 <= k < |after| ==> after[k] == if Rows(data)[k].id == tempId then card else Rows(data)[k]
  {
    forall k | 0 <= k < |Rows(data)| {
      MappedAt(Swap(tempId, card), Rows(data), k);
    }
  }

  /** The places of the rows that pass a test. */
  ghost function Places(test: Card -> bool, rows: seq<Card>): set<int> {
    set k | 0 <= k < |rows| && test(rows[k])
  }

  lemma {:induction false} CountIsPlaces(test: Card -> bool, rows: seq<Card>)
    ensures Count(test, rows) == |Places(test, rows)|
  {
    if rows == [] {
      assert Places(test, rows) == {};
    } else {
      var rest := rows[..|rows| - 1];
      CountIsPlaces(test, rest);
      CountOfLast(test, rest, rows[|rows| - 1]);
      assert rows == rest + [rows[|rows| - 1]];
      assert Places(test, rows) == Places(test, rest) + if test(rows[|rows| - 1]) then {|rows| - 1} else {};
    }
  }

  lemma {:induction false} CountOfLast(test: Card -> bool, rows: seq<Card>, c: Card)
    ensures Count(test, rows + [c]) == Count(test, rows) + if test(c) then 1 else 0
  {
    if rows == [] {
      assert rows + [c] == [c];
    } else {
      CountOfLast(test, rows[1..], c);
      assert (rows + [c])[1..] == rows[1..] + [c];
    }
  }

  /** The rollup counts all rows, and those complete or with status done; without one the two flags are counted. */
  lemma RollupCounts(rows: seq<Card>)
    ensures Counted(rows).total == |rows|
    ensures Counted(rows).completed == |set k | 0 <= k < |rows| && (rows[k].isComplete || rows[k].status == Done)|
    ensures Displayed(Some(Data(rows, None))).1.completed == |set k | 0 <= k < |rows| && (rows[k].isComplete || rows[k].isCompleted)|
  {
    CountIsPlaces(CountsAsDone, rows);
    CountIsPlaces(ShownAsDone, rows);
    assert Places(CountsAsDone, rows) == set k | 0 <= k < |rows| && (rows[k].isComplete || rows[k].status == Done);
    assert Places(ShownAsDone, rows) == set k | 0 <= k < |rows| && (rows[k].isComplete || rows[k].isCompleted);
  }

  /** A new row goes last: the typed title, not done; a board card goes last as it is. */
  lemma NewRowsGoLast(data: Option<Data>, tempId: Id, title: string, card: Card)
    ensures var after := Rows(Apply(data, Create(tempId, title)));
      && |after| == |Rows(data)| + 1 && after[..|Rows(data)|] == Rows(data)
      && after[|Rows(data)|].id == tempId && after[|Rows(data)|].title == title && Ticked(after[|Rows(data)|], false)
    ensures Rows(Apply(data, Attach(card))) == Rows(data) + [card]
  {
  }

  class SubcardSection {
    var data: Option<Data>

    constructor ()
      ensures data == None
    {
      data := None;
    }

    /** Shows the new row at once; a blank title does nothing. */
    method HandleCreateSubcard(trimmed: string, tempId: Id) returns (started: bool)
      modifies this
      ensures started == (trimmed != "")
      ensures data == if started then Apply(old(data), Create(tempId, trimmed)) else old(data)
      ensures Agrees(old(data)) ==> Agrees(data)
    {
      UpdaterKeeps(data, Create(tempId, trimmed));
      if trimmed == "" {
        return false;
      }
      var rows := Rows(data) + [TempRow(tempId, trimmed)];
      data := Some(Data(rows, Some(Counted(rows))));
      return true;
    }

    /** The swap keeps the rollup as it is; a refusal and an exception both revert. */
    method OnCreateAnswer(tempId: Id, answer: Answer)
      modifies this
      ensures data == Apply(old(data), if answer.Created? then Succeed(tempId, answer.card) else Fail(tempId))
      ensures Agrees(old(data)) && (answer.Created? ==> Honest(old(data), Succeed(tempId, answer.card))) ==> Agrees(data)
      ensures !answer.Created? ==> Agrees(data) && forall c :: c in Rows(data) ==> c.id != tempId
    {
      UpdaterKeeps(data, if answer.Created? then Succeed(tempId, answer.card) else Fail(tempId));
      if data.Some? {
        if answer.Created? {
          data := Some(data.value.(subcards := Mapped(Swap(tempId, answer.card), data.value.subcards)));
        } else {
          var filtered := Without(data.value.subcards, tempId);
          data := Some(Data(filtered, Some(Counted(filtered))));
        }
      }
    }

    method HandleAttachSubcard(selected: Id, allBoardCards: seq<Card>) returns (card: Option<Card>)
      modifies this
      ensures card.None? ==> data == old(data) && (selected == "" || forall c :: c in allBoardCards ==> c.id != selected)
      ensures card.Some? ==> selected != "" && card.value in allBoardCards && card.value.id == selected
      ensures card.Some? ==> data == Apply(old(data), Attach(card.value)) && Agrees(data)
    {
      card := None;
      if selected == "" {
        return;
      }
      var i := 0;
      while i < |allBoardCards| && card.None?
        invariant 0 <= i <= |allBoardCards|
        invariant card.None? ==> forall k :: 0 <= k < i ==> allBoardCards[k].id != selected
        invariant card.Some? ==> card.value in allBoardCards && card.value.id == selected
      {
        if allBoardCards[i].id == selected {
          card := Some(allBoardCards[i]);
        }
        i := i + 1;
      }
      if card.Some? {
        var rows := Rows(data) + [card.value];
        data := Some(Data(rows, Some(Counted(rows))));
      }
    }

    method HandleDetachSubcard(id: Id)
      modifies this
      ensures data == Apply(old(data), Detach(id))
      ensures Agrees(data) && forall c :: c in Rows(data) ==> c.id != id
    {
      UpdaterKeeps(data, Detach(id));
      if data.Some? {
        var filtered := Without(data.value.subcards, id);
        data := Some(Data(filtered, Some(Counted(filtered))));
      }
    }

    method HandleToggleSubcardComplete(subcard: Card)
      modifies this
      ensures data == Apply(old(data), Toggle(subcard))
      ensures Toggled(Rows(old(data)), subcard, Rows(data))
      ensures Agrees(data)
    {
      ToggleTurnsRows(data, subcard);
      UpdaterKeeps(data, Toggle(subcard));
      var isNowDone := !subcard.isComplete && !subcard.isCompleted;
      if data.Some? {
        var updated := Mapped(Marked(subcard.id, isNowDone), data.value.subcards);
        data := Some(Data(updated, Some(Counted(updated))));
      }
    }

    method OnLoaded(d: Data)
      modifies this
      ensures data == Apply(old(data), Load(d))
      ensures Agrees(Some(d)) ==> Agrees(data)
    {
      UpdaterKeeps(data, Load(d));
      data := Some(d);
    }
  }

  // ----- The rollup

  /** The two done-tests agree on a row; true of every row whose flags follow its status. */
  predicate RowFits(c: Card) {
    CountsAsDone(c) == ShownAsDone(c)
  }

  /** The displayed rollup is the count of the displayed rows, now and under any swap that keeps done-ness. */
  ghost predicate Agrees(data: Option<Data>) {
    data.Some? ==>
      if data.value.rollup.Some? then data.value.rollup.value == Counted(data.value.subcards)
      else forall c :: c in data.value.subcards ==> RowFits(c)
  }

  /** A swapped-in card is as done as the row it replaces; a loaded list comes with a right rollup. */
  ghost predicate Honest(data: Option<Data>, e: Event) {
    match e
    case Succeed(t, card) => RowFits(card) && forall c :: c in Rows(data) && c.id == t ==> CountsAsDone(c) == CountsAsDone(card)
    case Load(d) => Agrees(Some(d))
    case _ => true
  }

  ghost predicate HonestRun(data: Option<Data>, events: seq<Event>)
    decreases |events|
  {
    events == [] || (Honest(data, events[0]) && HonestRun(Apply(data, events[0]), events[1..]))
  }

  lemma {:induction false} CountAgrees(rows: seq<Card>)
    requires forall c :: c in rows ==> RowFits(c)
    ensures Count(CountsAsDone, rows) == Count(ShownAsDone, rows)
  {
    if rows != [] {
      assert rows[0] in rows;
      CountAgrees(rows[1..]);
    }
  }

  /** Agreement means that the screen tells the truth. */
  lemma AgreesIsShown(data: Option<Data>)
    requires Agrees(data)
    ensures Displayed(data).1 == Counted(Displayed(data).0)
  {
    if data.Some? {
      if data.value.rollup.None? {
        CountAgrees(data.value.subcards);
      }
    }
  }

  lemma {:induction false} SwapKeepsCount(rows: seq<Card>, id: Id, replacement: Card)
    requires forall c :: c in rows && c.id == id ==> CountsAsDone(c) == CountsAsDone(replacement)
    ensures Count(CountsAsDone, Mapped(Swap(id, replacement), rows)) == Count(CountsAsDone, rows)
  {
    if rows != [] {
      SwapKeepsCount(rows[1..], id, replacement);
    }
  }

  lemma {:induction false} MappedMembers(f: Card -> Card, rows: seq<Card>, c: Card)
    requires c in Mapped(f, rows)
    ensures exists r :: r in rows && c == f(r)
  {
    if c == Mapped(f, rows)[0] {
      assert rows[0] in rows;
    } else {
      MappedMembers(f, rows[1..], c);
    }
  }

  /** After every updater the rollup is the count of the rows, given honest answers. */
  lemma StepAgrees(data: Option<Data>, e: Event)
    requires Agrees(data) && Honest(data, e)
    ensures Agrees(Apply(data, e))
  {
    if e.Succeed? && data.Some? {
      var rows := data.value.subcards;
      SwapKeepsCount(rows, e.tempId, e.card);
      forall c | c in Mapped(Swap(e.tempId, e.card), rows) && data.value.rollup.None? ensures RowFits(c) {
        MappedMembers(Swap(e.tempId, e.card), rows, c);
      }
    }
  }

  lemma {:induction false} RunAgrees(data: Option<Data>, events: seq<Event>)
    requires Agrees(data) && HonestRun(data, events)
    ensures Agrees(Run(data, events))
    decreases |events|
  {
    if events != [] {
      StepAgrees(data, events[0]);
      RunAgrees(Apply(data, events[0]), events[1..]);
    }
  }

  /** Replacing rows by one that is done never lowers the count, by one that is not done never raises it. */
  lemma {:induction false} SwapMovesCount(rows: seq<Card>, id: Id, card: Card)
    ensures var before, after := Count(CountsAsDone, rows), Count(CountsAsDone, Mapped(Swap(id, card), rows));
      && (if CountsAsDone(card) then before <= after else after <= before)
      && (before == after <==> ReplacedAlike(rows, id, card))
  {
    if rows != [] {
      var rest := rows[1..];
      SwapMovesCount(rest, id, card);
      assert forall c :: c in rows <==> c == rows[0] || c in rest;
      assert ReplacedAlike(rows, id, card) <==>
          (rows[0].id == id ==> CountsAsDone(rows[0]) == CountsAsDone(card)) && ReplacedAlike(rest, id, card);
    }
  }

  /** Every row with the id is as done as the card. */
  ghost predicate ReplacedAlike(rows: seq<Card>, id: Id, card: Card) {
    forall c :: c in rows && c.id == id ==> CountsAsDone(c) == CountsAsDone(card)
  }

  /**
   A success leaves the rollup as it was, so the rollup stays right exactly when the server's card is as done as every
   row with the temporary id has become, however many there are.
   */
  lemma SwapKeepsRollupIff(d: Data, tempId: Id, card: Card)
    requires d.rollup == Some(Counted(d.subcards))
    ensures var after := Apply(Some(d), Succeed(tempId, card));
      after.value.rollup == Some(Counted(after.value.subcards)) <==> ReplacedAlike(d.subcards, tempId, card)
  {
    SwapMovesCount(d.subcards, tempId, card);
  }

  /** Ticking a row before its create is answered: one of one is shown as done, and no row is. */
  lemma ToggleBeforeAnswer(t: Id, title: string, card: Card)
    requires !CountsAsDone(card)
    ensures Displayed(Run(None, [Create(t, title), Toggle(TempRow(t, title)), Succeed(t, card)]))
            == ([card], Rollup(1, 1))
  {
    var a := Apply(None, Create(t, title));
    assert Rows(a) == [TempRow(t, title)];
    var b := Apply(a, Toggle(TempRow(t, title)));
    var ticked := Card(t, title, true, true, Done);
    assert Rows(b) == [ticked];
    assert CountsAsDone(ticked) && [ticked][1..] == [];
    assert Count(CountsAsDone, [ticked]) == 1 + Count(CountsAsDone, [ticked][1..]);
    assert Counted([ticked]) == Rollup(1, 1);
    var c := Apply(b, Succeed(t, card));
    assert Rows(c) == [card];
    assert Run(c, []) == c && Run(b, [Succeed(t, card)]) == c;
    assert Run(a, [Toggle(TempRow(t, title)), Succeed(t, card)]) == c;
  }

  // ----- Failed creates leave no trace

  /** The event neither starts nor answers create t, and brings no card with that id. */
  ghost predicate Foreign(e: Event, t: Id) {
    match e
    case Create(u, _) => u != t
    case Succeed(u, card) => u != t && card.id != t
    case Fail(u) => u != t
    case Attach(card) => card.id != t
    case Load(d) => forall c :: c in d.subcards ==> c.id != t
    case Detach(_) => true
    case Toggle(_) => true
  }

  ghost predicate AllForeign(events: seq<Event>, t: Id) {
    forall k :: 0 <= k < |events| ==> Foreign(events[k], t)
  }

  lemma {:induction false} WithoutAppend(rows: seq<Card>, c: Card, t: Id)
    ensures Without(rows + [c], t) == Without(rows, t) + (if c.id == t then [] else [c])
  {
    if rows == [] {
      assert rows + [c] == [c];
    } else {
      WithoutAppend(rows[1..], c, t);
      assert (rows + [c])[1..] == rows[1..] + [c];
    }
  }

  lemma {:induction false} WithoutCommutes(rows: seq<Card>, a: Id, b: Id)
    ensures Without(Without(rows, a), b) == Without(Without(rows, b), a)
  {
    if rows != [] {
      WithoutCommutes(rows[1..], a, b);
      WithoutCons(rows[0], Without(rows[1..], a), b);
      WithoutCons(rows[0], Without(rows[1..], b), a);
    }
  }

  lemma WithoutCons(c: Card, rows: seq<Card>, t: Id)
    ensures Without([c] + rows, t) == if c.id == t then Without(rows, t) else [c] + Without(rows, t)
  {
    assert ([c] + rows)[1..] == rows;
  }

  lemma MappedCons(f: Card -> Card, c: Card, rows: seq<Card>)
    ensures Mapped(f, [c] + rows) == [f(c)] + Mapped(f, rows)
  {
    assert ([c] + rows)[1..] == rows;
  }

  /** Changing rows in place commutes with leaving row t out, when the change keeps apart t and the rest. */
  lemma {:induction false} WithoutMapped(f: Card -> Card, rows: seq<Card>, t: Id)
    requires forall c: Card :: f(c).id == t <==> c.id == t
    ensures Without(Mapped(f, rows), t) == Mapped(f, Without(rows, t))
  {
    if rows != [] {
      WithoutMapped(f, rows[1..], t);
      WithoutCons(f(rows[0]), Mapped(f, rows[1..]), t);
      MappedCons(f, rows[0], Without(rows[1..], t));
    }
  }

  lemma {:induction false} WithoutAbsent(rows: seq<Card>, t: Id)
    requires forall c :: c in rows ==> c.id != t
    ensures Without(rows, t) == rows
  {
    if rows != [] {
      assert rows[0] in rows;
      WithoutAbsent(rows[1..], t);
    }
  }

  lemma {:induction false} WithoutTwice(rows: seq<Card>, t: Id)
    ensures Without(Without(rows, t), t) == Without(rows, t)
    ensures forall c :: c in Without(rows, t) <==> c in rows && c.id != t
  {
    if rows != [] {
      WithoutTwice(rows[1..], t);
      WithoutCons(rows[0], Without(rows[1..], t), t);
    }
  }

  /** The run with the create shows the rows of the run without it, and maybe row t. */
  ghost predicate SameButRow(full: Option<Data>, less: Option<Data>, t: Id) {
    Rows(less) == Without(Rows(full), t) && (full.None? ==> less.None?)
  }

  lemma ForeignStep(full: Option<Data>, less: Option<Data>, e: Event, t: Id)
    requires SameButRow(full, less, t) && Foreign(e, t)
    ensures SameButRow(Apply(full, e), Apply(less, e), t)
  {
    var rows := Rows(full);
    match e
    case Create(u, title) => WithoutAppend(rows, TempRow(u, title), t);
    case Attach(card) => WithoutAppend(rows, card, t);
    case Load(d) => WithoutAbsent(d.subcards, t);
    case Succeed(u, card) =>
      WithoutMapped(Swap(u, card), rows, t);
    case Fail(u) => WithoutCommutes(rows, u, t);
    case Detach(u) => WithoutCommutes(rows, u, t);
    case Toggle(row) => WithoutMapped(Marked(row.id, !row.isComplete && !row.isCompleted), rows, t);
  }

  lemma {:induction false} ForeignRun(full: Option<Data>, less: Option<Data>, events: seq<Event>, t: Id)
    requires SameButRow(full, less, t) && AllForeign(events, t)
    ensures SameButRow(Run(full, events), Run(less, events), t)
    decreases |events|
  {
    if events != [] {
      ForeignStep(full, less, events[0], t);
      ForeignRun(Apply(full, events[0]), Apply(less, events[0]), events[1..], t);
    }
  }

  /** Honesty of answers reads only rows other than t, so it carries over to the run with the create. */
  lemma {:induction false} HonestCarries(full: Option<Data>, less: Option<Data>, events: seq<Event>, t: Id)
    requires SameButRow(full, less, t) && AllForeign(events, t) && HonestRun(less, events)
    ensures HonestRun(full, events)
    decreases |events|
  {
    if events != [] {
      WithoutTwice(Rows(full), t);
      assert Honest(full, events[0]);
      ForeignStep(full, less, events[0], t);
      HonestCarries(Apply(full, events[0]), Apply(less, events[0]), events[1..], t);
    }
  }

  lemma {:induction false} RunConcat(data: Option<Data>, a: seq<Event>, b: seq<Event>)
    ensures Run(data, a + b) == Run(Run(data, a), b)
    decreases |a|
  {
    if a == [] {
      assert a + b == b;
    } else {
      assert (a + b)[1..] == a[1..] + b;
      RunConcat(Apply(data, a[0]), a[1..], b);
    }
  }

  lemma {:induction false} HonestConcat(data: Option<Data>, a: seq<Event>, b: seq<Event>)
    ensures HonestRun(data, a + b) <==> HonestRun(data, a) && HonestRun(Run(data, a), b)
    decreases |a|
  {
    if a == [] {
      assert a + b == b;
    } else {
      assert (a + b)[1..] == a[1..] + b;
      HonestConcat(Apply(data, a[0]), a[1..], b);
    }
  }

  lemma {:induction false} NeverShown(data: Option<Data>, events: seq<Event>, t: Id)
    requires AllForeign(events, t) && Without(Rows(data), t) == Rows(data)
    ensures Without(Rows(Run(data, events)), t) == Rows(Run(data, events))
  {
    ForeignRun(data, data, events, t);
  }

  /** What is on screen when the create fails, against the run in which it never happened. */
  lemma RightAfterFailure(data: Option<Data>, before: seq<Event>, during: seq<Event>, t: Id, title: string)
    requires Without(Rows(data), t) == Rows(data) && AllForeign(before, t) && AllForeign(during, t)
    ensures var full := Run(data, before + [Create(t, title)] + during + [Fail(t)]);
      var less := Run(data, before + during);
      && Rows(full) == Rows(less) && full.Some?
      && full.value.rollup == Some(Counted(Rows(full)))
      && (Displayed(full) == Displayed(less) <==> Displayed(less).1 == Counted(Rows(less)))
  {
    RunConcat(data, before, during);
    RunConcat(data, before, [Create(t, title)]);
    RunConcat(data, before + [Create(t, title)], during);
    RunConcat(data, before + [Create(t, title)] + during, [Fail(t)]);
    var start := Run(data, before);
    var created := Apply(start, Create(t, title));
    assert Run(start, [Create(t, title)]) == created by { assert Run(created, []) == created; }
    NeverShown(data, before, t);
    WithoutAppend(Rows(start), TempRow(t, title), t);
    ForeignRun(created, start, during, t);
    RunStaysSome(created, during);
    var pending := Run(created, during);
    assert Run(pending, [Fail(t)]) == Apply(pending, Fail(t)) by { assert Run(Apply(pending, Fail(t)), []) == Apply(pending, Fail(t)); }
  }

  lemma {:induction false} RunStaysSome(data: Option<Data>, events: seq<Event>)
    requires data.Some?
    ensures Run(data, events).Some?
    decreases |events|
  {
    if events != [] {
      RunStaysSome(Apply(data, events[0]), events[1..]);
    }
  }

  /**
   Failed creates leave no trace: in any interleaving with other creates, their
   answers, attaches, detaches, toggles and reloads, a create that fails ends
   with the same rows as if it had never been made, and, when loads and swaps are
   honest, with the same rollup.
   */
  lemma FailedCreateLeavesNoTrace(data: Option<Data>, before: seq<Event>, during: seq<Event>, after: seq<Event>, t: Id, title: string)
    requires Without(Rows(data), t) == Rows(data)
    requires AllForeign(before, t) && AllForeign(during, t) && AllForeign(after, t)
    ensures var full := Run(data, before + [Create(t, title)] + during + [Fail(t)] + after);
      var less := Run(data, before + during + after);
      && Rows(full) == Rows(less)
      && (Agrees(data) && HonestRun(data, before + during + after) ==> Displayed(full) == Displayed(less))
  {
    RightAfterFailure(data, before, during, t, title);
    RunConcat(data, before + [Create(t, title)] + during + [Fail(t)], after);
    RunConcat(data, before + during, after);
    ForeignConcat(before, during, t);
    NeverShown(data, before + during, t);
    var full := Run(data, before + [Create(t, title)] + during + [Fail(t)]);
    AfterFailure(data, full, before + during, after, t);
  }

  lemma ForeignConcat(a: seq<Event>, b: seq<Event>, t: Id)
    requires AllForeign(a, t) && AllForeign(b, t)
    ensures AllForeign(a + b, t)
  {
  }

  /** From the failure on, both runs show the same. */
  lemma AfterFailure(data: Option<Data>, full: Option<Data>, events: seq<Event>, after: seq<Event>, t: Id)
    requires var less := Run(data, events);
      && Rows(full) == Rows(less) && full.Some?
      && full.value.rollup == Some(Counted(Rows(full)))
    requires Without(Rows(full), t) == Rows(full) && AllForeign(after, t)
    ensures Rows(Run(full, after)) == Rows(Run(Run(data, events), after))
    ensures Agrees(data) && HonestRun(data, events + after) ==> Displayed(Run(full, after)) == Displayed(Run(Run(data, events), after))
  {
    var less := Run(data, events);
    ForeignRun(full, less, after, t);
    NeverShown(full, after, t);
    if Agrees(data) && HonestRun(data, events + after) {
      HonestConcat(data, events, after);
      RunAgrees(data, events);
      RunAgrees(less, after);
      HonestCarries(full, less, after, t);
      RunAgrees(full, after);
      AgreesIsShown(Run(full, after));
      AgreesIsShown(Run(less, after));
    }
  }

  /** Removing by id takes exactly one row away iff no other row carries its id. */
  lemma WithoutMiddle(a: seq<Card>, x: Card, b: seq<Card>)
    ensures Without(a + [x] + b, x.id) == a + b <==> forall c :: c in a + b ==> c.id != x.id
  {
    WithoutConcat(a + [x], b, x.id);
    WithoutAppend(a, x, x.id);
    WithoutConcat(a, b, x.id);
    assert Without(a + [x] + b, x.id) == Without(a + b, x.id);
    WithoutTwice(a + b, x.id);
    if forall c :: c in a + b ==> c.id != x.id {
      WithoutAbsent(a + b, x.id);
    }
  }

  lemma WithoutOneIff(rows: seq<Card>, k: nat)
    requires k < |rows|
    ensures Without(rows, rows[k].id) == rows[..k] + rows[k + 1..] <==>
            forall j :: 0 <= j < |rows| && j != k ==> rows[j].id != rows[k].id
  {
    SplitAround(rows, k);
    WithoutMiddle(rows[..k], rows[k], rows[k + 1..]);
    OthersAre(rows, k);
  }

  lemma SplitAround(rows: seq<Card>, k: nat)
    requires k < |rows|
    ensures rows[..k] + [rows[k]] + rows[k + 1..] == rows
  {
  }

  lemma OthersAre(rows: seq<Card>, k: nat)
    requires k < |rows|
    ensures var rest := rows[..k] + rows[k + 1..];
      (forall c :: c in rest ==> c.id != rows[k].id) <==> forall j :: 0 <= j < |rows| && j != k ==> rows[j].id != rows[k].id
  {
    var rest := rows[..k] + rows[k + 1..];
    forall j | 0 <= j < |rows| && j != k ensures rows[j] in rest {
      assert rest[if j < k then j else j - 1] == rows[j];
    }
    assert forall m :: 0 <= m < |rest| ==> rest[m] == rows[if m < k then m else m + 1];
  }

  lemma {:induction false} WithoutConcat(a: seq<Card>, b: seq<Card>, t: Id)
    ensures Without(a + b, t) == Without(a, t) + Without(b, t)
  {
    if a == [] {
      assert a + b == b;
    } else {
      var tail := a[1..];
      WithoutConcat(tail, b, t);
      assert a + b == [a[0]] + (tail + b);
      WithoutCons(a[0], tail + b, t);
      assert [a[0]] + (Without(tail, t) + Without(b, t)) == [a[0]] + Without(tail, t) + Without(b, t);
    }
  }

  /**
   A failed create takes exactly its own row off the screen if and only if no other
   row on screen carries its temporary id.
   */
  lemma FailureRemovesItsRowIff(d: Data, k: nat)
    requires k < |d.subcards|
    ensures Rows(Apply(Some(d), Fail(d.subcards[k].id))) == d.subcards[..k] + d.subcards[k + 1..] <==>
            forall j :: 0 <= j < |d.subcards| && j != k ==> d.subcards[j].id != d.subcards[k].id
  {
    WithoutOneIff(d.subcards, k);
  }

  /** Two creates in one millisecond share their id: the failure of one removes both. */
  lemma SharedTempIdLosesBoth(t: Id, a: string, b: string)
    ensures Rows(Run(None, [Create(t, a), Create(t, b), Fail(t)])) == []
    ensures Rows(Run(None, [Create(t, a)])) == [TempRow(t, a)]
  {
    var one := Apply(None, Create(t, a));
    var two := Apply(one, Create(t, b));
    assert Rows(one) == [TempRow(t, a)] && Rows(two) == [TempRow(t, a), TempRow(t, b)];
    assert Rows(two)[1..] == [TempRow(t, b)];
    var three := Apply(two, Fail(t));
    assert Without([TempRow(t, b)], t) == [];
    assert Run(three, []) == three && Run(two, [Fail(t)]) == three;
    assert Run(one, [Create(t, b), Fail(t)]) == three;
    assert Run(one, []) == one;
  }
}
