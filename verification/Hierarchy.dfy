/**
 * Cards and subcards on one board: the documented maximum depth of 2, and what each write really keeps.
 *
 * The guard that keeps a card with subcards from becoming a subcard counts active subcards only, and restoring an
 * archived card checks nothing: one after the other, these two build any depth. The calls themselves, which wait
 * between their reads and their write, are in HierarchyCalls.
 */
module Hierarchy {
  import opened Options

  /** A card's UUID. */
  type Id = nat

  datatype Card = Card(parent: Option<Id>, archived: bool, deleted: bool)
  type Cards = map<Id, Card>

  datatype Outcome =
    | Done
    | NotFound
    | MaxDepth
    | Cycle
    | AlreadyHasParent
    | HasSubcards
    | NoParent
    | AlreadyDeleted

  predicate Active(cs: Cards, x: Id) {
    x in cs && !cs[x].archived && !cs[x].deleted
  }

  predicate Up(cs: Cards, x: Id, p: Id) {
    x in cs && cs[x].parent == Some(p)
  }

  /** The active subcards that `countSubcards` counts. */
  function ActiveSubcards(cs: Cards, p: Id): set<Id> {
    set x | x in cs && Active(cs, x) && Up(cs, x, p)
  }

  // ---- The operations ----

  datatype Op =
    | Create(id: Id, under: Option<Id>)
    | Attach(parent: Id, child: Id)
    | Detach(child: Id)
    | Archive(card: Id)
    | Unarchive(card: Id)
    | Delete(card: Id)

  function CheckAttach(cs: Cards, parent: Id, child: Id): Outcome {
    if !Active(cs, parent) then NotFound
    else if cs[parent].parent.Some? then MaxDepth
    else if !Active(cs, child) then NotFound
    else if child == parent then Cycle
    else if cs[child].parent.Some? then AlreadyHasParent
    else if |ActiveSubcards(cs, child)| > 0 then HasSubcards
    else Done
  }

  function Check(cs: Cards, op: Op): Outcome {
    match op
    case Create(_, under) =>
      if under.None? then Done
      else if !Active(cs, under.value) then NotFound
      else if cs[under.value].parent.Some? then MaxDepth
      else Done
    case Attach(parent, child) => CheckAttach(cs, parent, child)
    case Detach(child) =>
      if !Active(cs, child) then NotFound else if cs[child].parent.None? then NoParent else Done
    case Archive(card) => if Active(cs, card) then Done else NotFound
    case Unarchive(card) => if card in cs then Done else NotFound
    case Delete(card) =>
      if card !in cs then NotFound else if cs[card].deleted then AlreadyDeleted else Done
  }

  function Reparented(cs: Cards, x: Id, parent: Option<Id>): Cards
    requires x in cs
  {
    cs[x := cs[x].(parent := parent)]
  }

  /** The rows that a write names exist. Rows are never removed, so they do once a check has seen them. */
  predicate Writable(cs: Cards, op: Op) {
    match op
    case Create(_, under) => under.Some? ==> under.value in cs
    case Attach(parent, child) => parent in cs && child in cs
    case Detach(child) => child in cs
    case Archive(card) => card in cs
    case Unarchive(card) => card in cs
    case Delete(card) => card in cs
  }

  /** The one update or insert that ends an operation. It checks nothing. */
  function Written(cs: Cards, op: Op): Cards
    requires Writable(cs, op)
  {
    match op
    case Create(id, under) => cs[id := Card(under, false, false)]
    case Attach(parent, child) => Reparented(cs, child, Some(parent))
    case Detach(child) => Reparented(cs, child, None)
    case Archive(card) => cs[card := cs[card].(archived := true)]
    case Unarchive(card) => cs[card := cs[card].(archived := false)]
    case Delete(card) => cs[card := cs[card].(deleted := true)]
  }

  function Touched(op: Op): Id {
    match op
    case Create(id, _) => id
    case Attach(_, child) => child
    case Detach(child) => child
    case Archive(card) => card
    case Unarchive(card) => card
    case Delete(card) => card
  }

  /** What a write changes: one field of one card, or one new card. */
  lemma WrittenIs(cs: Cards, op: Op)
    requires Writable(cs, op)
    ensures var after, x := Written(cs, op), Touched(op);
      && after.Keys == cs.Keys + {x} && after - {x} == cs - {x}
      && match op
         case Create(_, under) => after[x].parent == under && Active(after, x)
         case Attach(parent, _) =>
           after[x].parent == Some(parent) && after[x].archived == cs[x].archived && after[x].deleted == cs[x].deleted
         case Detach(_) => after[x].parent == None && after[x].archived == cs[x].archived && after[x].deleted == cs[x].deleted
         case Archive(_) => after[x].archived && after[x].parent == cs[x].parent && after[x].deleted == cs[x].deleted
         case Unarchive(_) => !after[x].archived && after[x].parent == cs[x].parent && after[x].deleted == cs[x].deleted
         case Delete(_) => after[x].deleted && after[x].parent == cs[x].parent && after[x].archived == cs[x].archived
  {
  }

  lemma CheckedIsWritable(cs: Cards, op: Op)
    requires Check(cs, op) == Done
    ensures Writable(cs, op)
  {
  }

  /** When each operation succeeds. */
  lemma CheckDoneIff(cs: Cards, op: Op)
    ensures Check(cs, op) == Done <==>
      match op
      case Create(_, under) => under.Some? ==> Active(cs, under.value) && cs[under.value].parent == None
      case Attach(parent, child) =>
        && parent != child && Active(cs, parent) && Active(cs, child)
        && cs[parent].parent == None && cs[child].parent == None
        && forall x: Id :: !(Active(cs, x) && Up(cs, x, child))
      case Detach(child) => Active(cs, child) && cs[child].parent != None
      case Archive(card) => card in cs && !cs[card].archived && !cs[card].deleted
      case Unarchive(card) => card in cs
      case Delete(card) => card in cs && !cs[card].deleted
  {
    if op.Attach? && op.child in cs {
      NoneCounted(cs, op.child);
    }
  }

  /** Which refusal an attachment gets: the first of its tests that fails. */
  lemma AttachRefusalIs(cs: Cards, parent: Id, child: Id)
    ensures !Active(cs, parent) ==> Check(cs, Attach(parent, child)) == NotFound
    ensures Active(cs, parent) && cs[parent].parent != None ==> Check(cs, Attach(parent, child)) == MaxDepth
    ensures Active(cs, parent) && cs[parent].parent == None ==>
      if !Active(cs, child) then Check(cs, Attach(parent, child)) == NotFound
      else if child == parent then Check(cs, Attach(parent, child)) == Cycle
      else if cs[child].parent != None then Check(cs, Attach(parent, child)) == AlreadyHasParent
      else Check(cs, Attach(parent, child)) ==
           if exists x: Id :: Active(cs, x) && Up(cs, x, child) then HasSubcards else Done
  {
    NoneCounted(cs, child);
  }

  /** Which refusals the other operations get. */
  lemma RefusalIs(cs: Cards, op: Op)
    requires !op.Attach? && Check(cs, op) != Done
    ensures match op
      case Create(_, under) => under.Some? && Check(cs, op) == if Active(cs, under.value) then MaxDepth else NotFound
      case Detach(child) => Check(cs, op) == if Active(cs, child) then NoParent else NotFound
      case Delete(card) => Check(cs, op) == if card in cs then AlreadyDeleted else NotFound
      case _ => Check(cs, op) == NotFound
  {
  }

  lemma NoneCounted(cs: Cards, p: Id)
    ensures |ActiveSubcards(cs, p)| == 0 <==> forall x: Id :: !(Active(cs, x) && Up(cs, x, p))
  {
    if |ActiveSubcards(cs, p)| > 0 {
      var x: Id :| x in ActiveSubcards(cs, p);
    } else {
      forall x: Id ensures !(Active(cs, x) && Up(cs, x, p)) {
        assert x !in ActiveSubcards(cs, p);
      }
    }
  }

  /** An operation that is not interrupted. */
  function After(cs: Cards, op: Op): Cards {
    if Check(cs, op) == Done && Writable(cs, op) then Written(cs, op) else cs
  }

  /** An attachment hangs the card under the parent, and detaching it undoes exactly that. */
  lemma DetachUndoesAttach(cs: Cards, parent: Id, child: Id)
    requires Check(cs, Attach(parent, child)) == Done
    ensures var attached := After(cs, Attach(parent, child));
      && Up(attached, child, parent) && Check(attached, Detach(child)) == Done && After(attached, Detach(child)) == cs
  {
    CheckDoneIff(cs, Attach(parent, child));
    CheckDoneIff(After(cs, Attach(parent, child)), Detach(child));
  }

  /** An archived card is no longer active, and restoring it undoes exactly that. */
  lemma UnarchiveUndoesArchive(cs: Cards, card: Id)
    requires Check(cs, Archive(card)) == Done
    ensures var archived := After(cs, Archive(card));
      && !Active(archived, card) && Check(archived, Unarchive(card)) == Done && After(archived, Unarchive(card)) == cs
  {
  }

  /** A deleted card is gone for good: no run of operations makes it active again. */
  lemma {:induction false} DeletedStaysDeleted(cs: Cards, ops: seq<Op>, card: Id)
    requires FreshRun(cs, ops) && card in cs && cs[card].deleted
    ensures card in Run(cs, ops) && Run(cs, ops)[card].deleted && !Active(Run(cs, ops), card)
  {
    if ops != [] {
      DeletedStaysDeleted(cs, ops[..|ops| - 1], card);
    }
  }

  /** The database never hands out an id twice. */
  predicate FreshId(cs: Cards, op: Op) {
    op.Create? ==> op.id !in cs
  }

  function Run(cs: Cards, ops: seq<Op>): Cards {
    if ops == [] then cs else After(Run(cs, ops[..|ops| - 1]), ops[|ops| - 1])
  }

  ghost predicate FreshRun(cs: Cards, ops: seq<Op>) {
    ops != [] ==> FreshRun(cs, ops[..|ops| - 1]) && FreshId(Run(cs, ops[..|ops| - 1]), ops[|ops| - 1])
  }

  // ---- Never a cycle ----

  /** Every parent exists and has a smaller height than its subcards. */
  ghost predicate Ranked(cs: Cards, height: map<Id, nat>) {
    && (forall x :: x in cs ==> x in height)
    && forall x, p :: Up(cs, x, p) ==> p in cs && height[p] < height[x]
  }

  ghost predicate Forest(cs: Cards) {
    exists height: map<Id, nat> :: Ranked(cs, height)
  }

  function Ancestor(cs: Cards, x: Id, n: nat): Option<Id> {
    if n == 0 then Some(x)
    else
      match Ancestor(cs, x, n - 1)
      case None => None
      case Some(y) => if y in cs then cs[y].parent else None
  }

  lemma {:induction false} AncestorIsLower(cs: Cards, height: map<Id, nat>, x: Id, n: nat)
    requires Ranked(cs, height) && x in cs && Ancestor(cs, x, n).Some?
    ensures Ancestor(cs, x, n).value in cs && height[Ancestor(cs, x, n).value] + n <= height[x]
  {
    if n > 0 {
      AncestorIsLower(cs, height, x, n - 1);
      var y := Ancestor(cs, x, n - 1).value;
      assert Up(cs, y, Ancestor(cs, x, n).value);
    }
  }

  /** In a forest no card is its own ancestor. */
  lemma ForestHasNoCycle(cs: Cards, x: Id, n: nat)
    requires Forest(cs) && x in cs && n > 0
    ensures Ancestor(cs, x, n) != Some(x)
  {
    var height: map<Id, nat> :| Ranked(cs, height);
    if Ancestor(cs, x, n).Some? {
      AncestorIsLower(cs, height, x, n);
    }
  }

  /** c is x or one of its ancestors. */
  ghost predicate Below(cs: Cards, x: Id, c: Id) {
    exists n: nat :: Ancestor(cs, x, n) == Some(c)
  }

  lemma {:induction false} AncestorThen(cs: Cards, x: Id, m: nat, n: nat)
    requires Ancestor(cs, x, m).Some?
    ensures Ancestor(cs, x, m + n) == Ancestor(cs, Ancestor(cs, x, m).value, n)
  {
    if n > 0 {
      AncestorThen(cs, x, m, n - 1);
    }
  }

  /** Whatever stands above a parent stands above its subcards. */
  lemma BelowParent(cs: Cards, x: Id, y: Id, c: Id)
    requires Up(cs, x, y) && Below(cs, y, c)
    ensures Below(cs, x, c)
  {
    var n: nat :| Ancestor(cs, y, n) == Some(c);
    assert Ancestor(cs, x, 1) == Some(y) by {
      assert Ancestor(cs, x, 0) == Some(x);
    }
    AncestorThen(cs, x, 1, n);
    assert Ancestor(cs, x, 1 + n) == Some(c);
  }

  /** Hanging c under p: what is below c is lifted above p. */
  lemma HangingKeepsForest(cs: Cards, c: Id, p: Id)
    requires Forest(cs) && c in cs && p in cs && !Below(cs, p, c)
    ensures Forest(Reparented(cs, c, Some(p)))
  {
    var height: map<Id, nat> :| Ranked(cs, height);
    var lift := height[p] + 1;
    var lifted: map<Id, nat> := map x | x in height :: height[x] + if Below(cs, x, c) then lift else 0;
    var after := Reparented(cs, c, Some(p));
    assert Ancestor(cs, c, 0) == Some(c);
    assert Below(cs, c, c);
    forall x, q | Up(after, x, q)
      ensures q in after && lifted[q] < lifted[x]
    {
      if x != c {
        assert Up(cs, x, q);
        if Below(cs, q, c) {
          BelowParent(cs, x, q, c);
        }
      }
    }
    assert Ranked(after, lifted);
  }

  /** Up to the first visit of c, the way up is the same before and after c gets a new parent. */
  lemma {:induction false} SameWayUp(cs: Cards, c: Id, p: Id, x: Id, n: nat)
    requires c in cs && forall m: nat :: m < n ==> Ancestor(cs, x, m) != Some(c)
    ensures Ancestor(Reparented(cs, c, Some(p)), x, n) == Ancestor(cs, x, n)
  {
    if n > 0 {
      SameWayUp(cs, c, p, x, n - 1);
      assert Ancestor(cs, x, n - 1) != Some(c);
    }
  }

  lemma OneStepUp(cs: Cards, x: Id, c: Id, p: Id, n: nat)
    requires n > 0 && Ancestor(cs, x, n - 1) == Some(c) && Up(cs, c, p)
    ensures Ancestor(cs, x, n) == Some(p)
  {
  }

  lemma HangingClosesCycle(cs: Cards, c: Id, p: Id)
    requires c in cs && p in cs && Below(cs, p, c)
    ensures !Forest(Reparented(cs, c, Some(p)))
  {
    var after := Reparented(cs, c, Some(p));
    var n := FirstVisit(cs, p, c);
    SameWayUp(cs, c, p, p, n);
    var m: nat := n + 1;
    OneStepUp(after, p, c, p, m);
    if Forest(after) {
      ForestHasNoCycle(after, p, m);
      assert false;
    }
  }

  lemma FirstVisit(cs: Cards, x: Id, c: Id) returns (n: nat)
    requires Below(cs, x, c)
    ensures Ancestor(cs, x, n) == Some(c) && forall m: nat :: m < n ==> Ancestor(cs, x, m) != Some(c)
  {
    var k: nat :| Ancestor(cs, x, k) == Some(c);
    n := 0;
    while Ancestor(cs, x, n) != Some(c)
      invariant n <= k && forall m: nat :: m < n ==> Ancestor(cs, x, m) != Some(c)
      decreases k - n
    {
      n := n + 1;
    }
  }

  /** Giving a card a parent keeps a forest a forest exactly when the card is neither the parent nor above it. */
  lemma HangingKeepsForestIff(cs: Cards, c: Id, p: Id)
    requires Forest(cs) && c in cs && p in cs
    ensures Forest(Reparented(cs, c, Some(p))) <==> !Below(cs, p, c)
  {
    if Below(cs, p, c) {
      HangingClosesCycle(cs, c, p);
    } else {
      HangingKeepsForest(cs, c, p);
    }
  }

  /** The write would hang a card under itself or under something below it. */
  ghost predicate ClosesCycle(cs: Cards, op: Op) {
    op.Attach? && Below(cs, op.parent, op.child)
  }

  lemma ForestOfFewerLinks(cs: Cards, after: Cards)
    requires Forest(cs) && after.Keys == cs.Keys
    requires forall x, p :: Up(after, x, p) ==> Up(cs, x, p)
    ensures Forest(after)
  {
    var height: map<Id, nat> :| Ranked(cs, height);
    assert Ranked(after, height);
  }

  lemma CreateKeepsForest(cs: Cards, id: Id, under: Option<Id>)
    requires Forest(cs) && id !in cs && (under.Some? ==> under.value in cs)
    ensures Forest(cs[id := Card(under, false, false)])
  {
    var height: map<Id, nat> :| Ranked(cs, height);
    var after := cs[id := Card(under, false, false)];
    var taller: map<Id, nat> := height[id := if under.Some? then height[under.value] + 1 else 0];
    forall x, q | Up(after, x, q)
      ensures q in after && taller[q] < taller[x]
    {
      assert x == id || Up(cs, x, q);
    }
    assert Ranked(after, taller);
  }

  /** A write keeps a forest exactly when it does not hang a card under itself or under something below it. */
  lemma WriteKeepsForestIff(cs: Cards, op: Op)
    requires Forest(cs) && Writable(cs, op) && FreshId(cs, op)
    ensures Forest(Written(cs, op)) <==> !ClosesCycle(cs, op)
  {
    var after := Written(cs, op);
    match op
    case Create(id, under) => CreateKeepsForest(cs, id, under);
    case Attach(parent, child) => HangingKeepsForestIff(cs, child, parent);
    case Detach(_) => ForestOfFewerLinks(cs, after);
    case Archive(_) => ForestOfFewerLinks(cs, after);
    case Unarchive(_) => ForestOfFewerLinks(cs, after);
    case Delete(_) => ForestOfFewerLinks(cs, after);
  }

  /** Nothing stands above a card without a parent. */
  lemma {:induction false} NothingAbove(cs: Cards, x: Id, n: nat)
    requires x in cs && cs[x].parent == None
    ensures Ancestor(cs, x, n) == if n == 0 then Some(x) else None
  {
    if n > 0 {
      NothingAbove(cs, x, n - 1);
    }
  }

  /** A check that passes in the state of the write rules the cycle out. */
  lemma CheckedClosesNoCycle(cs: Cards, op: Op)
    requires Check(cs, op) == Done
    ensures !ClosesCycle(cs, op)
  {
    if op.Attach? {
      forall n: nat
        ensures Ancestor(cs, op.parent, n) != Some(op.child)
      {
        NothingAbove(cs, op.parent, n);
      }
    }
  }

  lemma StepKeepsForest(cs: Cards, op: Op)
    requires Forest(cs) && FreshId(cs, op)
    ensures Forest(After(cs, op))
  {
    if Check(cs, op) == Done {
      CheckedIsWritable(cs, op);
      CheckedClosesNoCycle(cs, op);
      WriteKeepsForestIff(cs, op);
    }
  }

  lemma EmptyForest()
    ensures Forest(map[])
  {
    var none: map<Id, nat> := map[];
    assert Ranked(map[], none);
  }

  /** No run of operations, one after the other, ever makes a card its own ancestor. */
  lemma {:induction false} RunsKeepForest(ops: seq<Op>)
    requires FreshRun(map[], ops)
    ensures Forest(Run(map[], ops))
  {
    if ops == [] {
      EmptyForest();
    } else {
      RunsKeepForest(ops[..|ops| - 1]);
      StepKeepsForest(Run(map[], ops[..|ops| - 1]), ops[|ops| - 1]);
    }
  }

  // ---- Depth 2 ----

  /** Three active cards, each the next one's subcard. */
  ghost predicate Chain3(cs: Cards, x: Id, p: Id, g: Id) {
    Active(cs, x) && Active(cs, p) && Active(cs, g) && Up(cs, x, p) && Up(cs, p, g)
  }

  /** The documented limit: an active subcard's parent is not itself a subcard of an active card. */
  ghost predicate Shallow(cs: Cards) {
    forall x: Id, p: Id, g: Id :: !Chain3(cs, x, p, g)
  }

  /** Every parent exists. */
  ghost predicate Closed(cs: Cards) {
    forall x, p :: Up(cs, x, p) ==> p in cs
  }

  ghost predicate HasActiveParent(cs: Cards, p: Id) {
    exists g: Id :: Up(cs, p, g) && Active(cs, g)
  }

  ghost predicate HasActiveSubcard(cs: Cards, c: Id) {
    exists x: Id :: Active(cs, x) && Up(cs, x, c)
  }

  /** Active, or the card about to be. */
  predicate ActiveWith(cs: Cards, card: Id, x: Id) {
    x == card || Active(cs, x)
  }

  /** The card is not deleted and would, once active, be the lowest, the middle or the top of three. */
  ghost predicate CompletesChain(cs: Cards, card: Id) {
    card in cs && !cs[card].deleted && (WouldBeLowest(cs, card) || WouldBeMiddle(cs, card) || WouldBeTop(cs, card))
  }

  ghost predicate WouldBeLowest(cs: Cards, card: Id) {
    exists p: Id, g: Id :: Up(cs, card, p) && ActiveWith(cs, card, p) && Up(cs, p, g) && ActiveWith(cs, card, g)
  }

  ghost predicate WouldBeMiddle(cs: Cards, card: Id) {
    exists x: Id, g: Id :: ActiveWith(cs, card, x) && Up(cs, x, card) && Up(cs, card, g) && ActiveWith(cs, card, g)
  }

  ghost predicate WouldBeTop(cs: Cards, card: Id) {
    exists x: Id, p: Id :: ActiveWith(cs, card, x) && Up(cs, x, p) && ActiveWith(cs, card, p) && Up(cs, p, card)
  }

  /** The write would make three active cards in a row. */
  ghost predicate Deepens(cs: Cards, op: Op) {
    match op
    case Create(_, under) => under.Some? && Active(cs, under.value) && HasActiveParent(cs, under.value)
    case Attach(p, c) => Active(cs, p) && Active(cs, c) && (c == p || HasActiveParent(cs, p) || HasActiveSubcard(cs, c))
    case Unarchive(card) => CompletesChain(cs, card)
    case _ => false
  }

  /** Giving an active card an active parent makes three exactly when the parent has one or the card has a subcard. */
  lemma HangingKeepsShallowIff(cs: Cards, c: Id, p: Id)
    requires Shallow(cs) && c in cs && p in cs
    ensures Shallow(Reparented(cs, c, Some(p))) <==> !Deepens(cs, Attach(p, c))
  {
    var after := Reparented(cs, c, Some(p));
    if Deepens(cs, Attach(p, c)) {
      HangingDeepens(cs, c, p);
    } else {
      forall x: Id, y: Id, z: Id
        ensures !Chain3(after, x, y, z)
      {
        NoChainThrough(cs, c, p, x, y, z);
      }
    }
  }

  lemma HangingDeepens(cs: Cards, c: Id, p: Id)
    requires Shallow(cs) && c in cs && p in cs && Deepens(cs, Attach(p, c))
    ensures !Shallow(Reparented(cs, c, Some(p)))
  {
    var after := Reparented(cs, c, Some(p));
    if c == p {
      assert Chain3(after, c, c, c);
    } else if HasActiveParent(cs, p) {
      var g: Id :| Up(cs, p, g) && Active(cs, g);
      assert Chain3(after, c, p, g);
    } else {
      var x: Id :| Active(cs, x) && Up(cs, x, c);
      assert !Chain3(cs, x, x, x);
      assert Chain3(after, x, c, p);
    }
  }

  lemma NoChainThrough(cs: Cards, c: Id, p: Id, x: Id, y: Id, z: Id)
    requires Shallow(cs) && c in cs && p in cs && !Deepens(cs, Attach(p, c))
    ensures !Chain3(Reparented(cs, c, Some(p)), x, y, z)
  {
    var after := Reparented(cs, c, Some(p));
    assert !Chain3(cs, x, y, z);
    assert Up(after, x, y) <==> if x == c then y == p else Up(cs, x, y);
    assert Up(after, y, z) <==> if y == c then z == p else Up(cs, y, z);
    if Active(cs, c) && Active(cs, p) {
      assert c != p && !HasActiveParent(cs, p) && !HasActiveSubcard(cs, c);
      assert !(Up(cs, p, z) && Active(cs, z));
      assert !(Active(cs, x) && Up(cs, x, c));
    }
  }

  lemma CreateKeepsShallowIff(cs: Cards, id: Id, under: Option<Id>)
    requires Shallow(cs) && Closed(cs) && id !in cs && (under.Some? ==> under.value in cs)
    ensures Shallow(cs[id := Card(under, false, false)]) <==> !Deepens(cs, Create(id, under))
  {
    var after := cs[id := Card(under, false, false)];
    if Deepens(cs, Create(id, under)) {
      var g: Id :| Up(cs, under.value, g) && Active(cs, g);
      assert Chain3(after, id, under.value, g);
    } else {
      forall x: Id, p: Id, g: Id
        ensures !Chain3(after, x, p, g)
      {
        NoChainFromNew(cs, id, under, x, p, g);
      }
    }
  }

  lemma NoChainFromNew(cs: Cards, id: Id, under: Option<Id>, x: Id, p: Id, g: Id)
    requires Shallow(cs) && Closed(cs) && id !in cs && (under.Some? ==> under.value in cs)
    requires !Deepens(cs, Create(id, under))
    ensures !Chain3(cs[id := Card(under, false, false)], x, p, g)
  {
    assert !Chain3(cs, x, p, g);
    assert !Up(cs, x, id) && !Up(cs, p, id);
    if under == Some(p) && Active(cs, p) && Up(cs, p, g) {
      assert !HasActiveParent(cs, p);
      assert !Active(cs, g);
    }
  }

  lemma ShallowOfFewer(cs: Cards, after: Cards)
    requires Shallow(cs)
    requires forall x :: Active(after, x) ==> Active(cs, x)
    requires forall x, p :: Up(after, x, p) ==> Up(cs, x, p)
    ensures Shallow(after)
  {
    forall x: Id, p: Id, g: Id
      ensures !Chain3(after, x, p, g)
    {
      assert !Chain3(cs, x, p, g);
    }
  }

  lemma UnarchiveKeepsIff(cs: Cards, card: Id)
    requires Shallow(cs) && card in cs
    ensures Shallow(Written(cs, Unarchive(card))) <==> !CompletesChain(cs, card)
  {
    var after := Written(cs, Unarchive(card));
    if cs[card].deleted {
      ShallowOfFewer(cs, after);
    } else {
      assert forall x: Id, p: Id :: Up(after, x, p) <==> Up(cs, x, p);
      assert forall x: Id :: Active(after, x) <==> ActiveWith(cs, card, x);
      forall x: Id, p: Id, g: Id
        ensures Chain3(after, x, p, g) ==> CompletesChain(cs, card)
      {
        assert !Chain3(cs, x, p, g);
      }
      ChainIfCompleted(cs, card, after);
    }
  }

  lemma ChainIfCompleted(cs: Cards, card: Id, after: Cards)
    requires CompletesChain(cs, card) ==> card in cs && after == Written(cs, Unarchive(card))
    ensures CompletesChain(cs, card) ==> !Shallow(after)
  {
    if CompletesChain(cs, card) {
      if WouldBeLowest(cs, card) {
        var p: Id, g: Id :| Up(cs, card, p) && ActiveWith(cs, card, p) && Up(cs, p, g) && ActiveWith(cs, card, g);
        assert Chain3(after, card, p, g);
      } else if WouldBeMiddle(cs, card) {
        var x: Id, g: Id :| ActiveWith(cs, card, x) && Up(cs, x, card) && Up(cs, card, g) && ActiveWith(cs, card, g);
        assert Chain3(after, x, card, g);
      } else {
        var x: Id, p: Id :| ActiveWith(cs, card, x) && Up(cs, x, p) && ActiveWith(cs, card, p) && Up(cs, p, card);
        assert Chain3(after, x, p, card);
      }
    }
  }

  /** A write keeps the limit exactly when it does not make three active cards in a row. */
  lemma WriteKeepsShallowIff(cs: Cards, op: Op)
    requires Shallow(cs) && Closed(cs) && Writable(cs, op) && FreshId(cs, op)
    ensures Shallow(Written(cs, op)) <==> !Deepens(cs, op)
  {
    var after := Written(cs, op);
    match op
    case Create(id, under) => CreateKeepsShallowIff(cs, id, under);
    case Attach(parent, child) => HangingKeepsShallowIff(cs, child, parent);
    case Detach(_) => ShallowOfFewer(cs, after);
    case Archive(_) => ShallowOfFewer(cs, after);
    case Unarchive(card) => UnarchiveKeepsIff(cs, card);
    case Delete(_) => ShallowOfFewer(cs, after);
  }

  lemma NoActiveSubcards(cs: Cards, p: Id)
    requires |ActiveSubcards(cs, p)| == 0
    ensures !HasActiveSubcard(cs, p)
  {
    assert ActiveSubcards(cs, p) == {};
    assert forall x: Id :: x in ActiveSubcards(cs, p) <==> Active(cs, x) && Up(cs, x, p);
  }

  /** A check that passes in the state of the write rules three in a row out, except for restores. */
  lemma CheckedDeepensNot(cs: Cards, op: Op)
    requires Check(cs, op) == Done && !op.Unarchive?
    ensures !Deepens(cs, op)
  {
    if op.Attach? {
      NoActiveSubcards(cs, op.child);
    }
  }

  lemma ForestIsClosed(cs: Cards)
    requires Forest(cs)
    ensures Closed(cs)
  {
    var height: map<Id, nat> :| Ranked(cs, height);
  }

  /** Uninterrupted, an operation keeps the limit exactly when it does not restore a card into a chain of three. */
  lemma StepKeepsShallowIff(cs: Cards, op: Op)
    requires Shallow(cs) && Forest(cs) && FreshId(cs, op)
    ensures Shallow(After(cs, op)) <==> !(op.Unarchive? && CompletesChain(cs, op.card))
  {
    ForestIsClosed(cs);
    if Check(cs, op) == Done {
      CheckedIsWritable(cs, op);
      WriteKeepsShallowIff(cs, op);
      if !op.Unarchive? {
        CheckedDeepensNot(cs, op);
      }
    }
  }

  ghost predicate NoRestores(ops: seq<Op>) {
    forall op :: op in ops ==> !op.Unarchive?
  }

  /** One after the other and without restores, operations keep the documented limit. */
  lemma {:induction false} RunsWithoutRestoresAreShallow(ops: seq<Op>)
    requires FreshRun(map[], ops) && NoRestores(ops)
    ensures Shallow(Run(map[], ops))
  {
    if ops != [] {
      var init := ops[..|ops| - 1];
      assert forall op :: op in init ==> op in ops;
      RunsWithoutRestoresAreShallow(init);
      RunsKeepForest(init);
      assert !ops[|ops| - 1].Unarchive?;
      StepKeepsShallowIff(Run(map[], init), ops[|ops| - 1]);
    }
  }

  // ---- Any depth is reachable ----

  function Floor(i: nat, n: nat): Card {
    Card(if i + 1 < n then Some(i + 1) else None, false, false)
  }

  /** `n` active cards, each card's parent the next one. */
  function Tower(n: nat): Cards {
    map i: nat | i < n :: Floor(i, n)
  }

  lemma {:induction false} RunAppends(cs: Cards, ops: seq<Op>, op: Op)
    ensures Run(cs, ops + [op]) == After(Run(cs, ops), op)
    ensures FreshRun(cs, ops + [op]) <==> FreshRun(cs, ops) && FreshId(Run(cs, ops), op)
  {
    assert (ops + [op])[..|ops|] == ops;
  }

  lemma ArchiveSecond(n: nat) returns (cs: Cards)
    requires n >= 2
    ensures cs == Tower(n)[n - 2 := Card(Some(n - 1), true, false)] == After(Tower(n), Archive(n - 2))
  {
    cs := After(Tower(n), Archive(n - 2));
  }

  lemma HangTop(n: nat)
    requires n >= 2
    ensures var cs := Tower(n)[n - 2 := Card(Some(n - 1), true, false)][n := Card(None, false, false)];
      After(cs, Attach(n, n - 1)) == Reparented(cs, n - 1, Some(n))
  {
    var cs := Tower(n)[n - 2 := Card(Some(n - 1), true, false)][n := Card(None, false, false)];
    forall x | x in cs && Active(cs, x)
      ensures !Up(cs, x, n - 1)
    {
    }
    assert ActiveSubcards(cs, n - 1) == {};
  }

  lemma RaisedTower(n: nat)
    requires n >= 2
    ensures var cs := Tower(n)[n - 2 := Card(Some(n - 1), true, false)][n := Card(None, false, false)];
      After(Reparented(cs, n - 1, Some(n)), Unarchive(n - 2)) == Tower(n + 1)
  {
  }

  /** The four operations put one more level on an active chain of any height. */
  lemma OneLevelMore(ops: seq<Op>, n: nat) returns (more: seq<Op>)
    requires n >= 2 && FreshRun(map[], ops) && Run(map[], ops) == Tower(n)
    ensures FreshRun(map[], more) && Run(map[], more) == Tower(n + 1)
  {
    var cs := ArchiveSecond(n);
    var ops1 := ops + [Archive(n - 2)];
    RunAppends(map[], ops, Archive(n - 2));
    var ops2 := ops1 + [Create(n, None)];
    RunAppends(map[], ops1, Create(n, None));
    HangTop(n);
    var ops3 := ops2 + [Attach(n, n - 1)];
    RunAppends(map[], ops2, Attach(n, n - 1));
    RaisedTower(n);
    more := ops3 + [Unarchive(n - 2)];
    RunAppends(map[], ops3, Unarchive(n - 2));
  }

  lemma TwoLevels() returns (ops: seq<Op>)
    ensures FreshRun(map[], ops) && Run(map[], ops) == Tower(2)
  {
    RunAppends(map[], [], Create(1, None));
    RunAppends(map[], [Create(1, None)], Create(0, Some(1)));
    ops := [Create(1, None)] + [Create(0, Some(1))];
    assert Run(map[], ops) == Tower(2);
  }

  /** For every depth some run of successful operations ends with an active chain that deep. */
  lemma AnyDepthIsReachable(n: nat) returns (ops: seq<Op>)
    requires n >= 2
    ensures FreshRun(map[], ops) && IsChain(Run(map[], ops), n)
  {
    ops := TowerIsReachable(n);
    TowerIsChain(n);
  }

  /** Cards 0 to n - 1 are active, each the subcard of the next. */
  ghost predicate IsChain(cs: Cards, n: nat) {
    && (forall i: nat :: i < n ==> Active(cs, i))
    && forall i: nat, j: nat :: j == i + 1 && j < n ==> Up(cs, i, j)
  }

  lemma TowerIsChain(n: nat)
    ensures IsChain(Tower(n), n)
  {
  }

  lemma {:induction false} TowerIsReachable(n: nat) returns (ops: seq<Op>)
    requires n >= 2
    ensures FreshRun(map[], ops) && Run(map[], ops) == Tower(n)
  {
    if n == 2 {
      ops := TwoLevels();
    } else {
      var lower := TowerIsReachable(n - 1);
      ops := OneLevelMore(lower, n - 1);
    }
  }

  /** Depth 3 is reachable, so the documented limit does not hold. */
  lemma DepthLimitFails() returns (ops: seq<Op>)
    ensures FreshRun(map[], ops) && !Shallow(Run(map[], ops))
  {
    ops := AnyDepthIsReachable(3);
    assert Chain3(Run(map[], ops), 0, 1, 2);
  }
}
