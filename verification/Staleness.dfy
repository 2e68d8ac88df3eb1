/**
 * The board page's stale-event filter: a map from card to the last `updatedAt` it let through.
 *
 * With parseable timestamps the map ends as the per-card maximum whatever the order of events. A timestamp that
 * does not parse becomes NaN, which compares as not older than anything: that is exactly what breaks it.
 */
module Staleness {
  import opened Options

  type CardId = string

  /** `updatedAt`: missing or empty, a string `new Date` cannot parse, or an instant in milliseconds. */
  datatype Stamp = Absent | Unparsable | At(ms: int)

  /** The fields the handler reads; a missing id is the empty string. */
  datatype Payload = Payload(cardId: CardId, id: CardId, updatedAt: Stamp, changesUpdatedAt: Stamp) {
    function Card(): CardId {
      if cardId != "" then cardId else id
    }

    function Stamped(): Stamp {
      if updatedAt != Absent then updatedAt else changesUpdatedAt
    }
  }

  /** What a socket delivers: anything but an object is None. */
  type Event = Option<Payload>
  type LastSeen = map<CardId, Stamp>

  predicate Tracked(e: Event) {
    e.Some? && e.value.Card() != "" && e.value.Stamped() != Absent
  }

  predicate About(e: Event, c: CardId) {
    Tracked(e) && e.value.Card() == c
  }

  /** `new Date(a).getTime() <= new Date(b).getTime()`: false when either is NaN. */
  predicate NotNewer(a: Stamp, b: Stamp) {
    a.At? && b.At? && a.ms <= b.ms
  }

  predicate Stale(seen: LastSeen, e: Event) {
    Tracked(e) && e.value.Card() in seen && NotNewer(e.value.Stamped(), seen[e.value.Card()])
  }

  function Noted(seen: LastSeen, e: Event): LastSeen {
    if Tracked(e) && !Stale(seen, e) then seen[e.value.Card() := e.value.Stamped()] else seen
  }

  class BoardSubscription {
    var lastUpdatedAt: LastSeen
    var boardIsActive: bool
    var hasViewUpdates: bool
    var loads: nat

    constructor (boardIsActive: bool)
      ensures lastUpdatedAt == map[] && loads == 0 && !hasViewUpdates && this.boardIsActive == boardIsActive
    {
      lastUpdatedAt, loads, hasViewUpdates, this.boardIsActive := map[], 0, false, boardIsActive;
    }

    method OnEntityEvent(payload: Event)
      modifies this`lastUpdatedAt, this`hasViewUpdates, this`loads
      ensures lastUpdatedAt == Noted(old(lastUpdatedAt), payload)
      ensures loads == old(loads) + if !Stale(old(lastUpdatedAt), payload) && boardIsActive then 1 else 0
      ensures hasViewUpdates == (old(hasViewUpdates) || (!Stale(old(lastUpdatedAt), payload) && !boardIsActive))
    {
      if payload.Some? {
        var p := payload.value;
        var cId := p.Card();
        var updatedAt := p.Stamped();
        if cId != "" && updatedAt != Absent {
          if cId in lastUpdatedAt && NotNewer(updatedAt, lastUpdatedAt[cId]) {
            return;
          }
          lastUpdatedAt := lastUpdatedAt[cId := updatedAt];
        }
      }
      if boardIsActive {
        loads := loads + 1;
      } else {
        hasViewUpdates := true;
      }
    }
  }

  // ---- Runs ----

  function After(es: seq<Event>): LastSeen {
    if es == [] then map[] else Noted(After(es[..|es| - 1]), es[|es| - 1])
  }

  /** The i-th event passed the filter. */
  predicate Passed(es: seq<Event>, i: nat)
    requires i < |es|
  {
    !Stale(After(es[..i]), es[i])
  }

  ghost predicate Parsable(es: seq<Event>, c: CardId) {
    forall e :: e in es && About(e, c) ==> e.value.Stamped().At?
  }

  ghost predicate NeverParsable(es: seq<Event>, c: CardId) {
    forall e :: e in es && About(e, c) ==> e.value.Stamped() == Unparsable
  }

  ghost predicate Mentioned(es: seq<Event>, c: CardId) {
    exists e :: e in es && About(e, c)
  }

  /** `m` is the latest instant an event about the card carries. */
  ghost predicate IsLatest(es: seq<Event>, c: CardId, m: int) {
    && (exists e :: e in es && About(e, c) && e.value.Stamped() == At(m))
    && forall e :: e in es && About(e, c) ==> e.value.Stamped().At? && e.value.Stamped().ms <= m
  }

  lemma LastIsSplit(es: seq<Event>)
    requires es != []
    ensures forall e :: e in es <==> e in es[..|es| - 1] || e == es[|es| - 1]
  {
    assert es == es[..|es| - 1] + [es[|es| - 1]];
  }

  /** A card is in the map once an event was about it. */
  lemma {:induction false} SeenIffMentioned(es: seq<Event>, c: CardId)
    ensures c in After(es) <==> Mentioned(es, c)
    ensures c in After(es) ==> After(es)[c] != Absent
  {
    if es != [] {
      LastIsSplit(es);
      SeenIffMentioned(es[..|es| - 1], c);
      assert Mentioned(es, c) <==> Mentioned(es[..|es| - 1], c) || About(es[|es| - 1], c);
    }
  }

  /** With parseable timestamps the map holds the card's latest instant. */
  lemma {:induction false} SeenIsLatest(es: seq<Event>, c: CardId)
    requires Parsable(es, c) && c in After(es)
    ensures After(es)[c].At? && IsLatest(es, c, After(es)[c].ms)
  {
    var init, last := es[..|es| - 1], es[|es| - 1];
    LastIsSplit(es);
    SeenIffMentioned(init, c);
    if c in After(init) {
      SeenIsLatest(init, c);
    }
    if About(last, c) {
      assert last in es && last.value.Stamped().At?;
    }
  }

  /** Without any, it holds something that compares with nothing. */
  lemma {:induction false} SeenIsUnparsable(es: seq<Event>, c: CardId)
    requires NeverParsable(es, c) && c in After(es)
    ensures After(es)[c] == Unparsable
  {
    LastIsSplit(es);
    if c in After(es[..|es| - 1]) {
      SeenIsUnparsable(es[..|es| - 1], c);
    }
  }

  /** Timestamps that pass the filter strictly increase per card. */
  lemma PassedStampsIncrease(es: seq<Event>, i: nat, j: nat, c: CardId)
    requires i < j < |es| && Parsable(es, c) && About(es[i], c) && About(es[j], c) && Passed(es, j)
    ensures es[i].value.Stamped().ms < es[j].value.Stamped().ms
  {
    var before := es[..j];
    assert es[i] in before && es[j] in es;
    assert forall e :: e in before ==> e in es;
    SeenIffMentioned(before, c);
    SeenIsLatest(before, c);
  }

  /** With parseable timestamps an event passes exactly when every earlier one about its card is strictly older. */
  lemma PassedIff(es: seq<Event>, j: nat, c: CardId)
    requires j < |es| && Parsable(es, c) && About(es[j], c)
    ensures Passed(es, j) <==>
      forall i :: 0 <= i < j && About(es[i], c) ==> es[i].value.Stamped().ms < es[j].value.Stamped().ms
  {
    var before := es[..j];
    assert es[j] in es && forall e :: e in before ==> e in es;
    SeenIffMentioned(before, c);
    if c in After(before) {
      SeenIsLatest(before, c);
      var m := After(before)[c].ms;
      var latest :| latest in before && About(latest, c) && latest.value.Stamped() == At(m);
      var k :| 0 <= k < j && before[k] == latest;
      assert es[k] == latest;
      assert forall i :: 0 <= i < j ==> es[i] == before[i] && es[i] in before;
    } else {
      assert forall i :: 0 <= i < j ==> es[i] == before[i] && es[i] in before;
    }
  }

  /** The card is `cardId`, or else `id`; the time is `updatedAt`, or else that of `changes`; without either nothing is noted. */
  lemma NotedIs(seen: LastSeen, p: Payload)
    ensures p.cardId == "" && p.id == "" ==> Noted(seen, Some(p)) == seen
    ensures p.updatedAt == Absent && p.changesUpdatedAt == Absent ==> Noted(seen, Some(p)) == seen
    ensures var card := if p.cardId == "" then p.id else p.cardId;
      var stamp := if p.updatedAt == Absent then p.changesUpdatedAt else p.updatedAt;
      card != "" && stamp != Absent && (card !in seen || stamp == Unparsable || seen[card] == Unparsable) ==>
        Noted(seen, Some(p)) == seen[card := stamp]
    ensures Noted(seen, None) == seen
  {
  }

  // ---- Orders of events ----

  ghost predicate Permutation(p: seq<Event>, es: seq<Event>) {
    multiset(p) == multiset(es)
  }

  ghost predicate OrderIndependent(es: seq<Event>) {
    forall p :: Permutation(p, es) ==> After(p) == After(es)
  }

  /** No card gets both parseable and unparseable timestamps. */
  ghost predicate Unmixed(es: seq<Event>) {
    forall c :: UnmixedFor(es, c)
  }

  ghost predicate UnmixedFor(es: seq<Event>, c: CardId) {
    Parsable(es, c) || NeverParsable(es, c)
  }

  lemma SameMembers(p: seq<Event>, es: seq<Event>)
    requires Permutation(p, es)
    ensures forall e :: e in p <==> e in es
  {
    assert forall e :: e in p <==> e in multiset(p);
    assert forall e :: e in es <==> e in multiset(es);
  }

  lemma SameForCard(p: seq<Event>, es: seq<Event>, c: CardId)
    requires (forall e :: e in p <==> e in es) && UnmixedFor(es, c)
    ensures c in After(p) <==> c in After(es)
    ensures c in After(es) ==> After(p)[c] == After(es)[c]
  {
    SeenIffMentioned(p, c);
    SeenIffMentioned(es, c);
    if c in After(es) {
      if Parsable(es, c) {
        SeenIsLatest(p, c);
        SeenIsLatest(es, c);
      } else {
        SeenIsUnparsable(p, c);
        SeenIsUnparsable(es, c);
      }
    }
  }

  function MovedLast(es: seq<Event>, i: nat): seq<Event>
    requires i < |es|
  {
    es[..i] + es[i + 1..] + [es[i]]
  }

  lemma MovedLastIsPermutation(es: seq<Event>, i: nat)
    requires i < |es|
    ensures Permutation(MovedLast(es, i), es)
  {
    assert es == es[..i] + [es[i]] + es[i + 1..];
  }

  /** Whether the card ends with an instant is decided by the last event about it. */
  lemma LastDecides(es: seq<Event>, i: nat, c: CardId)
    requires i < |es| && About(es[i], c)
    ensures var p := MovedLast(es, i); c in After(p) && (After(p)[c].At? <==> es[i].value.Stamped().At?)
  {
    var p := MovedLast(es, i);
    assert p[..|p| - 1] == es[..i] + es[i + 1..];
    assert p[|p| - 1] == es[i];
    SeenIffMentioned(p[..|p| - 1], c);
  }

  /** The final map does not depend on the order of events exactly when no card mixes the two kinds of timestamp. */
  lemma OrderIndependentIff(es: seq<Event>)
    ensures OrderIndependent(es) <==> Unmixed(es)
  {
    if Unmixed(es) {
      forall p | Permutation(p, es)
        ensures After(p) == After(es)
      {
        SameMembers(p, es);
        forall c
          ensures c in After(p) <==> c in After(es)
          ensures c in After(es) ==> After(p)[c] == After(es)[c]
        {
          assert UnmixedFor(es, c);
          SameForCard(p, es, c);
        }
      }
    } else {
      var c :| !UnmixedFor(es, c);
      var d :| d in es && About(d, c) && !d.value.Stamped().At?;
      var e :| e in es && About(e, c) && e.value.Stamped() != Unparsable;
      var i: nat :| i < |es| && es[i] == d;
      var j: nat :| j < |es| && es[j] == e;
      LastDecides(es, i, c);
      LastDecides(es, j, c);
      MovedLastIsPermutation(es, i);
      MovedLastIsPermutation(es, j);
      assert After(MovedLast(es, i)) != After(MovedLast(es, j));
    }
  }

  /** One card, one timestamp that parses and one that does not: the order decides what is remembered. */
  lemma OrderMatters(c: CardId, ms: int)
    requires c != ""
    ensures var good, bad := Some(Payload(c, "", At(ms), Absent)), Some(Payload(c, "", Unparsable, Absent));
      && Permutation([bad, good], [good, bad])
      && After([good, bad]) == map[c := Unparsable] && After([bad, good]) == map[c := At(ms)]
  {
    var good, bad := Some(Payload(c, "", At(ms), Absent)), Some(Payload(c, "", Unparsable, Absent));
    assert [good, bad][..1] == [good] && [good][..0] == [];
    assert [bad, good][..1] == [bad] && [bad][..0] == [];
    assert After([good]) == map[c := At(ms)] && After([bad]) == map[c := Unparsable];
  }
}
