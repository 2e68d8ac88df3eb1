/**
 * `consumeOnce`: at most one delivery of a message is handled per window, over any interleaving of consumers.
 *
 * Runs also contain the release of a key that the consumers issue before they schedule a retry.
 */
module ConsumeOnce {
  import opened RedisStore

  const PREFIX: string := "msg:processed:"

  function Key(id: string): string {
    PREFIX + id
  }

  method Consume(redis: Redis, id: string, ttl: Seconds, now: int) returns (first: bool)
    modifies redis
    ensures first == !Live(old(redis.store), Key(id), now)
    ensures redis.store == WithNx(old(redis.store), Key(id), "1", ttl, now)
  {
    first := redis.SetNx(PREFIX + id, "1", ttl, now);
  }

  method ReleaseKey(redis: Redis, id: string)
    modifies redis
    ensures redis.store == old(redis.store) - {Key(id)}
  {
    redis.Del(PREFIX + id);
  }

  datatype Op = Consumes(at: int, id: string, ttl: Seconds) | Releases(at: int, id: string)

  /** The store after the first `n` operations of a run that starts with an empty Redis. */
  function After(ops: seq<Op>, n: nat): Store
    requires n <= |ops|
  {
    if n == 0 then map[]
    else
      var before := After(ops, n - 1);
      match ops[n - 1]
      case Consumes(at, id, ttl) => WithNx(before, Key(id), "1", ttl, at)
      case Releases(_, id) => before - {Key(id)}
  }

  /** The i-th operation is a `consumeOnce` that returned true. */
  predicate Wins(ops: seq<Op>, i: nat)
    requires i < |ops|
  {
    ops[i].Consumes? && !Live(After(ops, i), Key(ops[i].id), ops[i].at)
  }

  ghost predicate InOrder(ops: seq<Op>) {
    forall i, j :: 0 <= i < j < |ops| ==> ops[i].at <= ops[j].at
  }

  predicate IsRelease(op: Op, id: string) {
    op.Releases? && op.id == id
  }

  ghost predicate ReleasedBetween(ops: seq<Op>, j: nat, i: nat, id: string)
    requires i <= |ops|
  {
    exists k :: j < k < i && IsRelease(ops[k], id)
  }

  /** Some earlier winner's window still covers time `t` at position `i`. */
  ghost predicate Covers(ops: seq<Op>, j: nat, i: nat, id: string, t: int)
    requires i <= |ops|
  {
    && j < i && Wins(ops, j) && ops[j].id == id && !ReleasedBetween(ops, j, i, id)
    && t < ops[j].at + 1000 * ops[j].ttl
  }

  ghost predicate WindowOpen(ops: seq<Op>, i: nat, id: string, t: int)
    requires i <= |ops|
  {
    exists j: nat :: Covers(ops, j, i, id, t)
  }

  lemma ReleasedStep(ops: seq<Op>, j: nat, n: nat, id: string)
    requires j + 1 < n <= |ops|
    ensures ReleasedBetween(ops, j, n, id) <==> ReleasedBetween(ops, j, n - 1, id) || IsRelease(ops[n - 1], id)
  {
  }

  /** While a winner's window lasts its key is in Redis, with the winner's expiry. */
  lemma {:induction false} WindowHoldsTheKey(ops: seq<Op>, j: nat, n: nat, id: string, t: int)
    requires InOrder(ops) && n <= |ops| && Covers(ops, j, n, id, t)
    requires forall k :: 0 <= k < n ==> ops[k].at <= t
    ensures Live(After(ops, n), Key(id), t)
    ensures After(ops, n)[Key(id)].expires == ops[j].at + 1000 * ops[j].ttl
  {
    var op := ops[n - 1];
    if j < n - 1 {
      ReleasedStep(ops, j, n, id);
      WindowHoldsTheKey(ops, j, n - 1, id, t);
      PrefixedKeysDiffer(PREFIX, id, op.id);
    }
  }

  /** Whatever key is live in Redis was put there by a winner whose window is still open. */
  lemma {:induction false} KeyComesFromAWinner(ops: seq<Op>, n: nat, id: string, t: int) returns (j: nat)
    requires n <= |ops| && Live(After(ops, n), Key(id), t)
    ensures Covers(ops, j, n, id, t)
  {
    var op := ops[n - 1];
    PrefixedKeysDiffer(PREFIX, id, op.id);
    if op.id == id && op.Consumes? && Wins(ops, n - 1) {
      j := n - 1;
    } else {
      j := KeyComesFromAWinner(ops, n - 1, id, t);
      ReleasedStep(ops, j, n, id);
    }
  }

  /** A call returns true exactly when no earlier winner of the same id still has its window open. */
  lemma WinsIff(ops: seq<Op>, i: nat)
    requires InOrder(ops) && i < |ops| && ops[i].Consumes?
    ensures Wins(ops, i) <==> !WindowOpen(ops, i, ops[i].id, ops[i].at)
  {
    var id, t := ops[i].id, ops[i].at;
    if Live(After(ops, i), Key(id), t) {
      var j := KeyComesFromAWinner(ops, i, id, t);
    } else if WindowOpen(ops, i, id, t) {
      var j: nat :| Covers(ops, j, i, id, t);
      WindowHoldsTheKey(ops, j, i, id, t);
      assert false;
    }
  }

  /** Two winners of one id are the first one's ttl apart, unless the key was released in between. */
  lemma WinnersAreATtlApart(ops: seq<Op>, j: nat, i: nat)
    requires InOrder(ops) && j < i < |ops| && Wins(ops, j) && Wins(ops, i) && ops[j].id == ops[i].id
    requires !ReleasedBetween(ops, j, i, ops[i].id)
    ensures ops[i].at >= ops[j].at + 1000 * ops[j].ttl
  {
    WinsIff(ops, i);
    assert Covers(ops, j, i, ops[i].id, ops[i].at) <==> ops[i].at < ops[j].at + 1000 * ops[j].ttl;
  }

  /** Releasing the key inside the window lets the very next call win: the retry is not lost. */
  lemma RetryAfterRelease(ops: seq<Op>, r: nat, i: nat)
    requires InOrder(ops) && r < i < |ops| && ops[i].Consumes? && IsRelease(ops[r], ops[i].id)
    requires forall k :: r < k < i ==> ops[k].id != ops[i].id
    ensures Wins(ops, i)
  {
    WinsIff(ops, i);
  }

  // ---- Ids do not interfere ----

  function Only(ops: seq<Op>, id: string): seq<Op> {
    if ops == [] then []
    else Only(ops[..|ops| - 1], id) + (if ops[|ops| - 1].id == id then [ops[|ops| - 1]] else [])
  }

  lemma {:induction false} AfterPrefix(ops: seq<Op>, more: seq<Op>, n: nat)
    requires n <= |ops|
    ensures After(ops + more, n) == After(ops, n)
  {
    if n > 0 {
      AfterPrefix(ops, more, n - 1);
      assert (ops + more)[n - 1] == ops[n - 1];
    }
  }

  /** What the store says about one id is what it would say had only that id's operations run. */
  lemma {:induction false} IdsDoNotInterfere(ops: seq<Op>, id: string)
    ensures Key(id) in After(ops, |ops|) <==> Key(id) in After(Only(ops, id), |Only(ops, id)|)
    ensures Key(id) in After(ops, |ops|) ==>
      After(ops, |ops|)[Key(id)] == After(Only(ops, id), |Only(ops, id)|)[Key(id)]
  {
    if ops != [] {
      var init, last := ops[..|ops| - 1], ops[|ops| - 1];
      IdsDoNotInterfere(init, id);
      assert init + [last] == ops;
      AfterPrefix(init, [last], |init|);
      PrefixedKeysDiffer(PREFIX, id, last.id);
      if last.id == id {
        AfterPrefix(Only(init, id), [last], |Only(init, id)|);
      } else {
        assert Only(ops, id) == Only(init, id);
      }
    }
  }
}
