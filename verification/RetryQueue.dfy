/**
 * Delayed retries through wait queues: the queue's name, its arguments, and what a run of requests leaves behind.
 *
 * A name can be parsed back from the right, so it determines exchange, sanitised key and delay. It does not
 * determine the routing key: two keys that sanitise alike ask for one queue with different arguments.
 */
module RetryQueue {
  import opened Options

  const PREFIX: string := "retry.wait."

  // ---- Names ----

  predicate IsWord(c: char) {
    'a' <= c <= 'z' || 'A' <= c <= 'Z' || '0' <= c <= '9' || c == '_' || c == '-'
  }

  function SanitizeChar(c: char): char {
    if IsWord(c) then c else '_'
  }

  /** `replace(/[^a-zA-Z0-9_-]/g, '_')`. */
  function Sanitize(key: string): string {
    seq(|key|, i requires 0 <= i < |key| => SanitizeChar(key[i]))
  }

  /** Decimal digits, letters, "_" and "-" by their character codes stay, anything else becomes "_", each in its place. */
  lemma SanitizedIs(key: string)
    ensures |Sanitize(key)| == |key|
    ensures forall i :: 0 <= i < |key| ==>
      var code := key[i] as int;
      Sanitize(key)[i] ==
        if 48 <= code <= 57 || 65 <= code <= 90 || 97 <= code <= 122 || code == 45 then key[i] else '_'
  {
  }

  function Digit(d: nat): char
    requires d < 10
  {
    '0' + d as char
  }

  function Decimal(n: nat): (s: string)
    ensures s != []
  {
    if n < 10 then [Digit(n)] else Decimal(n / 10) + [Digit(n % 10)]
  }

  predicate IsDigit(c: char) {
    '0' <= c <= '9'
  }

  /** What a digit string is worth; anything else is no delay. */
  function Value(s: string): Option<nat> {
    if s == [] || !IsDigit(s[|s| - 1]) then None
    else if |s| == 1 then Some((s[0] - '0') as nat)
    else
      match Value(s[..|s| - 1])
      case None => None
      case Some(v) => Some(10 * v + (s[|s| - 1] - '0') as nat)
  }

  function QueueName(exchange: string, key: string, delay: nat): string {
    PREFIX + exchange + "." + Sanitize(key) + "." + Decimal(delay)
  }

  function LastDot(s: string): (i: int)
    ensures -1 <= i < |s|
  {
    if s == [] then -1 else if s[|s| - 1] == '.' then |s| - 1 else LastDot(s[..|s| - 1])
  }

  datatype Route = Route(exchange: string, sanitizedKey: string, delay: nat)

  /** Reads a name from the right: the delay, the key, and the rest, whatever dots it has, as the exchange. */
  function ParseName(name: string): Option<Route> {
    var i := LastDot(name);
    if i < 0 then None
    else
      var j := LastDot(name[..i]);
      if j < |PREFIX| || name[..|PREFIX|] != PREFIX || Value(name[i + 1..]).None? then None
      else Some(Route(name[|PREFIX|..j], name[j + 1..i], Value(name[i + 1..]).value))
  }

  lemma {:induction false} ValueOfDecimal(n: nat)
    ensures Value(Decimal(n)) == Some(n)
  {
    if n >= 10 {
      var s := Decimal(n);
      assert s[..|s| - 1] == Decimal(n / 10);
      ValueOfDecimal(n / 10);
    }
  }

  lemma {:induction false} DecimalHasNoDot(n: nat)
    ensures '.' !in Decimal(n)
  {
    if n >= 10 {
      DecimalHasNoDot(n / 10);
    }
  }

  lemma SanitizedHasNoDot(key: string)
    ensures '.' !in Sanitize(key)
  {
  }

  lemma {:induction false} LastDotIs(a: string, b: string)
    requires '.' !in b
    ensures LastDot(a + "." + b) == |a|
  {
    var s := a + "." + b;
    if b == [] {
      assert s[|s| - 1] == '.';
    } else {
      assert s[|s| - 1] == b[|b| - 1];
      assert s[..|s| - 1] == a + "." + b[..|b| - 1];
      LastDotIs(a, b[..|b| - 1]);
    }
  }

  lemma Pieces(p: string, e: string, k: string, d: string)
    requires '.' !in k && '.' !in d
    ensures var name := p + e + "." + k + "." + d;
      var i, j := |p| + |e| + 1 + |k|, |p| + |e|;
      LastDot(name) == i && LastDot(name[..i]) == j && name[..|p|] == p && name[|p|..j] == e && name[j + 1..i] == k && name[i + 1..] == d
  {
    var name := p + e + "." + k + "." + d;
    var front := p + e + "." + k;
    LastDotIs(front, d);
    assert name == front + "." + d;
    assert name[..|front|] == front;
    LastDotIs(p + e, k);
    assert front == (p + e) + "." + k;
  }

  /** Round trip: parsing a name gives back the exchange, the sanitised key and the delay. */
  lemma NamesParseBack(exchange: string, key: string, delay: nat)
    ensures ParseName(QueueName(exchange, key, delay)) == Some(Route(exchange, Sanitize(key), delay))
  {
    SanitizedHasNoDot(key);
    DecimalHasNoDot(delay);
    ValueOfDecimal(delay);
    Pieces(PREFIX, exchange, Sanitize(key), Decimal(delay));
  }

  /** Two requests share a queue exactly when exchange, sanitised key and delay agree. */
  lemma SameNameIff(e: string, k: string, d: nat, e': string, k': string, d': nat)
    ensures QueueName(e, k, d) == QueueName(e', k', d') <==> e == e' && Sanitize(k) == Sanitize(k') && d == d'
  {
    NamesParseBack(e, k, d);
    NamesParseBack(e', k', d');
  }

  // ---- Which keys stay apart ----

  predicate Over(key: string, alphabet: set<char>) {
    forall c :: c in key ==> c in alphabet
  }

  /** At most one character of the alphabet is written as '_'. */
  ghost predicate Faithful(alphabet: set<char>) {
    forall c, d :: c in alphabet && d in alphabet && SanitizeChar(c) == '_' && SanitizeChar(d) == '_' ==> c == d
  }

  ghost predicate KeysStayApart(alphabet: set<char>) {
    forall k, k' :: Over(k, alphabet) && Over(k', alphabet) && Sanitize(k) == Sanitize(k') ==> k == k'
  }

  lemma SanitizedAt(key: string, i: nat)
    requires i < |key|
    ensures |Sanitize(key)| == |key| && Sanitize(key)[i] == SanitizeChar(key[i])
  {
  }

  lemma FaithfulKeys(alphabet: set<char>, k: string, k': string)
    requires Faithful(alphabet) && Over(k, alphabet) && Over(k', alphabet) && Sanitize(k) == Sanitize(k')
    ensures k == k'
  {
    assert |k| == |Sanitize(k)| == |Sanitize(k')| == |k'|;
    forall i: nat | i < |k|
      ensures k[i] == k'[i]
    {
      SanitizedAt(k, i);
      SanitizedAt(k', i);
      assert k[i] in k && k'[i] in k';
    }
  }

  /** Sanitising loses nothing over an alphabet iff at most one of its characters turns into '_'. */
  lemma KeysStayApartIff(alphabet: set<char>)
    ensures KeysStayApart(alphabet) <==> Faithful(alphabet)
  {
    if Faithful(alphabet) {
      forall k, k' | Over(k, alphabet) && Over(k', alphabet) && Sanitize(k) == Sanitize(k')
        ensures k == k'
      {
        FaithfulKeys(alphabet, k, k');
      }
    }
    if KeysStayApart(alphabet) {
      forall c, d | c in alphabet && d in alphabet && SanitizeChar(c) == '_' && SanitizeChar(d) == '_'
        ensures c == d
      {
        assert Over([c], alphabet) && Over([d], alphabet);
        assert Sanitize([c]) == ['_'] == Sanitize([d]);
        assert [c] == [d];
        assert [c][0] == c && [d][0] == d;
      }
    }
  }

  // ---- The broker ----

  datatype Arguments = Arguments(deadLetterExchange: string, deadLetterKey: string, ttl: nat)
  datatype Message = Message(id: string, retryCount: int)
  datatype Queue = Queue(arguments: Arguments, messages: seq<Message>)
  type Broker = map<string, Queue>

  datatype Request = Request(exchange: string, key: string, message: Message, delay: nat) {
    function Name(): string {
      QueueName(exchange, key, delay)
    }

    function Wanted(): Arguments {
      Arguments(exchange, key, delay)
    }
  }

  /** Nothing was done, the message waits in its queue, or the broker refused the arguments and the error was rethrown. */
  datatype Outcome = Dropped | Scheduled | Refused

  function AssertQueue(b: Broker, name: string, wanted: Arguments): Option<Broker> {
    if name !in b then Some(b[name := Queue(wanted, [])])
    else if b[name].arguments == wanted then Some(b)
    else None
  }

  function SendToQueue(b: Broker, name: string, m: Message): Broker
    requires name in b
  {
    b[name := b[name].(messages := b[name].messages + [m])]
  }

  /** A request while connected: refused exactly when the queue exists with other arguments. */
  function Publish(b: Broker, r: Request): (Broker, Outcome) {
    match AssertQueue(b, r.Name(), r.Wanted())
    case None => (b, Refused)
    case Some(c) => (SendToQueue(c, r.Name(), r.message), Scheduled)
  }

  class RabbitPublisher {
    var connected: bool
    var broker: Broker

    constructor ()
      ensures !connected && broker == map[]
    {
      connected, broker := false, map[];
    }

    method PublishRetry(exchange: string, key: string, message: Message, delay: nat) returns (o: Outcome)
      modifies this`broker
      ensures !connected ==> o == Dropped && broker == old(broker)
      ensures connected ==> (broker, o) == Publish(old(broker), Request(exchange, key, message, delay))
    {
      if !connected {
        return Dropped;
      }
      var sanitizedKey := Sanitize(key);
      var waitQueue := PREFIX + exchange + "." + sanitizedKey + "." + Decimal(delay);
      var asserted := AssertQueue(broker, waitQueue, Arguments(exchange, key, delay));
      if asserted == None {
        return Refused;
      }
      broker := asserted.value;
      broker := SendToQueue(broker, waitQueue, message);
      return Scheduled;
    }
  }

  // ---- Runs ----

  function After(rs: seq<Request>, n: nat): Broker
    requires n <= |rs|
  {
    if n == 0 then map[] else Publish(After(rs, n - 1), rs[n - 1]).0
  }

  predicate IsRefused(rs: seq<Request>, i: nat)
    requires i < |rs|
  {
    Publish(After(rs, i), rs[i]).1 == Refused
  }

  /** The first request that asks for the queue. */
  ghost predicate Opens(rs: seq<Request>, j: nat, name: string)
    requires j < |rs|
  {
    rs[j].Name() == name && forall k :: 0 <= k < j ==> rs[k].Name() != name
  }

  /** A queue exists once it was asked for, and keeps the arguments of the first request. */
  lemma {:induction false} FirstRequestDecides(rs: seq<Request>, n: nat, name: string)
    requires n <= |rs|
    ensures name in After(rs, n) <==> exists j: nat :: j < n && Opens(rs, j, name)
    ensures forall j: nat :: j < n && Opens(rs, j, name) ==> name in After(rs, n) && After(rs, n)[name].arguments == rs[j].Wanted()
  {
    if n > 0 {
      FirstRequestDecides(rs, n - 1, name);
      var b, r := After(rs, n - 1), rs[n - 1];
      ArgumentsStay(b, r, name);
      if r.Name() == name && name !in b {
        FirstOf(rs, n - 1, name);
      }
    }
  }

  lemma ArgumentsStay(b: Broker, r: Request, name: string)
    ensures name in b ==> name in Publish(b, r).0 && Publish(b, r).0[name].arguments == b[name].arguments
    ensures name !in b && name != r.Name() ==> name !in Publish(b, r).0
    ensures name !in b && name == r.Name() ==> name in Publish(b, r).0 && Publish(b, r).0[name].arguments == r.Wanted()
  {
  }

  lemma {:induction false} FirstOf(rs: seq<Request>, i: nat, name: string)
    requires i < |rs| && rs[i].Name() == name
    ensures Opens(rs, i, name) || exists j: nat :: j < i && Opens(rs, j, name)
  {
    if !Opens(rs, i, name) {
      var k :| 0 <= k < i && rs[k].Name() == name;
      FirstOf(rs, k, name);
    }
  }

  /** The messages of the first n requests for a queue that were not refused, in order. */
  function SentTo(rs: seq<Request>, n: nat, name: string): seq<Message>
    requires n <= |rs|
  {
    if n == 0 then []
    else SentTo(rs, n - 1, name) + if rs[n - 1].Name() == name && !IsRefused(rs, n - 1) then [rs[n - 1].message] else []
  }

  function MessagesIn(b: Broker, name: string): seq<Message> {
    if name in b then b[name].messages else []
  }

  lemma PublishSends(b: Broker, r: Request, name: string)
    ensures MessagesIn(Publish(b, r).0, name) ==
      MessagesIn(b, name) + if r.Name() == name && Publish(b, r).1 != Refused then [r.message] else []
  {
  }

  /** Nothing is lost, doubled or reordered: a queue holds exactly what was sent to it. */
  lemma {:induction false} QueuesHoldWhatWasSent(rs: seq<Request>, n: nat, name: string)
    requires n <= |rs|
    ensures MessagesIn(After(rs, n), name) == SentTo(rs, n, name)
  {
    if n > 0 {
      var m: nat := n - 1;
      QueuesHoldWhatWasSent(rs, m, name);
      PublishSends(After(rs, m), rs[m], name);
    }
  }

  /** A request is refused exactly when the first one for its exchange, sanitised key and delay had another key. */
  lemma RefusedIff(rs: seq<Request>, i: nat)
    requires i < |rs|
    ensures IsRefused(rs, i) <==> exists j: nat :: j < i && Opens(rs, j, rs[i].Name()) && rs[j].key != rs[i].key
  {
    var r := rs[i];
    FirstRequestDecides(rs, i, r.Name());
    forall j: nat | j < i && Opens(rs, j, r.Name())
      ensures rs[j].Wanted() == r.Wanted() <==> rs[j].key == r.key
    {
      SameNameIff(rs[j].exchange, rs[j].key, rs[j].delay, r.exchange, r.key, r.delay);
    }
  }

  ghost predicate AllOver(rs: seq<Request>, alphabet: set<char>) {
    forall r :: r in rs ==> Over(r.key, alphabet)
  }

  ghost predicate NoneRefused(rs: seq<Request>) {
    forall i: nat :: i < |rs| ==> !IsRefused(rs, i)
  }

  lemma FaithfulRunsAreNotRefused(rs: seq<Request>, alphabet: set<char>)
    requires Faithful(alphabet) && AllOver(rs, alphabet)
    ensures NoneRefused(rs)
  {
    forall i: nat | i < |rs|
      ensures !IsRefused(rs, i)
    {
      RefusedIff(rs, i);
      forall j: nat | j < i && Opens(rs, j, rs[i].Name())
        ensures rs[j].key == rs[i].key
      {
        assert rs[i] in rs && rs[j] in rs;
        SameNameIff(rs[j].exchange, rs[j].key, rs[j].delay, rs[i].exchange, rs[i].key, rs[i].delay);
        FaithfulKeys(alphabet, rs[j].key, rs[i].key);
      }
    }
  }

  lemma TwoKeysOneQueue(k: string, k': string, exchange: string, m: Message, delay: nat)
    requires k != k' && Sanitize(k) == Sanitize(k')
    ensures !NoneRefused([Request(exchange, k, m, delay), Request(exchange, k', m, delay)])
  {
    var rs := [Request(exchange, k, m, delay), Request(exchange, k', m, delay)];
    SameNameIff(exchange, k, delay, exchange, k', delay);
    assert Opens(rs, 0, rs[1].Name());
    RefusedIff(rs, 1);
    assert IsRefused(rs, 1);
  }

  /** No run over the alphabet is ever refused exactly when at most one of its characters turns into '_'. */
  lemma NeverRefusedIff(alphabet: set<char>)
    ensures (forall rs :: AllOver(rs, alphabet) ==> NoneRefused(rs)) <==> Faithful(alphabet)
  {
    if Faithful(alphabet) {
      forall rs | AllOver(rs, alphabet)
        ensures NoneRefused(rs)
      {
        FaithfulRunsAreNotRefused(rs, alphabet);
      }
    } else {
      var c, d :| c in alphabet && d in alphabet && SanitizeChar(c) == '_' && SanitizeChar(d) == '_' && c != d;
      assert Sanitize([c]) == ['_'] == Sanitize([d]);
      assert [c][0] != [d][0];
      var m := Message("m", 1);
      TwoKeysOneQueue([c], [d], "x", m, 0);
      var rs := [Request("x", [c], m, 0), Request("x", [d], m, 0)];
      assert AllOver(rs, alphabet) && !NoneRefused(rs);
    }
  }

  /** A dotted key and the same key with an underscore: the second is refused. */
  lemma DotAndUnderscoreConflict(exchange: string, m: Message, delay: nat)
    ensures !NoneRefused([Request(exchange, "a.b", m, delay), Request(exchange, "a_b", m, delay)])
  {
    assert Sanitize("a.b") == "a_b" == Sanitize("a_b");
    TwoKeysOneQueue("a.b", "a_b", exchange, m, delay);
  }

  /** The queue sends what waits in it back to this request's exchange and key, after its delay. */
  ghost predicate ReturnsTo(r: Request, arguments: Arguments) {
    arguments.deadLetterExchange == r.exchange && arguments.deadLetterKey == r.key && arguments.ttl == r.delay
  }

  /** Every message that waits will be dead-lettered to the exchange and key it was published for, after its delay. */
  lemma {:induction false} MessagesReturnHome(rs: seq<Request>, n: nat, name: string, m: Message)
    requires n <= |rs| && name in After(rs, n) && m in After(rs, n)[name].messages
    ensures exists i: nat :: i < n && rs[i].message == m && rs[i].Name() == name && ReturnsTo(rs[i], After(rs, n)[name].arguments)
  {
    var b, r := After(rs, n - 1), rs[n - 1];
    ArgumentsStay(b, r, name);
    if name in b && m in b[name].messages {
      MessagesReturnHome(rs, n - 1, name, m);
      var i: nat :| i < n - 1 && rs[i].message == m && rs[i].Name() == name && ReturnsTo(rs[i], b[name].arguments);
      assert rs[i].message == m && rs[i].Name() == name && ReturnsTo(rs[i], After(rs, n)[name].arguments);
    } else {
      assert rs[n - 1].message == m && rs[n - 1].Name() == name && ReturnsTo(rs[n - 1], After(rs, n)[name].arguments);
    }
  }
}
