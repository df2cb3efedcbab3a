/**
 * The `Reports` process application: a policy that keeps two singleton
 * counters, "accounts opened" and "accounts closed", up to date from the
 * bank-account event stream.
 */
module Reports {
  import opened Results
  import opened Events

  /** The two singleton counter aggregates the application keeps. */
  datatype CounterKind = AccountsOpened | AccountsClosed

  /** Fixed, well-known identity of each singleton (its `create_id()`). */
  const AccountsOpenedId: Id := Id(1)
  const AccountsClosedId: Id := Id(2)

  function CounterId(k: CounterKind): (id: Id)
    ensures id == AccountsOpenedId || id == AccountsClosedId
    ensures (id == AccountsOpenedId) <==> k == AccountsOpened
  {
    match k
    case AccountsOpened => AccountsOpenedId
    case AccountsClosed => AccountsClosedId
  }

  /** A counter aggregate as loaded (or created) by the application. */
  datatype Counter = Counter(id: Id, count: int)

  /** The application's repository: the persisted count of each counter aggregate. */
  type Store = map<Id, int>

  /** Writing an aggregate to the repository. */
  function Save(s: Store, c: Counter): Store
  {
    s[c.id := c.count]
  }

  /** The counter aggregate's own commands (each records one event). */
  function Increment(c: Counter, n: int): (r: Counter)
    ensures r.id == c.id && r.count - c.count == n
  {
    Counter(c.id, c.count + n)
  }

  function Decrement(c: Counter, n: int): (r: Counter)
    ensures r.id == c.id && c.count - r.count == n
  {
    Counter(c.id, c.count - n)
  }

  /** A counter together with the repository after loading it. */
  datatype Lookup = Lookup(counter: Counter, store: Store)

  /**
   * Get-or-create of a singleton counter: load it from its fixed id, or,
   * when the repository has none, create it with count 0 and save it at once.
   */
  function GetOrCreate(s: Store, k: CounterKind): (r: Lookup)
    ensures r.counter.id == CounterId(k)
    ensures CounterId(k) in r.store && r.store[CounterId(k)] == r.counter.count
    ensures CounterId(k) in s ==> r.store == s && r.counter.count == s[CounterId(k)]
    ensures CounterId(k) !in s ==> r.counter.count == 0
    ensures r.store.Keys == s.Keys + {CounterId(k)}
    ensures forall id :: id != CounterId(k) && id in s ==> r.store[id] == s[id]
  {
    var id := CounterId(k);
    if id in s then Lookup(Counter(id, s[id]), s)
    else
      var created := Counter(id, 0);
      Lookup(created, Save(s, created))
  }

  function GetAccountsOpened(s: Store): Lookup
  {
    GetOrCreate(s, AccountsOpened)
  }

  function GetAccountsClosed(s: Store): Lookup
  {
    GetOrCreate(s, AccountsClosed)
  }

  /** The count a query for counter `k` reports on repository `s`. */
  function Count(s: Store, k: CounterKind): int
  {
    GetOrCreate(s, k).counter.count
  }

  /** A second get-or-create changes nothing and does not reset the count. */
  lemma GetOrCreateIdempotent(s: Store, k: CounterKind)
    ensures GetOrCreate(GetOrCreate(s, k).store, k) == GetOrCreate(s, k)
    ensures Count(GetOrCreate(s, k).store, k) == Count(s, k)
  {
  }

  /**
   * What one policy invocation leaves behind: the repository with any lazily
   * created counters already saved, and the aggregates it collected into the
   * processing event, to be recorded together when the step commits.
   */
  datatype Processing = Processing(saved: Store, collected: seq<Counter>)

  /** The policy: dispatch on the kind of the upstream event. */
  function Policy(s: Store, e: Event): (p: Processing)
    ensures e.Opened? ==>
      |p.collected| == 1 && p.collected[0].id == AccountsOpenedId
      && p.collected[0].count == Count(s, AccountsOpened) + 1
    ensures e.Closed? ==>
      |p.collected| == 2
      && p.collected[0].id == AccountsOpenedId
      && p.collected[0].count == Count(s, AccountsOpened) - 1
      && p.collected[1].id == AccountsClosedId
      && p.collected[1].count == Count(s, AccountsClosed) + 1
    ensures !e.Opened? && !e.Closed? ==> p.saved == s && p.collected == []
    ensures forall id :: id in s ==> id in p.saved
    ensures forall id :: id != AccountsOpenedId && id != AccountsClosedId && id in s ==>
      p.saved[id] == s[id]
  {
    match e
    case Opened(_, _, _) =>
      var accountsOpened := GetAccountsOpened(s);
      Processing(accountsOpened.store, [Increment(accountsOpened.counter, 1)])
    case Closed(_) =>
      var accountsOpened := GetAccountsOpened(s);
      var accountsClosed := GetAccountsClosed(accountsOpened.store);
      Processing(accountsClosed.store, [Decrement(accountsOpened.counter, 1), Increment(accountsClosed.counter, 1)])
    case _ =>
      Processing(s, [])
  }

  /** Records every collected aggregate, in order. */
  function Record(s: Store, cs: seq<Counter>): Store
    decreases |cs|
  {
    if |cs| == 0 then s else Record(Save(s, cs[0]), cs[1..])
  }

  /** Recording the one or two aggregates a policy step collects. */
  lemma RecordUnfold(s: Store, cs: seq<Counter>)
    requires |cs| <= 2
    ensures |cs| == 0 ==> Record(s, cs) == s
    ensures |cs| == 1 ==> Record(s, cs) == Save(s, cs[0])
    ensures |cs| == 2 ==> Record(s, cs) == Save(Save(s, cs[0]), cs[1])
  {
    if |cs| == 2 {
      var rest := cs[1..];
      assert rest[0] == cs[1] && |rest[1..]| == 0;
      assert Record(Save(s, cs[0]), rest) == Record(Save(Save(s, cs[0]), cs[1]), rest[1..]);
    }
  }

  /** Committing a processing step records its collected aggregates. */
  function Commit(p: Processing): Store
  {
    Record(p.saved, p.collected)
  }

  /** One notification processed: the policy, then the commit. */
  function Process(s: Store, e: Event): (r: Store)
    ensures e.Opened? ==>
      Count(r, AccountsOpened) == Count(s, AccountsOpened) + 1
      && AccountsOpenedId in r
      && Get(r, AccountsClosedId) == Get(s, AccountsClosedId)
    ensures e.Closed? ==>
      Count(r, AccountsOpened) == Count(s, AccountsOpened) - 1
      && Count(r, AccountsClosed) == Count(s, AccountsClosed) + 1
      && AccountsOpenedId in r && AccountsClosedId in r
    ensures !e.Opened? && !e.Closed? ==> r == s
    ensures forall id :: id != AccountsOpenedId && id != AccountsClosedId ==> Get(r, id) == Get(s, id)
  {
    var p := Policy(s, e);
    RecordUnfold(p.saved, p.collected);
    Commit(p)
  }

  /** Draining an event stream: each notification processed in order. */
  function Drain(s: Store, es: seq<Event>): Store
    decreases |es|
  {
    if |es| == 0 then s else Drain(Process(s, es[0]), es[1..])
  }

  /** The counters account for exactly `openedSoFar` accounts ever opened. */
  predicate Tallies(s: Store, openedSoFar: int)
  {
    Count(s, AccountsOpened) + Count(s, AccountsClosed) == openedSoFar
  }

  /** Each policy step keeps opened + closed equal to the number of `Opened` events seen. */
  lemma ProcessKeepsTally(s: Store, e: Event, openedSoFar: int)
    requires Tallies(s, openedSoFar)
    ensures Tallies(Process(s, e), openedSoFar + (if e.Opened? then 1 else 0))
  {
  }

  /** Draining a stream moves each counter by the events of its kind. */
  lemma {:induction false} DrainCounts(s: Store, es: seq<Event>)
    ensures Count(Drain(s, es), AccountsOpened) == Count(s, AccountsOpened) + NumOpened(es) - NumClosed(es)
    ensures Count(Drain(s, es), AccountsClosed) == Count(s, AccountsClosed) + NumClosed(es)
    decreases |es|
  {
    if |es| > 0 {
      DrainCounts(Process(s, es[0]), es[1..]);
    }
  }

  /** The tally invariant holds across a whole drained stream. */
  lemma DrainKeepsTally(s: Store, es: seq<Event>, openedSoFar: int)
    requires Tallies(s, openedSoFar)
    ensures Tallies(Drain(s, es), openedSoFar + NumOpened(es))
  {
    DrainCounts(s, es);
  }

  /**
   * Draining a stream in two parts, the second starting from the repository
   * the first left behind, gives the same repository as draining it whole.
   */
  lemma {:induction false} DrainSplit(s: Store, a: seq<Event>, b: seq<Event>)
    ensures Drain(s, a + b) == Drain(Drain(s, a), b)
    decreases |a|
  {
    if |a| == 0 {
      assert a + b == b;
    } else {
      assert (a + b)[0] == a[0];
      assert (a + b)[1..] == a[1..] + b;
      DrainSplit(Process(s, a[0]), a[1..], b);
    }
  }

  /** From an empty repository: opened = #Opened - #Closed and closed = #Closed. */
  lemma DrainFromEmpty(es: seq<Event>)
    ensures Count(Drain(map[], es), AccountsOpened) == NumOpened(es) - NumClosed(es)
    ensures Count(Drain(map[], es), AccountsClosed) == NumClosed(es)
    ensures Tallies(Drain(map[], es), NumOpened(es))
  {
    DrainCounts(map[], es);
  }
}
