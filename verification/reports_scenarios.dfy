/**
 * The reporting scenarios the repository's tests exercise, stated for the
 * model: accounts are opened (and one closed) on the bank-account side and
 * the reporting application drains the resulting event stream.
 */
module ReportsScenarios {
  import opened Events
  import opened Reports

  /** Account identities start above the counters' fixed ids. */
  const FirstAccount: nat := 3

  /** `n` account openings with identities `lo`, `lo + 1`, ... */
  function Openings(lo: nat, n: nat): (es: seq<Event>)
    ensures |es| == n
    ensures forall i :: 0 <= i < n ==> es[i] == Opened(Id(lo + i), "Test User", "test@example.com")
    decreases n
  {
    if n == 0 then [] else [Opened(Id(lo), "Test User", "test@example.com")] + Openings(lo + 1, n - 1)
  }

  lemma {:induction false} OpeningsCounts(lo: nat, n: nat)
    ensures NumOpened(Openings(lo, n)) == n
    ensures NumClosed(Openings(lo, n)) == 0
    decreases n
  {
    if n > 0 {
      assert Openings(lo, n)[1..] == Openings(lo + 1, n - 1);
      OpeningsCounts(lo + 1, n - 1);
    }
  }

  /** After opening `n` accounts, opened reads `n` and closed reads 0. */
  lemma OpenAccounts(n: nat)
    ensures GetAccountsOpened(Drain(map[], Openings(FirstAccount, n))).counter.count == n
    ensures GetAccountsClosed(Drain(map[], Openings(FirstAccount, n))).counter.count == 0
    ensures n > 0 ==> AccountsOpenedId in Drain(map[], Openings(FirstAccount, n))
  {
    var es := Openings(FirstAccount, n);
    OpeningsCounts(FirstAccount, n);
    DrainFromEmpty(es);
    if n > 0 {
      DrainSplit(map[], [es[0]], es[1..]);
      assert [es[0]] + es[1..] == es;
      assert Drain(map[], [es[0]]) == Process(map[], es[0]);
      OpenedCounterPersists(Process(map[], es[0]), es[1..]);
    }
  }

  /** Once the opened counter exists it stays in the repository. */
  lemma {:induction false} OpenedCounterPersists(s: Store, es: seq<Event>)
    requires AccountsOpenedId in s
    ensures AccountsOpenedId in Drain(s, es)
    decreases |es|
  {
    if |es| > 0 {
      var e := es[0];
      var p := Policy(s, e);
      RecordUnfold(p.saved, p.collected);
      OpenedCounterPersists(Process(s, e), es[1..]);
    }
  }

  /** Ten accounts opened: opened reads 10, closed reads 0. */
  lemma OpenTenAccounts()
    ensures GetAccountsOpened(Drain(map[], Openings(FirstAccount, 10))).counter.count == 10
    ensures GetAccountsClosed(Drain(map[], Openings(FirstAccount, 10))).counter.count == 0
  {
    OpenAccounts(10);
  }

  /** Three thousand accounts opened: opened reads 3000. */
  lemma OpenThreeThousandAccounts()
    ensures GetAccountsOpened(Drain(map[], Openings(FirstAccount, 3000))).counter.count == 3000
  {
    OpenAccounts(3000);
  }

  /** Ten accounts opened and the last one closed: opened reads 9, closed reads 1. */
  lemma OpenTenCloseOne()
    ensures GetAccountsOpened(Drain(map[], Openings(FirstAccount, 10) + [Closed(Id(FirstAccount + 9))])).counter.count == 9
    ensures GetAccountsClosed(Drain(map[], Openings(FirstAccount, 10) + [Closed(Id(FirstAccount + 9))])).counter.count == 1
    ensures AccountsClosedId in Drain(map[], Openings(FirstAccount, 10) + [Closed(Id(FirstAccount + 9))])
  {
    var es := Openings(FirstAccount, 10) + [Closed(Id(FirstAccount + 9))];
    OpeningsCounts(FirstAccount, 10);
    CountsAppend(Openings(FirstAccount, 10), [Closed(Id(FirstAccount + 9))]);
    DrainFromEmpty(es);
    DrainSplit(map[], Openings(FirstAccount, 10), [Closed(Id(FirstAccount + 9))]);
    var before := Drain(map[], Openings(FirstAccount, 10));
    assert Drain(before, [Closed(Id(FirstAccount + 9))]) == Process(before, Closed(Id(FirstAccount + 9)));
  }
}
