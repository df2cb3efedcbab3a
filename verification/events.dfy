/**
 * Identities and the domain events the bank-account aggregate publishes.
 * The aggregate's own module is not part of this model; only the event
 * kinds the reporting policy dispatches on matter here.
 */
module Events {

  /** An aggregate identity (a UUID in the system, opaque here). */
  datatype Id = Id(uuid: nat)

  /**
   * Upstream events of the bank-account application. The policy reacts to
   * `Opened` and `Closed`; every other kind reaches its default handler.
   */
  datatype Event =
    | Opened(originator: Id, fullName: string, emailAddress: string)
    | TransactionAppended(originator: Id, amount: int)
    | OverdraftLimitSet(originator: Id, overdraftLimit: int)
    | Closed(originator: Id)

  /** Number of `Opened` events in `es`. */
  function NumOpened(es: seq<Event>): nat
  {
    if |es| == 0 then 0 else (if es[0].Opened? then 1 else 0) + NumOpened(es[1..])
  }

  /** Number of `Closed` events in `es`. */
  function NumClosed(es: seq<Event>): nat
  {
    if |es| == 0 then 0 else (if es[0].Closed? then 1 else 0) + NumClosed(es[1..])
  }

  /** Counting distributes over concatenation of event streams. */
  lemma {:induction false} CountsAppend(a: seq<Event>, b: seq<Event>)
    ensures NumOpened(a + b) == NumOpened(a) + NumOpened(b)
    ensures NumClosed(a + b) == NumClosed(a) + NumClosed(b)
  {
    if |a| > 0 {
      assert (a + b)[1..] == a[1..] + b;
      CountsAppend(a[1..], b);
    } else {
      assert a + b == b;
    }
  }
}
