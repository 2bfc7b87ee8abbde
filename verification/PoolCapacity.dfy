/**
 How many connections are open at once. A stale or broken connection is uncounted before it is
 closed, so the open ones may exceed the maximum, but only by those already being closed.
*/
module PoolCapacity {
  import opened Pool
  import opened PoolProtocol
  import opened PoolSafety

  /** The connections a thread has uncounted and must still close. */
  function AwaitingClose(ph: Phase): seq<Conn> {
    match ph
    case Waiting(_, stale) => stale
    case Woken(_, stale) => stale
    case TimedOut(_, stale) => stale
    case GotIdle(stale, _, _) => stale
    case GotSlot(stale) => stale
    case Closing(toClose) => toClose
    case _ => []
  }

  /** The connection a thread has in use. */
  function Using(ph: Phase): seq<Conn> {
    match ph
    case GotIdle(_, conn, _) => [conn]
    case Holding(conn, _) => [conn]
    case Releasing(conn, _) => [conn]
    case _ => []
  }

  function AllAwaiting(threads: seq<Phase>): seq<Conn> {
    if threads == [] then [] else AwaitingClose(threads[0]) + AllAwaiting(threads[1..])
  }

  function AllUsing(threads: seq<Phase>): seq<Conn> {
    if threads == [] then [] else Using(threads[0]) + AllUsing(threads[1..])
  }

  lemma {:induction false} CopiesAppend(a: seq<Conn>, b: seq<Conn>, c: Conn)
    ensures Copies(a + b, c) == Copies(a, c) + Copies(b, c)
  {
    if a == [] {
      assert a + b == b;
    } else {
      assert (a + b)[1..] == a[1..] + b;
      CopiesAppend(a[1..], b, c);
    }
  }

  lemma OwnedIs(ph: Phase, c: Conn)
    ensures Owned(ph, c) == Copies(AwaitingClose(ph), c) + Copies(Using(ph), c)
  {
  }

  lemma {:induction false} OwnedByAllIs(threads: seq<Phase>, c: Conn)
    ensures OwnedByAll(threads, c) == Copies(AllAwaiting(threads), c) + Copies(AllUsing(threads), c)
  {
    if threads != [] {
      OwnedByAllIs(threads[1..], c);
      OwnedIs(threads[0], c);
      CopiesAppend(AwaitingClose(threads[0]), AllAwaiting(threads[1..]), c);
      CopiesAppend(Using(threads[0]), AllUsing(threads[1..]), c);
    }
  }

  lemma {:induction false} UsingCount(threads: seq<Phase>)
    ensures |AllUsing(threads)| == Population(threads, InUse)
  {
    if threads != [] {
      UsingCount(threads[1..]);
    }
  }

  /** A list with each of 0..n exactly once, and nothing else, has n elements. */
  lemma {:induction false} EachOnce(list: seq<Conn>, n: nat)
    requires forall c: Conn :: Copies(list, c) == Indicator(c < n)
    ensures |list| == n
  {
    assert list == [] || Copies(list, list[0]) > 0;
    if n > 0 {
      CopiesPositive(list, n - 1);
      var i :| 0 <= i < |list| && list[i] == n - 1;
      var rest := list[..i] + list[i + 1..];
      forall c: Conn ensures Copies(rest, c) == Indicator(c < n - 1) {
        assert list == list[..i] + ([list[i]] + list[i + 1..]);
        CopiesAppend(list[..i], [list[i]] + list[i + 1..], c);
        CopiesAppend([list[i]], list[i + 1..], c);
        CopiesAppend(list[..i], list[i + 1..], c);
        assert Copies([list[i]], c) == Indicator(list[i] == c);
      }
      EachOnce(rest, n - 1);
    }
  }

  /** Every connection opened is idle, in use, awaiting close, or closed. */
  lemma OpenedAreCounted(cfg: Settings, w: World)
    requires cfg.Valid() && Reachable(cfg, w)
    ensures w.issued
      == |w.shared.available| + Population(w.threads, InUse) + |AllAwaiting(w.threads)| + |w.closed|
  {
    ReachableInv(cfg, w);
    var idle := Conns(w.shared.available);
    var all := idle + (AllAwaiting(w.threads) + (AllUsing(w.threads) + w.closed));
    forall c: Conn ensures Copies(all, c) == Indicator(c < w.issued) {
      IdleCountAsCopies(w.shared.available, c);
      OwnedByAllIs(w.threads, c);
      CopiesAppend(idle, AllAwaiting(w.threads) + (AllUsing(w.threads) + w.closed), c);
      CopiesAppend(AllAwaiting(w.threads), AllUsing(w.threads) + w.closed, c);
      CopiesAppend(AllUsing(w.threads), w.closed, c);
      assert Places(w, c) == Indicator(c < w.issued);
    }
    EachOnce(all, w.issued);
    UsingCount(w.threads);
  }

  /** Open connections, those being closed apart, never exceed the maximum. */
  lemma OpenWithinMaximum(cfg: Settings, w: World)
    requires cfg.Valid() && Reachable(cfg, w)
    ensures w.issued - |w.closed| - |AllAwaiting(w.threads)| <= cfg.maxSize
    ensures w.issued >= |w.closed| + |AllAwaiting(w.threads)|
  {
    OpenedAreCounted(cfg, w);
    ReachableInv(cfg, w);
  }
}
