/** The polling pattern shared by the helpers that wait for the service, the
    glasses and the wand: call a query, retry after a fixed sleep while its
    outcome is transient, and return the first settled outcome.

    The query is an oracle given as the finite sequence of outcomes its
    successive calls produce. When that sequence is used up while every outcome
    was transient, the loop has not returned: the run ends in `Polling`. */
module Polling {
  import opened Outcomes

  /** How one outcome of the query steers the loop. */
  datatype Step<+U> = Retry | Stop(result: Result<U>)

  /** The observable end of a polling run: the value returned together with the
      number of query calls and sleeps it took, or the calls and sleeps made so far
      by a loop that is still waiting. */
  datatype Run<+U> =
    | Returned(result: Result<U>, calls: nat, sleeps: nat)
    | Polling(calls: nat, sleeps: nat)

  /** Outcome `k` is the first one that stops the loop. */
  predicate SettlesAt<A, U>(outs: seq<A>, step: A -> Step<U>, k: nat)
  {
    && k < |outs|
    && step(outs[k]).Stop?
    && forall j :: 0 <= j < k ==> step(outs[j]).Retry?
  }

  /** No outcome in the sequence stops the loop. */
  predicate NeverSettles<A, U>(outs: seq<A>, step: A -> Step<U>)
  {
    forall j :: 0 <= j < |outs| ==> step(outs[j]).Retry?
  }

  /** One more transient outcome in front of a run: one more call and one more sleep. */
  function Delay<U>(r: Run<U>): Run<U>
  {
    match r
    case Returned(res, c, s) => Returned(res, c + 1, s + 1)
    case Polling(c, s) => Polling(c + 1, s + 1)
  }

  /** Reference semantics of the polling loop: one call per outcome until one
      settles the loop, one sleep after every transient outcome. */
  function Poll<A, U>(outs: seq<A>, step: A -> Step<U>): Run<U>
    decreases |outs|
  {
    if |outs| == 0 then Polling(0, 0)
    else match step(outs[0])
      case Stop(res) => Returned(res, 1, 0)
      case Retry => Delay(Poll(outs[1..], step))
  }

  /** The loop returns the result of the first settled outcome, after one call per
      outcome up to it and one sleep per transient outcome before it. */
  lemma {:induction false} PollSettles<A, U>(outs: seq<A>, step: A -> Step<U>, k: nat)
    requires SettlesAt(outs, step, k)
    ensures Poll(outs, step) == Returned(step(outs[k]).result, k + 1, k)
    decreases |outs|
  {
    if k > 0 {
      SettlesAtTail(outs, step, k);
      PollSettles(outs[1..], step, k - 1);
      assert outs[1..][k - 1] == outs[k];
    }
  }

  /** While every outcome is transient the loop never returns: it has made one
      call and one sleep per outcome. */
  lemma {:induction false} PollNeverSettles<A, U>(outs: seq<A>, step: A -> Step<U>)
    requires NeverSettles(outs, step)
    ensures Poll(outs, step) == Polling(|outs|, |outs|)
    decreases |outs|
  {
    if |outs| > 0 {
      assert step(outs[0]).Retry?;
      assert NeverSettles(outs[1..], step) by {
        forall j | 0 <= j < |outs[1..]|
          ensures step(outs[1..][j]).Retry?
        {
          assert outs[1..][j] == outs[j + 1];
        }
      }
      PollNeverSettles(outs[1..], step);
    }
  }

  /** Dropping a transient first outcome moves the settling index down by one. */
  lemma SettlesAtTail<A, U>(outs: seq<A>, step: A -> Step<U>, k: nat)
    requires |outs| > 0 && step(outs[0]).Retry?
    requires SettlesAt(outs, step, k)
    ensures k > 0 && SettlesAt(outs[1..], step, k - 1)
  {
  }

  /** Every outcome sequence either settles at some index or never settles. */
  lemma {:induction false} SettlesOrNever<A, U>(outs: seq<A>, step: A -> Step<U>)
    ensures NeverSettles(outs, step) || exists k: nat :: SettlesAt(outs, step, k)
    decreases |outs|
  {
    if |outs| > 0 && step(outs[0]).Retry? {
      SettlesOrNever(outs[1..], step);
      if !NeverSettles(outs[1..], step) {
        var k: nat :| SettlesAt(outs[1..], step, k);
        assert SettlesAt(outs, step, k + 1);
      }
    } else if |outs| > 0 {
      assert SettlesAt(outs, step, 0);
    }
  }

  /** A run returns exactly when some outcome settles; a returned run made one
      more call than sleeps, a waiting one as many calls as sleeps. */
  lemma PollShape<A, U>(outs: seq<A>, step: A -> Step<U>)
    ensures Poll(outs, step).Returned? <==> exists k: nat :: SettlesAt(outs, step, k)
    ensures Poll(outs, step).calls <= |outs|
    ensures Poll(outs, step).Returned? ==> Poll(outs, step).calls == Poll(outs, step).sleeps + 1
    ensures Poll(outs, step).Polling? ==> Poll(outs, step).calls == Poll(outs, step).sleeps
  {
    SettlesOrNever(outs, step);
    if NeverSettles(outs, step) {
      PollNeverSettles(outs, step);
      assert !exists k: nat :: SettlesAt(outs, step, k);
    } else {
      var k: nat :| SettlesAt(outs, step, k);
      PollSettles(outs, step, k);
    }
  }

  /** Outcomes the loop never reaches do not matter: once the prefix settles,
      appending further outcomes leaves the run unchanged. */
  lemma PollIgnoresLaterOutcomes<A, U>(outs: seq<A>, more: seq<A>, step: A -> Step<U>)
    requires Poll(outs, step).Returned?
    ensures Poll(outs + more, step) == Poll(outs, step)
  {
    PollShape(outs, step);
    var k: nat :| SettlesAt(outs, step, k);
    forall j | 0 <= j <= k
      ensures (outs + more)[j] == outs[j]
    {
    }
    assert SettlesAt(outs + more, step, k);
    PollSettles(outs, step, k);
    PollSettles(outs + more, step, k);
  }

  /** A transient prefix only delays the run: every transient outcome in front adds
      one call and one sleep. In particular a query that stays transient for N calls
      leaves the loop still polling after N calls and N sleeps. */
  lemma {:induction false} PollAfterTransientPrefix<A, U>(pre: seq<A>, outs: seq<A>, step: A -> Step<U>)
    requires NeverSettles(pre, step)
    ensures Poll(pre + outs, step) == DelayBy(Poll(outs, step), |pre|)
    decreases |pre|
  {
    if pre != [] {
      assert (pre + outs)[0] == pre[0];
      assert (pre + outs)[1..] == pre[1..] + outs;
      PollAfterTransientPrefix(pre[1..], outs, step);
    } else {
      assert pre + outs == outs;
    }
  }

  /** `n` transient outcomes in front of a run. */
  function DelayBy<U>(r: Run<U>, n: nat): (d: Run<U>)
    ensures d.Returned? <==> r.Returned?
    ensures d.calls == r.calls + n && d.sleeps == r.sleeps + n
    ensures d.Returned? ==> d.result == r.result
  {
    if n == 0 then r else Delay(DelayBy(r, n - 1))
  }
}
