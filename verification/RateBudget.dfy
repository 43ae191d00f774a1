/**
 The rolling request budget (`RateBudget` in `src/secure/guardian.rs`): a short queue that
 answers as the full history of admissions would. Instants are nanoseconds.
 */
module RateBudgets {
  import opened Wrappers

  const MINUTE: nat := 60_000_000_000
  const U32_RANGE: nat := 0x1_0000_0000

  type u32 = n: int | 0 <= n < U32_RANGE

  predicate NonDecreasing(times: seq<nat>) {
    forall i, j | 0 <= i < j < |times| :: times[i] <= times[j]
  }

  predicate Within(t: nat, now: nat) {
    now < t + MINUTE
  }

  /** The simple form: how many of all admissions lie in the trailing minute. */
  function CountWithin(history: seq<nat>, now: nat): nat {
    if history == [] then 0
    else CountWithin(history[..|history| - 1], now) + if Within(history[|history| - 1], now) then 1 else 0
  }

  /** What is left of a history once the oldest expired ones are dropped. */
  function Recent(history: seq<nat>, now: nat): seq<nat> {
    if history == [] || Within(history[0], now) then history else Recent(history[1..], now)
  }

  /** In a history in order, dropping from the front leaves exactly the trailing minute. */
  lemma {:induction false} RecentIsTail(history: seq<nat>, now: nat) returns (k: nat)
    requires NonDecreasing(history)
    ensures k <= |history| && Recent(history, now) == history[k..]
    ensures forall i | 0 <= i < |history| :: i >= k <==> Within(history[i], now)
  {
    if history == [] || Within(history[0], now) {
      k := 0;
    } else {
      var j := RecentIsTail(history[1..], now);
      k := j + 1;
      forall i | 0 <= i < |history| ensures i >= k <==> Within(history[i], now) {
        assert i > 0 ==> history[i] == history[1..][i - 1];
      }
    }
  }

  lemma {:induction false} CountIsTail(history: seq<nat>, now: nat, k: nat)
    requires k <= |history| && forall i | 0 <= i < |history| :: i >= k <==> Within(history[i], now)
    ensures CountWithin(history, now) == |history| - k
  {
    if history != [] {
      var front := history[..|history| - 1];
      CountIsTail(front, now, if k < |history| then k else k - 1);
    }
  }

  lemma RecentCounts(history: seq<nat>, now: nat)
    requires NonDecreasing(history)
    ensures |Recent(history, now)| == CountWithin(history, now)
  {
    var k := RecentIsTail(history, now);
    CountIsTail(history, now, k);
  }

  /** Any `cap` + 1 admissions in a row take at least a minute. */
  ghost predicate Spaced(history: seq<nat>, cap: nat) {
    forall i | 0 <= i && i + cap < |history| :: history[i] + MINUTE <= history[i + cap]
  }

  lemma AdmitSpaced(history: seq<nat>, cap: nat, now: nat)
    requires NonDecreasing(history) && Spaced(history, cap) && CountWithin(history, now) < cap
    requires forall i | 0 <= i < |history| :: history[i] <= now
    ensures Spaced(history + [now], cap) && NonDecreasing(history + [now])
  {
    var k := RecentIsTail(history, now);
    CountIsTail(history, now, k);
    var longer := history + [now];
    forall i | 0 <= i && i + cap < |longer| ensures longer[i] + MINUTE <= longer[i + cap] {
      if i + cap == |history| {
        assert i < k && longer[i] == history[i];
      }
    }
  }

  // ------------------------------------------------------------- whole runs

  /** The admissions out of a run of requests, decided by counting over the full history. */
  function Admitted(cap: nat, requests: seq<nat>): seq<nat> {
    if requests == [] then []
    else
      var before, now := Admitted(cap, requests[..|requests| - 1]), requests[|requests| - 1];
      if CountWithin(before, now) < cap then before + [now] else before
  }

  /** However requests come in, admissions keep to the budget. */
  lemma {:induction false} BudgetKept(cap: nat, requests: seq<nat>)
    requires NonDecreasing(requests)
    ensures Spaced(Admitted(cap, requests), cap) && NonDecreasing(Admitted(cap, requests))
    ensures forall t | t in Admitted(cap, requests) :: t in requests
  {
    hide Spaced, CountWithin;
    if requests == [] {
      NothingSpaced(cap);
    } else {
      var n := |requests| - 1;
      var before := Admitted(cap, requests[..n]);
      BudgetKept(cap, requests[..n]);
      forall i | 0 <= i < |before| ensures before[i] <= requests[n] {
        assert before[i] in before;
      }
      if CountWithin(before, requests[n]) < cap {
        AdmitSpaced(before, cap, requests[n]);
      }
    }
  }

  lemma NothingSpaced(cap: nat)
    ensures Spaced([], cap) && NonDecreasing([])
  {
  }

  /** The limit-hit records out of a run of occasions to write one. */
  function Logged(occasions: seq<nat>): seq<nat> {
    if occasions == [] then []
    else
      var before, now := Logged(occasions[..|occasions| - 1]), occasions[|occasions| - 1];
      if before != [] && Within(before[|before| - 1], now) then before else before + [now]
  }

  lemma {:induction false} LogsApart(occasions: seq<nat>)
    requires NonDecreasing(occasions)
    ensures Spaced(Logged(occasions), 1)
  {
    if occasions != [] {
      LogsApart(occasions[..|occasions| - 1]);
    }
  }

  lemma LaterKeepsOrder(times: seq<nat>, now: nat)
    requires NonDecreasing(times) && forall t | t in times :: t <= now
    ensures NonDecreasing(times + [now])
  {
    forall i | 0 <= i < |times| ensures times[i] <= now {
      assert times[i] in times;
    }
  }

  lemma OneMoreRequest(cap: nat, requests: seq<nat>, now: nat)
    ensures var history := Admitted(cap, requests);
            Admitted(cap, requests + [now]) == if CountWithin(history, now) < cap then history + [now] else history
  {
    assert (requests + [now])[..|requests|] == requests;
  }

  lemma OneMoreOccasion(occasions: seq<nat>, now: nat)
    ensures var before := Logged(occasions);
            Logged(occasions + [now])
            == if before != [] && Within(before[|before| - 1], now) then before else before + [now]
  {
    assert (occasions + [now])[..|occasions|] == occasions;
  }

  /**
   When a request is turned away, by the clock alone: exactly when as many as `cap` have been
   admitted and the last `cap` of them all lie less than sixty seconds back. A request that
   comes sixty seconds after the oldest of these is admitted.
   */
  lemma RefusedOnlyWhenSpent(cap: nat, requests: seq<nat>, now: nat)
    requires NonDecreasing(requests) && forall t | t in requests :: t <= now
    ensures var history := Admitted(cap, requests);
            var spent := cap <= |history| && forall i | |history| - cap <= i < |history| :: now - history[i] < 60_000_000_000;
            Admitted(cap, requests + [now]) == if spent then history else history + [now]
    ensures var history := Admitted(cap, requests);
            0 < cap <= |history| && now == history[|history| - cap] + 60_000_000_000
            ==> Admitted(cap, requests + [now]) == history + [now]
  {
    hide Admitted;
    var history := Admitted(cap, requests);
    BudgetKept(cap, requests);
    OneMoreRequest(cap, requests, now);
    var k := RecentIsTail(history, now);
    CountIsTail(history, now, k);
    assert forall i | 0 <= i < |history| :: i >= k <==> now - history[i] < 60_000_000_000;
    assert cap <= |history| - k ==> forall i | |history| - cap <= i < |history| :: now - history[i] < 60_000_000_000;
    if |history| - k < cap <= |history| {
      assert |history| - cap < k && now - history[|history| - cap] >= 60_000_000_000;
    }
  }

  /** Likewise a limit hit goes unrecorded exactly when the last record is less than sixty seconds old. */
  lemma UnrecordedOnlyWhenRecent(occasions: seq<nat>, now: nat)
    ensures var before := Logged(occasions);
            Logged(occasions + [now])
            == if before != [] && now - before[|before| - 1] < 60_000_000_000 then before else before + [now]
  {
    OneMoreOccasion(occasions, now);
  }

  // -------------------------------------------------------------- the queue

  class RateBudget {
    const cap: u32
    var window: seq<nat>
    var lastLimitedLog: Option<nat>
    /** Everything asked and everything written so far; the queue stands for these. */
    ghost var requests: seq<nat>
    ghost var occasions: seq<nat>

    /** The queue is the tail of all admissions that had not expired when it was last used. */
    ghost predicate Valid()
      reads this
    {
      var all := Admitted(cap, requests);
      && NonDecreasing(requests) && NonDecreasing(occasions)
      && (requests != [] ==> Recent(all, requests[|requests| - 1]) == window)
      && (requests == [] ==> window == [])
      && |window| <= cap
      && lastLimitedLog == (var written := Logged(occasions); if written == [] then None else Some(written[|written| - 1]))
    }

    constructor (cap: u32)
      ensures Valid() && this.cap == cap && requests == [] && occasions == []
    {
      this.cap := cap;
      window, lastLimitedLog, requests, occasions := [], None, [], [];
    }

    /**
     Admits a request exactly when fewer than `cap` of all admissions lie in the trailing
     minute. The cast of the queue's length to 32 bits never loses anything.
     */
    method PermitAt(now: nat) returns (ok: bool)
      requires Valid() && forall t | t in requests :: t <= now
      modifies this`window, this`requests
      ensures Valid() && requests == old(requests) + [now]
      ensures var history := Admitted(cap, old(requests));
              && (ok <==> CountWithin(history, now) < cap) && (!ok <==> CountWithin(history, now) == cap)
              && Admitted(cap, requests) == if ok then history + [now] else history
      ensures window == Recent(Admitted(cap, requests), now)
    {
      hide Recent, Admitted, CountWithin, Logged;
      ghost var history := Admitted(cap, requests);
      BudgetKept(cap, requests);
      NothingAdmitted(cap);
      QueueLater(history, requests, window, now);
      LaterKeepsOrder(requests, now);
      OneMoreRequest(cap, requests, now);
      RecentCounts(history, now);
      AppendRecent(history, now);
      DropExpired(history, now);
      assert (requests + [now])[|requests|] == now;
      requests := requests + [now];
      if |window| % U32_RANGE >= cap {
        return false;
      }
      window := window + [now];
      return true;
    }

    /** The loop that takes expired admissions off the front. */
    method DropExpired(ghost history: seq<nat>, now: nat)
      requires Recent(history, now) == Recent(window, now)
      modifies this`window
      ensures window == Recent(history, now) && |window| <= |old(window)|
    {
      while window != []
        invariant Recent(history, now) == Recent(window, now) && |window| <= |old(window)|
      {
        if now - window[0] >= MINUTE {
          window := window[1..];
        } else {
          break;
        }
      }
    }

    /** A limit-hit record is written when none was in the trailing minute. */
    method ShouldLogRateLimitAt(now: nat) returns (write: bool)
      requires Valid() && forall t | t in occasions :: t <= now
      modifies this`lastLimitedLog, this`occasions
      ensures Valid() && occasions == old(occasions) + [now]
      ensures Logged(occasions) == if write then Logged(old(occasions)) + [now] else Logged(old(occasions))
    {
      hide Recent, Admitted, Logged;
      LaterKeepsOrder(occasions, now);
      OneMoreOccasion(occasions, now);
      occasions := occasions + [now];
      if lastLimitedLog.Some? && now < lastLimitedLog.value + MINUTE {
        return false;
      }
      lastLimitedLog := Some(now);
      return true;
    }
  }

  lemma NothingAdmitted(cap: nat)
    ensures Admitted(cap, []) == []
  {
  }

  /** What has expired once stays expired. */
  lemma {:induction false} RecentTwice(history: seq<nat>, t: nat, now: nat)
    requires t <= now
    ensures Recent(Recent(history, t), now) == Recent(history, now)
  {
    if history != [] && !Within(history[0], t) {
      RecentTwice(history[1..], t, now);
    }
  }

  lemma QueueLater(history: seq<nat>, requests: seq<nat>, window: seq<nat>, now: nat)
    requires requests != [] ==> Recent(history, requests[|requests| - 1]) == window
    requires requests == [] ==> window == [] && history == []
    requires forall t | t in requests :: t <= now
    ensures Recent(history, now) == Recent(window, now)
  {
    if requests != [] {
      assert requests[|requests| - 1] in requests;
      RecentTwice(history, requests[|requests| - 1], now);
    }
  }

  lemma {:induction false} AppendRecent(history: seq<nat>, now: nat)
    ensures Recent(history + [now], now) == Recent(history, now) + [now]
  {
    if history != [] {
      assert (history + [now])[1..] == history[1..] + [now];
      if !Within(history[0], now) {
        AppendRecent(history[1..], now);
      }
    }
  }
}
