/**
 How many unfinished handshakes a guardian keeps with one peer (`src/secure/session.rs`):
 sent hellos and unconfirmed answers are counted together, each under the order number
 it was given, and the oldest ones go first.
 */
module PendingBound {
  import opened Collections
  import opened Secure
  import opened Sessions
  import opened Handshakes

  const PENDING_LIMIT := 4

  predicate Waits(s: Session, peer: string) {
    s.peer == peer && s.state.AckSent?
  }

  function SentHellos(pending: seq<Pending>, peer: string): set<u64> {
    set p | p in pending && p.hello.to == peer :: p.order
  }

  function Unconfirmed(active: map<string, Session>, peer: string): set<u64> {
    set sid | sid in active && Waits(active[sid], peer) :: active[sid].order
  }

  /** The order numbers of everything unfinished with one peer. */
  function Waiting(pending: seq<Pending>, active: map<string, Session>, peer: string): set<u64> {
    SentHellos(pending, peer) + Unconfirmed(active, peer)
  }

  /** Order numbers are given once, and hellos are queued as they are numbered. */
  ghost predicate Numbered(pending: seq<Pending>, active: map<string, Session>, order: u64) {
    && (forall i, j | 0 <= i < j < |pending| :: pending[i].order < pending[j].order)
    && (forall p, sid | p in pending && sid in active :: p.order != active[sid].order)
    && (forall sid, sid' | sid in active && sid' in active && sid != sid' :: active[sid].order != active[sid'].order)
    && (forall p | p in pending :: p.order <= order)
    && forall sid | sid in active :: active[sid].order <= order
  }

  ghost predicate WithinLimit(pending: seq<Pending>, active: map<string, Session>) {
    forall peer: string :: |Waiting(pending, active, peer)| <= PENDING_LIMIT
  }

  // --------------------------------------------------------------- dropping

  function Without(pending: seq<Pending>, gone: set<u64>): seq<Pending> {
    if pending == [] then []
    else (if pending[0].order in gone then [] else [pending[0]]) + Without(pending[1..], gone)
  }

  function Kept(active: map<string, Session>, gone: set<u64>): map<string, Session> {
    map sid | sid in active && active[sid].order !in gone :: active[sid]
  }

  lemma {:induction false} WithoutMembers(pending: seq<Pending>, gone: set<u64>)
    ensures forall p :: p in Without(pending, gone) <==> p in pending && p.order !in gone
  {
    if pending != [] {
      WithoutMembers(pending[1..], gone);
      assert forall p :: p in pending <==> p == pending[0] || p in pending[1..];
    }
  }

  ghost predicate Ascending(pending: seq<Pending>) {
    forall i, j | 0 <= i < j < |pending| :: pending[i].order < pending[j].order
  }

  lemma {:induction false} WithoutAscending(pending: seq<Pending>, gone: set<u64>)
    requires Ascending(pending)
    ensures Ascending(Without(pending, gone))
  {
    if pending != [] {
      WithoutAscending(pending[1..], gone);
      WithoutMembers(pending[1..], gone);
      var rest := Without(pending[1..], gone);
      forall j | 0 <= j < |rest| ensures pending[0].order < rest[j].order {
        assert rest[j] in rest;
        var k :| 0 <= k < |pending[1..]| && pending[1..][k] == rest[j];
        assert pending[k + 1] == rest[j];
      }
    }
  }

  lemma {:induction false} WithoutTwice(pending: seq<Pending>, gone: set<u64>, more: set<u64>)
    ensures Without(Without(pending, gone), more) == Without(pending, gone + more)
  {
    if pending != [] {
      WithoutTwice(pending[1..], gone, more);
      var rest := Without(pending[1..], gone);
      assert ([pending[0]] + rest)[1..] == rest;
      assert [] + rest == rest;
    }
  }

  lemma {:induction false} WithoutNone(pending: seq<Pending>, gone: set<u64>)
    requires forall p | p in pending :: p.order !in gone
    ensures Without(pending, gone) == pending
  {
    if pending != [] {
      assert forall p | p in pending[1..] :: p in pending;
      WithoutNone(pending[1..], gone);
      assert pending == [pending[0]] + pending[1..];
    }
  }

  /** Taking one hello out of the queue. */
  lemma {:induction false} WithoutOne(pending: seq<Pending>, i: nat)
    requires Ascending(pending) && i < |pending|
    ensures Without(pending, {pending[i].order}) == pending[..i] + pending[i + 1..]
  {
    var rest := pending[1..];
    if i == 0 {
      forall p | p in rest ensures p.order != pending[0].order {
        var k :| 0 <= k < |rest| && rest[k] == p;
        assert pending[k + 1] == p;
      }
      WithoutNone(rest, {pending[0].order});
    } else {
      WithoutOne(rest, i - 1);
      assert rest[i - 1] == pending[i];
      assert pending[..i] + pending[i + 1..] == [pending[0]] + (rest[..i - 1] + rest[i..]);
    }
  }

  lemma KeptTwice(active: map<string, Session>, gone: set<u64>, more: set<u64>)
    ensures Kept(Kept(active, gone), more) == Kept(active, gone + more)
  {
  }

  lemma KeptOne(pending: seq<Pending>, active: map<string, Session>, order: u64, sid: string)
    requires Numbered(pending, active, order) && sid in active
    ensures Kept(active, {active[sid].order}) == active - {sid}
    ensures Without(pending, {active[sid].order}) == pending
  {
    WithoutNone(pending, {active[sid].order});
  }

  lemma PendingOne(pending: seq<Pending>, active: map<string, Session>, order: u64, i: nat)
    requires Numbered(pending, active, order) && i < |pending|
    ensures Kept(active, {pending[i].order}) == active
    ensures Without(pending, {pending[i].order}) == pending[..i] + pending[i + 1..]
  {
    hide Without;
    WithoutOne(pending, i);
    assert pending[i] in pending;
    KeptAll(active, {pending[i].order});
  }

  lemma KeptAll(active: map<string, Session>, gone: set<u64>)
    requires forall sid | sid in active :: active[sid].order !in gone
    ensures Kept(active, gone) == active
  {
  }

  /** Dropping keeps the numbering and takes away only what was named. */
  lemma DroppedOk(pending: seq<Pending>, active: map<string, Session>, order: u64, gone: set<u64>)
    requires Numbered(pending, active, order)
    ensures Numbered(Without(pending, gone), Kept(active, gone), order)
    ensures forall peer :: Waiting(Without(pending, gone), Kept(active, gone), peer) == Waiting(pending, active, peer) - gone
  {
    WithoutAscending(pending, gone);
    WithoutMembers(pending, gone);
    forall peer: string
      ensures Waiting(Without(pending, gone), Kept(active, gone), peer) == Waiting(pending, active, peer) - gone
    {
      WaitingDropped(pending, active, gone, peer);
    }
  }

  lemma WaitingDropped(pending: seq<Pending>, active: map<string, Session>, gone: set<u64>, peer: string)
    ensures Waiting(Without(pending, gone), Kept(active, gone), peer) == Waiting(pending, active, peer) - gone
  {
    WithoutMembers(pending, gone);
    assert SentHellos(Without(pending, gone), peer) == SentHellos(pending, peer) - gone;
    forall x | x in Unconfirmed(active, peer) - gone ensures x in Unconfirmed(Kept(active, gone), peer) {
      var sid :| sid in active && Waits(active[sid], peer) && active[sid].order == x;
      assert sid in Kept(active, gone);
    }
  }

  lemma DroppedWithinLimit(pending: seq<Pending>, active: map<string, Session>, order: u64, gone: set<u64>)
    requires Numbered(pending, active, order) && WithinLimit(pending, active)
    ensures WithinLimit(Without(pending, gone), Kept(active, gone))
  {
    hide Numbered, Waiting, Without, Kept;
    DroppedOk(pending, active, order, gone);
    forall peer: string ensures |Waiting(Without(pending, gone), Kept(active, gone), peer)| <= PENDING_LIMIT {
      SubsetCount(Waiting(pending, active, peer) - gone, Waiting(pending, active, peer));
    }
  }

  // ---------------------------------------------------------------- trimming

  /** Nothing happens below the limit; otherwise the newest three unfinished ones are what stays. */
  ghost predicate Trimmed(
    pending: seq<Pending>, active: map<string, Session>, pending': seq<Pending>, active': map<string, Session>, peer: string)
  {
    var before, after := Waiting(pending, active, peer), Waiting(pending', active', peer);
    var gone := before - after;
    && after <= before
    && |after| == (if |before| < PENDING_LIMIT then |before| else PENDING_LIMIT - 1)
    && (forall x, y | x in gone && y in after :: x < y)
    && pending' == Without(pending, gone) && active' == Kept(active, gone)
  }

  /** Trimming is decided by that: the result is the only one. */
  lemma TrimmedUnique(
      pending: seq<Pending>, active: map<string, Session>,
      p1: seq<Pending>, a1: map<string, Session>, p2: seq<Pending>, a2: map<string, Session>, peer: string)
    requires Trimmed(pending, active, p1, a1, peer) && Trimmed(pending, active, p2, a2, peer)
    ensures p1 == p2 && a1 == a2
  {
    hide Waiting, Without, Kept;
    NewestUnique(Waiting(pending, active, peer), Waiting(p1, a1, peer), Waiting(p2, a2, peer));
  }

  lemma NewestUnique(all: set<u64>, s: set<u64>, t: set<u64>)
    requires s <= all && t <= all && |s| == |t|
    requires (forall x, y | x in all - s && y in s :: x < y) && (forall x, y | x in all - t && y in t :: x < y)
    ensures s == t
  {
    if s != t {
      if s - t == {} {
        assert forall x | x in s :: x in t || x in s - t;
        SubsetEqual(s, t);
      } else if t - s == {} {
        assert forall x | x in t :: x in s || x in t - s;
        SubsetEqual(t, s);
      } else {
        var x :| x in s - t;
        var y :| y in t - s;
        Before(all, s, y, x);
        Before(all, t, x, y);
      }
    }
  }

  lemma Before(all: set<u64>, s: set<u64>, x: u64, y: u64)
    requires forall x, y | x in all - s && y in s :: x < y
    ensures x in all && x !in s && y in s ==> x < y
  {
    assert x in all && x !in s ==> x in all - s;
  }

  lemma SubsetEqual<T>(a: set<T>, b: set<T>)
    requires a <= b && |a| == |b|
    ensures a == b
  {
    assert b == a + (b - a);
  }

  /** Dropping the oldest of at least four is one step of trimming. */
  lemma TrimStep(
      pending: seq<Pending>, active: map<string, Session>, order: u64, peer: string, oldest: u64,
      pending': seq<Pending>, active': map<string, Session>)
    requires Numbered(pending, active, order) && |Waiting(pending, active, peer)| >= PENDING_LIMIT
    requires oldest in Waiting(pending, active, peer) && forall x | x in Waiting(pending, active, peer) :: oldest <= x
    requires Trimmed(Without(pending, {oldest}), Kept(active, {oldest}), pending', active', peer)
    ensures Trimmed(pending, active, pending', active', peer)
  {
    hide Waiting, Without, Kept, Numbered;
    DroppedOk(pending, active, order, {oldest});
    var before, after := Waiting(pending, active, peer), Waiting(pending', active', peer);
    assert before - after == {oldest} + (before - {oldest} - after);
    WithoutTwice(pending, {oldest}, before - {oldest} - after);
    KeptTwice(active, {oldest}, before - {oldest} - after);
  }

  lemma TrimNothing(pending: seq<Pending>, active: map<string, Session>, peer: string)
    requires |Waiting(pending, active, peer)| < PENDING_LIMIT
    ensures Trimmed(pending, active, pending, active, peer)
  {
    hide Waiting;
    WithoutNone(pending, {});
    assert Waiting(pending, active, peer) - Waiting(pending, active, peer) == {};
  }

  // ---------------------------------------------------------------- counting

  lemma {:induction false} InjectiveImage<T>(m: map<T, u64>)
    requires forall k, k' | k in m && k' in m && k != k' :: m[k] != m[k']
    ensures |m.Values| == |m|
  {
    if m.Keys == {} {
      assert m.Values == {};
    } else {
      var k :| k in m;
      var rest := m - {k};
      InjectiveImage(rest);
      assert m.Values == rest.Values + {m[k]} by {
        forall v | v in m.Values ensures v in rest.Values + {m[k]} {
          var j :| j in m && m[j] == v;
          assert j != k ==> j in rest;
        }
      }
      assert m.Keys == rest.Keys + {k};
      assert |m| == |m.Keys| && |rest| == |rest.Keys|;
    }
  }

  /** Counting the two collections counts the order numbers. */
  lemma CountIsWaiting(
      pending: seq<Pending>, active: map<string, Session>, order: u64, peer: string, hellos: set<nat>, answers: set<string>)
    requires Numbered(pending, active, order)
    requires hellos == set i: nat | i < |pending| && pending[i].hello.to == peer
    requires answers == set sid | sid in active && Waits(active[sid], peer)
    ensures |hellos| + |answers| == |Waiting(pending, active, peer)|
  {
    var h := map i | i in hellos :: pending[i].order;
    var a := map sid | sid in answers :: active[sid].order;
    InjectiveImage(h);
    InjectiveImage(a);
    assert h.Keys == hellos && a.Keys == answers && |h| == |h.Keys| && |a| == |a.Keys|;
    HelloImage(pending, peer, hellos, h);
    assert a.Values == Unconfirmed(active, peer) by {
      forall x | x in Unconfirmed(active, peer) ensures x in a.Values {
        var sid :| sid in active && Waits(active[sid], peer) && active[sid].order == x;
        assert sid in a;
      }
    }
    assert SentHellos(pending, peer) !! Unconfirmed(active, peer);
  }

  lemma HelloImage(pending: seq<Pending>, peer: string, hellos: set<nat>, h: map<nat, u64>)
    requires hellos == set i: nat | i < |pending| && pending[i].hello.to == peer
    requires h == map i | i in hellos :: pending[i].order
    ensures h.Values == SentHellos(pending, peer)
  {
    forall x | x in SentHellos(pending, peer) ensures x in h.Values {
      var p :| p in pending && p.hello.to == peer && p.order == x;
      var i: nat :| i < |pending| && pending[i] == p;
      assert i in h;
    }
    forall x | x in h.Values ensures x in SentHellos(pending, peer) {
      var i :| i in h && h[i] == x;
      assert pending[i] in pending;
    }
  }

  lemma SomethingWaits(pending: seq<Pending>, active: map<string, Session>, peer: string)
    requires Waiting(pending, active, peer) != {}
    ensures (exists i :: 0 <= i < |pending| && pending[i].hello.to == peer)
            || exists sid :: sid in active && Waits(active[sid], peer)
  {
    var x :| x in Waiting(pending, active, peer);
    if x in SentHellos(pending, peer) {
      var p :| p in pending && p.hello.to == peer && p.order == x;
    }
  }
}
