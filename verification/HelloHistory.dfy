/**
 The history of hellos a guardian has answered (`src/secure/session.rs`): a bounded
 queue that forgets the oldest key first. Keys are pairs of context and signature.
 */
module HelloHistory {

  type Key = (string, string)

  const SEEN_HELLO_LIMIT := 1024

  function Last<T>(s: seq<T>, n: nat): (r: seq<T>)
    ensures |r| <= n && |r| <= |s| && (|s| <= n ==> r == s)
  {
    if |s| <= n then s else s[|s| - n..]
  }

  function Remember(queue: seq<Key>, key: Key): seq<Key> {
    if key in queue then queue else Last(queue + [key], SEEN_HELLO_LIMIT)
  }

  function RememberAll(queue: seq<Key>, keys: seq<Key>): seq<Key> {
    if keys == [] then queue else Remember(RememberAll(queue, keys[..|keys| - 1]), keys[|keys| - 1])
  }

  /** The keys that were not in the history when they came, in order. */
  function New(queue: seq<Key>, keys: seq<Key>): seq<Key> {
    if keys == [] then []
    else
      var before, key := keys[..|keys| - 1], keys[|keys| - 1];
      if key in RememberAll(queue, before) then New(queue, before) else New(queue, before) + [key]
  }

  ghost predicate HistoryOk(queue: seq<Key>) {
    |queue| <= SEEN_HELLO_LIMIT && forall i, j | 0 <= i < j < |queue| :: queue[i] != queue[j]
  }

  lemma RememberOk(queue: seq<Key>, key: Key)
    requires HistoryOk(queue)
    ensures HistoryOk(Remember(queue, key)) && key in Remember(queue, key)
  {
    if key !in queue {
      var q := Remember(queue, key);
      assert q[|q| - 1] == key;
    }
  }

  /** Whatever has happened, the queue is the newest 1024 of the keys that were new when they came. */
  lemma {:induction false} QueueIsNewestKeys(keys: seq<Key>)
    ensures HistoryOk(RememberAll([], keys))
    ensures RememberAll([], keys) == Last(New([], keys), SEEN_HELLO_LIMIT)
  {
    if keys != [] {
      var before, key := keys[..|keys| - 1], keys[|keys| - 1];
      QueueIsNewestKeys(before);
      RememberOk(RememberAll([], before), key);
    }
  }

  /** The place of a remembered key, counted from the newest, is the number of new keys since. */
  lemma {:induction false} ForgottenAfter(queue: seq<Key>, i: nat, keys: seq<Key>)
    requires HistoryOk(queue) && i < |queue|
    ensures HistoryOk(RememberAll(queue, keys))
    ensures var age := |queue| - 1 - i + |New(queue, keys)|;
            var q := RememberAll(queue, keys);
            && (age < SEEN_HELLO_LIMIT ==> age < |q| && q[|q| - 1 - age] == queue[i])
            && (age == SEEN_HELLO_LIMIT ==> queue[i] !in q)
  {
    if keys != [] {
      var before, key := keys[..|keys| - 1], keys[|keys| - 1];
      ForgottenAfter(queue, i, before);
      RememberOk(RememberAll(queue, before), key);
    }
  }

  /**
   A key once remembered stays in the history until exactly 1024 further keys have been
   new, however often known ones come again in between.
   */
  lemma SecondAnswerWithheld(queue: seq<Key>, key: Key, keys: seq<Key>)
    requires HistoryOk(queue) && key !in queue
    requires |New(Remember(queue, key), keys)| <= 1024
    ensures key in RememberAll(Remember(queue, key), keys) <==> |New(Remember(queue, key), keys)| < 1024
  {
    RememberOk(queue, key);
    var q := Remember(queue, key);
    ForgottenAfter(q, |q| - 1, keys);
  }
}
