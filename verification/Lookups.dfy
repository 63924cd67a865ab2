/**
 The worker's in-memory lookup caches. Each maps a wire name to what the database answered,
 including "no such row", for sixty seconds. A lookup awaits the database between its miss
 and the store of the answer, and nothing in the caches keeps other lookups out meanwhile, so
 call, query and return are separate events.
 */
module Lookups {
  import opened Options

  const TTL: int := 60

  datatype Entry<V> = Entry(answer: Option<V>, expires: int)

  // The cached answer, unless the entry is absent or its expiry lies before now.
  function Cached<K, V>(entries: map<K, Entry<V>>, key: K, now: int): Option<Option<V>> {
    if key in entries && !(entries[key].expires < now) then Some(entries[key].answer) else None
  }

  function Stored<K, V>(entries: map<K, Entry<V>>, key: K, answer: Option<V>, now: int): map<K, Entry<V>> {
    entries[key := Entry(answer, now + TTL)]
  }

  class TtlCache<K(==), V> {
    var entries: map<K, Entry<V>>

    constructor ()
      ensures entries == map[]
    {
      entries := map[];
    }

    // Up to the await: an answer, or None when the database has to be asked.
    method Consult(key: K, now: int) returns (hit: Option<Option<V>>)
      ensures hit == Cached(entries, key, now)
      ensures hit.Some? <==> key in entries && now <= entries[key].expires
      ensures hit.Some? ==> hit.value == entries[key].answer
    {
      if key in entries {
        var entry := entries[key];
        if !(entry.expires < now) {
          return Some(entry.answer);
        }
      }
      return None;
    }

    // After the await: the answer is kept whether or not a row was found.
    method Store(key: K, answer: Option<V>, now: int)
      modifies this
      ensures entries == Stored(old(entries), key, answer, now)
      ensures forall t | t <= now + 60 :: Cached(entries, key, t) == Some(answer)
      ensures forall t | now + 60 < t :: Cached(entries, key, t) == None
      ensures key in entries && entries[key] == Entry(answer, now + 60)
      ensures entries - {key} == old(entries) - {key}
    {
      entries := entries[key := Entry(answer, now + TTL)];
    }

    method Invalidate(key: K)
      modifies this
      ensures entries == old(entries) - {key}
      ensures forall t :: Cached(entries, key, t) == None
    {
      entries := entries - {key};
    }

    method InvalidateAll()
      modifies this
      ensures entries == map[]
    {
      entries := map[];
    }
  }

  // ---------------------------------------------------------------- runs

  // What a SELECT for a key would return at each instant; it changes as it likes.
  type Database<!K, V> = (int, K) -> Option<V>

  datatype Query<K, V> = Sent(key: K) | Seen(key: K, answer: Option<V>, seenAt: int)

  datatype Answer<K, V> = Answer(key: K, value: Option<V>, at: int)

  datatype State<K, V> = State(
    clock: int,
    entries: map<K, Entry<V>>,
    queries: map<nat, Query<K, V>>,
    answers: seq<Answer<K, V>>)

  datatype Event<K> =
    | Call(id: nat, key: K, at: int)
    | Select(id: nat, at: int)
    | Return(id: nat, at: int)
    | Forget(key: K, at: int)
    | ForgetAll(at: int)

  // Time does not run backwards, and an answer reaches the cache within `latency` of the
  // instant at which the database gave it.
  predicate Enabled<K, V>(s: State<K, V>, e: Event<K>, latency: nat) {
    s.clock <= e.at &&
    match e
    case Call(id, _, _) => id !in s.queries
    case Select(id, _) => id in s.queries && s.queries[id].Sent?
    case Return(id, at) => id in s.queries && s.queries[id].Seen? && at - s.queries[id].seenAt <= latency
    case Forget(_, _) => true
    case ForgetAll(_) => true
  }

  function Step<K, V>(db: Database<K, V>, s: State<K, V>, e: Event<K>, latency: nat): State<K, V>
    requires Enabled(s, e, latency)
  {
    var t := s.(clock := e.at);
    match e
    case Call(id, key, now) =>
      (match Cached(s.entries, key, now)
       case Some(answer) => t.(answers := s.answers + [Answer(key, answer, now)])
       case None => t.(queries := s.queries[id := Sent(key)]))
    case Select(id, at) =>
      var key := s.queries[id].key;
      t.(queries := s.queries[id := Seen(key, db(at, key), at)])
    case Return(id, at) =>
      var q := s.queries[id];
      t.(entries := Stored(s.entries, q.key, q.answer, at),
         queries := s.queries - {id},
         answers := s.answers + [Answer(q.key, q.answer, at)])
    case Forget(key, _) => t.(entries := s.entries - {key})
    case ForgetAll(_) => t.(entries := map[])
  }

  predicate Feasible<K, V>(db: Database<K, V>, s: State<K, V>, es: seq<Event<K>>, latency: nat)
    decreases |es|
  {
    es == [] || (Enabled(s, es[0], latency) && Feasible(db, Step(db, s, es[0], latency), es[1..], latency))
  }

  function Run<K, V>(db: Database<K, V>, s: State<K, V>, es: seq<Event<K>>, latency: nat): State<K, V>
    requires Feasible(db, s, es, latency)
    decreases |es|
  {
    if es == [] then s else Run(db, Step(db, s, es[0], latency), es[1..], latency)
  }

  function Start<K, V>(now: int): State<K, V> {
    State(now, map[], map[], [])
  }

  // The database gave this answer for key at some instant of the closed interval.
  ghost predicate Held<K, V>(db: Database<K, V>, key: K, answer: Option<V>, first: int, last: int) {
    exists q :: first <= q <= last && db(q, key) == answer
  }

  ghost predicate FreshWithin<K, V>(db: Database<K, V>, a: Answer<K, V>, age: int) {
    Held(db, a.key, a.value, a.at - age, a.at)
  }

  ghost predicate EntryInv<K, V>(db: Database<K, V>, s: State<K, V>, latency: nat) {
    forall k | k in s.entries ::
      s.entries[k].expires - TTL <= s.clock &&
      Held(db, k, s.entries[k].answer, s.entries[k].expires - TTL - latency, s.entries[k].expires - TTL)
  }

  ghost predicate QueryInv<K, V>(db: Database<K, V>, s: State<K, V>) {
    forall id | id in s.queries && s.queries[id].Seen? ::
      s.queries[id].seenAt <= s.clock &&
      db(s.queries[id].seenAt, s.queries[id].key) == s.queries[id].answer
  }

  ghost predicate AnswersFresh<K, V>(db: Database<K, V>, s: State<K, V>, age: int) {
    forall i | 0 <= i < |s.answers| :: FreshWithin(db, s.answers[i], age)
  }

  ghost predicate Inv<K, V>(db: Database<K, V>, s: State<K, V>, latency: nat) {
    EntryInv(db, s, latency) && QueryInv(db, s) && AnswersFresh(db, s, TTL + latency)
  }

  lemma StepKeepsInv<K, V>(db: Database<K, V>, s: State<K, V>, e: Event<K>, latency: nat)
    requires Inv(db, s, latency) && Enabled(s, e, latency)
    ensures Inv(db, Step(db, s, e, latency), latency)
  {
    match e
    case Call(_, key, now) =>
      if Cached(s.entries, key, now).Some? {
        assert FreshWithin(db, Answer(key, s.entries[key].answer, now), TTL + latency);
      }
    case Return(id, at) =>
      var q := s.queries[id];
      assert Held(db, q.key, q.answer, at - latency, at);
      assert FreshWithin(db, Answer(q.key, q.answer, at), TTL + latency);
    case _ =>
  }

  lemma {:induction false} RunKeepsInv<K, V>(db: Database<K, V>, s: State<K, V>, es: seq<Event<K>>, latency: nat)
    requires Inv(db, s, latency) && Feasible(db, s, es, latency)
    ensures Inv(db, Run(db, s, es, latency), latency)
    decreases |es|
  {
    if es != [] {
      StepKeepsInv(db, s, es[0], latency);
      RunKeepsInv(db, Step(db, s, es[0], latency), es[1..], latency);
    }
  }

  // Over every run and every history of the database: each answer, a cached "no such row"
  // included, is what the database held at some instant within the last TTL + latency.
  lemma AnswersAreRecent<K, V>(db: Database<K, V>, now: int, es: seq<Event<K>>, latency: nat)
    requires Feasible(db, Start(now), es, latency)
    ensures AnswersFresh(db, Run(db, Start(now), es, latency), TTL + latency)
  {
    RunKeepsInv(db, Start(now), es, latency);
  }

  // ---------------------------------------------------------------- when sixty seconds suffice

  ghost predicate AlwaysFreshWithin<K(!new), V(!new)>(age: int, latency: nat) {
    forall db: Database<K, V>, now: int, es: seq<Event<K>> |
      Feasible(db, Start(now), es, latency) :: AnswersFresh(db, Run(db, Start(now), es, latency), age)
  }

  // A row that disappears right after it was read.
  function Deleted<K, V>(v: V): Database<K, V> {
    (t: int, k: K) => if t <= 0 then Some(v) else None
  }

  function SlowThenHit<K>(k: K, latency: nat): seq<Event<K>> {
    [Call(0, k, 0), Select(0, 0), Return(0, latency), Call(0, k, latency + TTL)]
  }

  lemma SlowAnswerOutlivesTtl<K, V>(k: K, v: V, latency: nat)
    ensures var db: Database<K, V>, es := Deleted(v), SlowThenHit(k, latency);
            Feasible(db, Start(0), es, latency) &&
            var s := Run(db, Start(0), es, latency);
            |s.answers| == 2 && s.answers[1] == Answer(k, Some(v), latency + TTL)
  {
    var db: Database<K, V>, es := Deleted(v), SlowThenHit(k, latency);
    var s1 := Step(db, Start(0), es[0], latency);
    var s2 := Step(db, s1, es[1], latency);
    var s3 := Step(db, s2, es[2], latency);
    var s4 := Step(db, s3, es[3], latency);
    assert es[1..] == [es[1], es[2], es[3]] && es[1..][1..] == [es[2], es[3]];
    assert es[1..][1..][1..] == [es[3]] && es[1..][1..][1..][1..] == [];
    assert Feasible(db, s4, [], latency) && Run(db, s4, [], latency) == s4;
    assert Feasible(db, s3, [es[3]], latency) && Run(db, s3, [es[3]], latency) == s4;
    assert Feasible(db, s2, [es[2], es[3]], latency) && Run(db, s2, [es[2], es[3]], latency) == s4;
    assert Feasible(db, s1, es[1..], latency) && Run(db, s1, es[1..], latency) == s4;
  }

  // The sixty-second promise is exact only for a database that answers instantly: expiry
  // counts from the moment the answer is stored, not from the moment it was true.
  lemma TtlSufficesExactlyWhenInstant<K(!new), V(!new)>(k: K, v: V, latency: nat)
    ensures AlwaysFreshWithin<K, V>(TTL, latency) <==> latency == 0
  {
    if latency == 0 {
      forall db: Database<K, V>, now: int, es: seq<Event<K>> | Feasible(db, Start(now), es, latency)
        ensures AnswersFresh(db, Run(db, Start(now), es, latency), TTL)
      {
        AnswersAreRecent(db, now, es, latency);
      }
    } else {
      var db: Database<K, V>, es := Deleted(v), SlowThenHit(k, latency);
      SlowAnswerOutlivesTtl<K, V>(k, v, latency);
      var s := Run(db, Start(0), es, latency);
      assert !FreshWithin(db, s.answers[1], TTL);
    }
  }

  // ---------------------------------------------------------------- invalidation

  // No answer for key is still on its way to the cache at `at`, unless it is too old to get
  // there or was given at that very instant.
  ghost predicate NoneInFlight<K, V>(db: Database<K, V>, s: State<K, V>, key: K, at: int, latency: nat) {
    forall id | id in s.queries && s.queries[id].Seen? && s.queries[id].key == key ::
      at - s.queries[id].seenAt > latency || (at == s.clock && db(at, key) == s.queries[id].answer)
  }

  // Everything known about key was true at or after `from`; an answer still on its way from
  // earlier is too old to get there.
  ghost predicate Since<K, V>(db: Database<K, V>, s: State<K, V>, key: K, from: int, given: nat, latency: nat) {
    && from <= s.clock
    && given <= |s.answers|
    && (key in s.entries ==> Held(db, key, s.entries[key].answer, from, s.clock))
    && (forall id | id in s.queries && s.queries[id].Seen? && s.queries[id].key == key ::
          s.clock - s.queries[id].seenAt > latency || Held(db, key, s.queries[id].answer, from, s.clock))
    && AnswersSince(db, s, key, from, given)
  }

  // Every answer for key after the first `given` ones was true at or after `from`.
  ghost predicate AnswersSince<K, V>(db: Database<K, V>, s: State<K, V>, key: K, from: int, given: nat) {
    forall i | given <= i < |s.answers| && s.answers[i].key == key ::
      Held(db, key, s.answers[i].value, from, s.answers[i].at)
  }

  lemma HeldLater<K, V>(db: Database<K, V>, key: K, answer: Option<V>, first: int, last: int, later: int)
    requires Held(db, key, answer, first, last) && last <= later
    ensures Held(db, key, answer, first, later)
  {
  }

  lemma SinceStep<K, V>(db: Database<K, V>, s: State<K, V>, e: Event<K>, latency: nat,
                        key: K, from: int, given: nat)
    requires Since(db, s, key, from, given, latency) && Enabled(s, e, latency)
    ensures Since(db, Step(db, s, e, latency), key, from, given, latency)
  {
    var t := Step(db, s, e, latency);
    if key in s.entries {
      HeldLater(db, key, s.entries[key].answer, from, s.clock, t.clock);
    }
    forall id | id in s.queries && s.queries[id].Seen? && s.queries[id].key == key
      ensures t.clock - s.queries[id].seenAt > latency || Held(db, key, s.queries[id].answer, from, t.clock)
    {
      if s.clock - s.queries[id].seenAt <= latency {
        HeldLater(db, key, s.queries[id].answer, from, s.clock, t.clock);
      }
    }
    if e.Select? && s.queries[e.id].key == key {
      assert Held(db, key, db(e.at, key), from, t.clock);
    }
  }

  lemma {:induction false} SinceKept<K, V>(db: Database<K, V>, s: State<K, V>, es: seq<Event<K>>,
                                           latency: nat, key: K, from: int, given: nat)
    requires Since(db, s, key, from, given, latency) && Feasible(db, s, es, latency)
    ensures Since(db, Run(db, s, es, latency), key, from, given, latency)
    decreases |es|
  {
    if es != [] {
      SinceStep(db, s, es[0], latency, key, from, given);
      SinceKept(db, Step(db, s, es[0], latency), es[1..], latency, key, from, given);
    }
  }

  // Two histories of the database that agree up to an instant.
  ghost predicate SameUpTo<K(!new), V>(db: Database<K, V>, other: Database<K, V>, last: int) {
    forall t, k | t <= last :: other(t, k) == db(t, k)
  }

  // Over the given future of the database, every answer for key after its invalidation was
  // true at or after it.
  ghost predicate Forgotten<K, V>(db: Database<K, V>, s: State<K, V>, key: K, at: int, es: seq<Event<K>>,
                                  latency: nat)
    requires Feasible(db, s, [Forget(key, at)] + es, latency)
  {
    var after := Run(db, s, [Forget(key, at)] + es, latency);
    |s.answers| <= |after.answers| && AnswersSince(db, after, key, at, |s.answers|)
  }

  lemma ForgottenForGood<K(!new), V>(db: Database<K, V>, other: Database<K, V>, s: State<K, V>, key: K, at: int,
                                     es: seq<Event<K>>, latency: nat)
    requires SameUpTo(db, other, s.clock) && NoneInFlight(db, s, key, at, latency)
    requires Feasible(other, s, [Forget(key, at)] + es, latency)
    ensures Forgotten(other, s, key, at, es, latency)
  {
    var all := [Forget(key, at)] + es;
    assert all[1..] == es;
    var t := Step(other, s, all[0], latency);
    forall id | id in t.queries && t.queries[id].Seen? && t.queries[id].key == key
      ensures t.clock - t.queries[id].seenAt > latency || Held(other, key, t.queries[id].answer, at, t.clock)
    {
      assert at == s.clock ==> other(at, key) == db(at, key);
    }
    SinceKept(other, t, es, latency, key, at, |s.answers|);
  }

  // An answer in flight is stored after the invalidation, and is handed out for a full TTL.
  lemma ForgottenThenRestored<K, V>(db: Database<K, V>, s: State<K, V>, key: K, at: int, id: nat, latency: nat)
    requires id in s.queries && s.queries[id].Seen? && s.queries[id].key == key
    requires s.clock <= at && at - s.queries[id].seenAt <= latency
    ensures var es := [Forget(key, at)] + [Return(id, at)];
            Feasible(db, s, es, latency) &&
            var t := Run(db, s, es, latency);
            t.answers == s.answers + [Answer(key, s.queries[id].answer, at)]
            && forall now | now <= at + TTL :: Cached(t.entries, key, now) == Some(s.queries[id].answer)
  {
    var es: seq<Event<K>> := [Forget(key, at)] + [Return(id, at)];
    var s1 := Step(db, s, es[0], latency);
    var s2 := Step(db, s1, es[1], latency);
    assert es[1..] == [es[1]] && es[1..][1..] == [];
    assert Feasible(db, s2, [], latency) && Run(db, s2, [], latency) == s2;
    assert Feasible(db, s1, es[1..], latency) && Run(db, s1, es[1..], latency) == s2;
  }

  // db up to an instant, then anything but this answer for key.
  ghost function Diverging<K(!new), V>(db: Database<K, V>, key: K, answer: Option<V>, last: int, v: V): Database<K, V> {
    (t: int, k: K) => if t <= last then db(t, k) else if answer.Some? then None else Some(v)
  }

  // From any state, an invalidation holds in every future of the database and every run
  // exactly when no answer for the key is in flight.
  lemma ForgottenExactlyWhen<K(!new), V(!new)>(db: Database<K, V>, s: State<K, V>, key: K, at: int, latency: nat, v: V)
    requires s.clock <= at
    ensures (forall other: Database<K, V>, es: seq<Event<K>> |
               SameUpTo(db, other, s.clock) && Feasible(other, s, [Forget(key, at)] + es, latency) ::
               Forgotten(other, s, key, at, es, latency))
            <==> NoneInFlight(db, s, key, at, latency)
  {
    if NoneInFlight(db, s, key, at, latency) {
      forall other: Database<K, V>, es: seq<Event<K>> |
        SameUpTo(db, other, s.clock) && Feasible(other, s, [Forget(key, at)] + es, latency)
        ensures Forgotten(other, s, key, at, es, latency)
      {
        ForgottenForGood(db, other, s, key, at, es, latency);
      }
    } else {
      var id :| id in s.queries && s.queries[id].Seen? && s.queries[id].key == key
                && at - s.queries[id].seenAt <= latency
                && !(at == s.clock && db(at, key) == s.queries[id].answer);
      RestoredIsStale(db, s, key, at, id, latency, v);
    }
  }

  lemma RestoredIsStale<K(!new), V(!new)>(db: Database<K, V>, s: State<K, V>, key: K, at: int, id: nat,
                                          latency: nat, v: V)
    requires id in s.queries && s.queries[id].Seen? && s.queries[id].key == key
    requires s.clock <= at && at - s.queries[id].seenAt <= latency
    requires !(at == s.clock && db(at, key) == s.queries[id].answer)
    ensures var other, es := Diverging(db, key, s.queries[id].answer, s.clock, v), [Return(id, at)];
            SameUpTo(db, other, s.clock) && Feasible(other, s, [Forget(key, at)] + es, latency)
            && !Forgotten(other, s, key, at, es, latency)
  {
    var answer := s.queries[id].answer;
    var other, es: seq<Event<K>> := Diverging(db, key, answer, s.clock, v), [Return(id, at)];
    ForgottenThenRestored(other, s, key, at, id, latency);
    var after := Run(other, s, [Forget(key, at)] + es, latency);
    assert after.answers[|s.answers|] == Answer(key, answer, at);
    assert other(at, key) != answer;
    assert !Held(other, key, answer, at, at);
  }

  // The danger is real: a row deleted right after it was read comes back for the next caller.
  lemma DeletedRowComesBack<K, V>(k: K, v: V)
    ensures var db: Database<K, V> := Deleted(v);
            var es := [Call(0, k, 0), Select(0, 0), Forget(k, 1), Return(0, 1), Call(1, k, 1 + TTL)];
            Feasible(db, Start(0), es, 1) &&
            var s := Run(db, Start(0), es, 1);
            |s.answers| == 2 && s.answers[1] == Answer(k, Some(v), 1 + TTL)
            && !Held(db, k, Some(v), 1, 1 + TTL)
  {
    var db: Database<K, V> := Deleted(v);
    var es := [Call(0, k, 0), Select(0, 0), Forget(k, 1), Return(0, 1), Call(1, k, 1 + TTL)];
    var s1 := Step(db, Start(0), es[0], 1);
    var s2 := Step(db, s1, es[1], 1);
    var s3 := Step(db, s2, es[2], 1);
    var s4 := Step(db, s3, es[3], 1);
    var s5 := Step(db, s4, es[4], 1);
    assert Feasible(db, s5, [], 1) && Run(db, s5, [], 1) == s5;
    assert es[1..][1..] == es[2..] && es[2..][1..] == es[3..] && es[3..][1..] == es[4..] && es[4..][1..] == [];
    assert Feasible(db, s4, es[4..], 1) && Run(db, s4, es[4..], 1) == s5;
    assert Feasible(db, s3, es[3..], 1) && Run(db, s3, es[3..], 1) == s5;
    assert Feasible(db, s2, es[2..], 1) && Run(db, s2, es[2..], 1) == s5;
    assert Feasible(db, s1, es[1..], 1) && Run(db, s1, es[1..], 1) == s5;
  }
}
