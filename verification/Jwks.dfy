/**
 The server's cache of the identity provider's signing keys. One lock covers a whole GetKey,
 so calls run one after another.
 */
module Jwks {
  import opened Options

  // An element of the "keys" list; anything but an object makes the fetch raise.
  datatype Jwk = Object(kid: Option<string>, material: string) | NotObject

  // What the endpoint would deliver: a transport, status or JSON error, a "keys" member that is
  // no list, or the list (empty when the document has no such member).
  datatype Response = Failed | Document(members: seq<Jwk>)

  // Indexed by kid: a later key replaces an earlier one, a missing or empty kid is skipped.
  function KeyMap(members: seq<Jwk>): map<string, Jwk> {
    if members == [] then map[]
    else
      var before, k := KeyMap(members[..|members| - 1]), members[|members| - 1];
      if k.Object? && k.kid.Some? && k.kid.value != "" then before[k.kid.value := k] else before
  }

  predicate Usable(r: Response) {
    r.Document? && forall i | 0 <= i < |r.members| :: r.members[i].Object?
  }

  // members[i] is the last key of the list that carries the non-empty kid.
  ghost predicate LastWith(members: seq<Jwk>, kid: string, i: int) {
    && 0 <= i < |members| && kid != ""
    && members[i].Object? && members[i].kid == Some(kid)
    && forall j | i < j < |members| :: !(members[j].Object? && members[j].kid == Some(kid))
  }

  ghost predicate Carries(members: seq<Jwk>, kid: string) {
    exists i :: LastWith(members, kid, i)
  }

  // A kid is in the index exactly when the list carries it, and the index holds the last one.
  lemma {:induction false} KeyMapIsLast(members: seq<Jwk>, kid: string, key: Jwk)
    ensures kid in KeyMap(members) && KeyMap(members)[kid] == key <==>
              exists i :: LastWith(members, kid, i) && members[i] == key
  {
    if members != [] {
      var n := |members| - 1;
      var init, k := members[..n], members[n];
      KeyMapIsLast(init, kid, key);
      if kid != "" && k.Object? && k.kid == Some(kid) {
        assert LastWith(members, kid, n);
      } else {
        forall i ensures LastWith(members, kid, i) <==> LastWith(init, kid, i) {
        }
      }
    }
  }

  datatype Cache = Cache(keys: map<string, Jwk>, fetchedAt: int)

  // One call of GetKey: the clock on entry, what a fetch would meet, the clock on leaving.
  datatype Call = Call(kid: string, now: int, response: Response, done: int)

  predicate Fetches(c: Cache, ttl: int, call: Call) {
    call.now - c.fetchedAt > ttl || call.kid !in c.keys
  }

  function After(c: Cache, ttl: int, call: Call): Cache {
    if Fetches(c, ttl, call) && Usable(call.response) then Cache(KeyMap(call.response.members), call.done) else c
  }

  function Reply(c: Cache, ttl: int, call: Call): Option<Jwk> {
    var keys := After(c, ttl, call).keys;
    if Fetches(c, ttl, call) && !Usable(call.response) then None
    else if call.kid in keys then Some(keys[call.kid]) else None
  }

  class JwksCache {
    var keys: map<string, Jwk>
    var fetchedAt: int
    const ttl: int

    constructor (ttl: int)
      ensures State() == Cache(map[], 0) && this.ttl == ttl
    {
      keys, fetchedAt := map[], 0;
      this.ttl := ttl;
    }

    function State(): Cache
      reads this
    {
      Cache(keys, fetchedAt)
    }

    // ok is false when the source raises; nothing is replaced then.
    method Fetch(response: Response, done: int) returns (ok: bool)
      modifies this
      ensures ok <==> Usable(response)
      ensures State() == if ok then Cache(KeyMap(response.members), done) else old(State())
    {
      if response.Failed? { return false; }
      var members := response.members;
      var newMap: map<string, Jwk> := map[];
      for i := 0 to |members|
        invariant newMap == KeyMap(members[..i])
        invariant forall j | 0 <= j < i :: members[j].Object?
        invariant State() == old(State())
      {
        var k := members[i];
        assert members[..i + 1][..i] == members[..i];
        if k.NotObject? { return false; }
        if k.kid.Some? && k.kid.value != "" {
          newMap := newMap[k.kid.value := k];
        }
      }
      assert members[..|members|] == members;
      keys, fetchedAt := newMap, done;
      return true;
    }

    method GetKey(call: Call) returns (key: Option<Jwk>)
      modifies this
      ensures State() == After(old(State()), ttl, call)
      ensures key == Reply(old(State()), ttl, call)
      ensures call.kid in old(keys) && call.now - old(fetchedAt) <= ttl ==>
                key == Some(old(keys)[call.kid]) && keys == old(keys) && fetchedAt == old(fetchedAt)
      ensures call.kid !in old(keys) || call.now - old(fetchedAt) > ttl ==>
                if Usable(call.response)
                then && keys == KeyMap(call.response.members) && fetchedAt == call.done
                     && key == if call.kid in keys then Some(keys[call.kid]) else None
                else key == None && keys == old(keys) && fetchedAt == old(fetchedAt)
    {
      if call.now - fetchedAt > ttl || call.kid !in keys {
        var ok := Fetch(call.response, call.done);
        if !ok { return None; }
      }
      return if call.kid in keys then Some(keys[call.kid]) else None;
    }
  }

  // ---------------------------------------------------------------- runs

  // The cache as the n-th call finds it.
  function Before(ttl: int, calls: seq<Call>, n: nat): Cache
    requires n <= |calls|
  {
    if n == 0 then Cache(map[], 0) else After(Before(ttl, calls, n - 1), ttl, calls[n - 1])
  }

  // The clock is monotone, within a call and from call to call.
  ghost predicate Ordered(calls: seq<Call>) {
    && (forall i | 0 <= i < |calls| :: calls[i].now <= calls[i].done)
    && (forall i, j | 0 <= i < j < |calls| :: calls[i].done <= calls[j].now)
  }

  // Call f went to the endpoint and replaced the cache.
  predicate Refreshes(ttl: int, calls: seq<Call>, f: nat)
    requires f < |calls|
  {
    Fetches(Before(ttl, calls, f), ttl, calls[f]) && Usable(calls[f].response)
  }

  // The cache is what call f fetched.
  ghost predicate FetchedBy(ttl: int, calls: seq<Call>, c: Cache, f: int) {
    && 0 <= f < |calls| && Refreshes(ttl, calls, f)
    && c == Cache(KeyMap(calls[f].response.members), calls[f].done)
  }

  lemma {:induction false} CacheHasSource(ttl: int, calls: seq<Call>, n: nat)
    requires n <= |calls|
    ensures Before(ttl, calls, n) == Cache(map[], 0)
            || exists f :: f < n && FetchedBy(ttl, calls, Before(ttl, calls, n), f)
  {
    if n > 0 {
      CacheHasSource(ttl, calls, n - 1);
      if Refreshes(ttl, calls, n - 1) {
        assert FetchedBy(ttl, calls, Before(ttl, calls, n), n - 1);
      }
    }
  }

  // When the n-th call's answer is handed out.
  function AnsweredAt(ttl: int, calls: seq<Call>, n: nat): int
    requires n < |calls|
  {
    if Fetches(Before(ttl, calls, n), ttl, calls[n]) then calls[n].done else calls[n].now
  }

  // Fetch f finished at most ttl before the n-th answer, and its document's last key with the
  // requested kid is this one.
  ghost predicate RecentSource(ttl: int, calls: seq<Call>, n: nat, key: Jwk, f: int)
    requires n < |calls|
  {
    && 0 <= f <= n && Refreshes(ttl, calls, f)
    && AnsweredAt(ttl, calls, n) - ttl <= calls[f].done <= AnsweredAt(ttl, calls, n)
    && exists i :: LastWith(calls[f].response.members, calls[n].kid, i) && calls[f].response.members[i] == key
  }

  // Every key handed out comes from a fetch that finished at most ttl earlier.
  lemma KeysAreRecent(ttl: nat, calls: seq<Call>, n: nat, key: Jwk)
    requires Ordered(calls) && n < |calls|
    requires Reply(Before(ttl, calls, n), ttl, calls[n]) == Some(key)
    ensures exists f :: RecentSource(ttl, calls, n, key, f)
  {
    var c, call := Before(ttl, calls, n), calls[n];
    CacheHasSource(ttl, calls, n);
    var f: int;
    if Fetches(c, ttl, call) {
      f := n;
    } else {
      f :| f < n && FetchedBy(ttl, calls, c, f);
    }
    KeyMapIsLast(calls[f].response.members, call.kid, key);
    assert RecentSource(ttl, calls, n, key, f);
  }

  // "No such key" is never served from memory: it means that this very call asked the endpoint,
  // and got either no usable document or one without the kid.
  lemma NoneIsFirstHand(ttl: int, calls: seq<Call>, n: nat)
    requires n < |calls|
    ensures Reply(Before(ttl, calls, n), ttl, calls[n]) == None <==>
              var c := Before(ttl, calls, n);
              (calls[n].now - c.fetchedAt > ttl || calls[n].kid !in c.keys) &&
              (Usable(calls[n].response) ==> !Carries(calls[n].response.members, calls[n].kid))
  {
    var r, kid := calls[n].response, calls[n].kid;
    if Usable(r) {
      if kid in KeyMap(r.members) {
        KeyMapIsLast(r.members, kid, KeyMap(r.members)[kid]);
      }
      forall i | LastWith(r.members, kid, i) ensures kid in KeyMap(r.members) {
        KeyMapIsLast(r.members, kid, r.members[i]);
      }
    }
  }

  // For ttl after a fetch its keys are answered, whatever the endpoint would say meanwhile.
  lemma {:induction false} OutageIsHidden(ttl: int, calls: seq<Call>, f: nat, n: nat)
    requires f < n <= |calls| && Refreshes(ttl, calls, f)
    requires forall i | f < i < n :: Carries(calls[f].response.members, calls[i].kid)
    requires forall i | f < i < n :: calls[i].now <= calls[f].done + ttl
    ensures Before(ttl, calls, n) == Cache(KeyMap(calls[f].response.members), calls[f].done)
    ensures n < |calls| && calls[n].now <= calls[f].done + ttl ==>
              forall j | LastWith(calls[f].response.members, calls[n].kid, j) ::
                Reply(Before(ttl, calls, n), ttl, calls[n]) == Some(calls[f].response.members[j])
  {
    var members := calls[f].response.members;
    if n > f + 1 {
      OutageIsHidden(ttl, calls, f, n - 1);
      var j :| LastWith(members, calls[n - 1].kid, j);
      KeyMapIsLast(members, calls[n - 1].kid, members[j]);
    }
    if n < |calls| {
      forall j | LastWith(members, calls[n].kid, j)
        ensures calls[n].kid in KeyMap(members) && KeyMap(members)[calls[n].kid] == members[j]
      {
        KeyMapIsLast(members, calls[n].kid, members[j]);
      }
    }
  }
}
