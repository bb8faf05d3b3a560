// common/auth/jwt_validator.py, JWKSCache: the key set of the identity server, cached for a time to live
// and fetched again once on an unknown kid.
//
// get_key suspends only while it fetches, so a call is two or three atomic steps and other calls' fetches
// may replace the key set in between. The clock is monotonic and starts at or after zero.

module KeyCache {
  import opened Common

  type Kid = string
  type Jwk = string
  type CallId = nat
  type KeySet = map<Kid, Jwk>

  const TTL: Time := 3600.0

  datatype Answer = Got(key: Jwk) | UnknownKid | FetchFailed

  // forced marks the fetch after which the call gives up.
  datatype Pc = Fetching(kid: Kid, forced: bool)

  datatype Progress = Running(forced: bool) | Done(answer: Answer, at: Time)

  // One call: the kid it wants and its own fetches so far, None for one that failed.
  datatype CallRecord = CallRecord(kid: Kid, own: seq<Option<KeySet>>, progress: Progress)

  // fetches are all the key sets ever brought, with the time they arrived.
  datatype State = State(clock: Time, keys: KeySet, fetchedAt: Time, fetches: set<(KeySet, Time)>,
                         calls: map<CallId, CallRecord>)

  datatype Event =
    | Call(c: CallId, kid: Kid)
    | Fetched(c: CallId, keys: KeySet)
    | Failed(c: CallId)

  datatype Timed = Timed(at: Time, event: Event)

  predicate IsStale(fetchedAt: Time, now: Time) {
    now - fetchedAt >= TTL
  }

  predicate Enabled(s: State, e: Timed) {
    && e.at >= s.clock
    && match e.event
       case Call(c, _) => c !in s.calls
       case Fetched(c, _) => c in s.calls && s.calls[c].progress.Running?
       case Failed(c) => c in s.calls && s.calls[c].progress.Running?
  }

  // get_key up to its first await.
  function Begin(keys: KeySet, fetchedAt: Time, kid: Kid, now: Time): (Option<Answer>, Pc) {
    if IsStale(fetchedAt, now) then (None, Fetching(kid, false))
    else if kid in keys then (Some(Got(keys[kid])), Fetching(kid, false))
    else (None, Fetching(kid, true))
  }

  // get_key after one of its fetches returned this key set.
  function Resume(keys: KeySet, pc: Pc): Option<Answer> {
    if pc.kid in keys then Some(Got(keys[pc.kid]))
    else if pc.forced then Some(UnknownKid)
    else None
  }

  function Next(s: State, e: Timed): State
    requires Enabled(s, e)
  {
    var t := s.(clock := e.at);
    match e.event
    case Call(c, kid) =>
      var (answer, pc) := Begin(s.keys, s.fetchedAt, kid, e.at);
      var progress := if answer.Some? then Done(answer.value, e.at) else Running(pc.forced);
      t.(calls := s.calls[c := CallRecord(kid, [], progress)])
    case Fetched(c, keys) =>
      var r := s.calls[c];
      var answer := Resume(keys, Fetching(r.kid, r.progress.forced));
      var progress := if answer.Some? then Done(answer.value, e.at) else Running(true);
      t.(keys := keys, fetchedAt := e.at, fetches := s.fetches + {(keys, e.at)},
         calls := s.calls[c := CallRecord(r.kid, r.own + [Some(keys)], progress)])
    case Failed(c) =>
      var r := s.calls[c];
      t.(calls := s.calls[c := CallRecord(r.kid, r.own + [None], Done(FetchFailed, e.at))])
  }

  const INITIAL: State := State(0.0, map[], 0.0, {}, map[])

  ghost predicate IsRun(s: State, es: seq<Timed>)
    decreases |es|
  {
    es == [] || (Enabled(s, es[0]) && IsRun(Next(s, es[0]), es[1..]))
  }

  ghost function Exec(s: State, es: seq<Timed>): State
    requires IsRun(s, es)
    decreases |es|
  {
    if es == [] then s else Exec(Next(s, es[0]), es[1..])
  }

  // ---------------------------------------------------------------------------------------------
  // Soundness under interleaving
  // ---------------------------------------------------------------------------------------------

  ghost predicate Lacks(own: seq<Option<KeySet>>, kid: Kid) {
    forall i :: 0 <= i < |own| ==> own[i].Some? && kid !in own[i].value
  }

  ghost predicate Brings(keys: KeySet, kid: Kid, key: Jwk) {
    kid in keys && keys[kid] == key
  }

  // Some fetch brought the key less than the TTL before.
  ghost predicate BroughtRecently(fetches: set<(KeySet, Time)>, kid: Kid, key: Jwk, at: Time) {
    exists f :: f in fetches && Brings(f.0, kid, key) && at - f.1 < TTL
  }

  ghost predicate Justified(r: CallRecord, fetches: set<(KeySet, Time)>) {
    match r.progress
    case Running(forced) => |r.own| <= (if forced then 1 else 0) && Lacks(r.own, r.kid)
    case Done(Got(key), at) =>
      && |r.own| <= 2
      && ((r.own != [] && r.own[|r.own| - 1].Some? && Brings(r.own[|r.own| - 1].value, r.kid, key))
          || (r.own == [] && BroughtRecently(fetches, r.kid, key, at)))
    case Done(UnknownKid, _) => 1 <= |r.own| <= 2 && Lacks(r.own, r.kid)
    case Done(FetchFailed, _) => 1 <= |r.own| <= 2 && r.own[|r.own| - 1] == None
  }

  ghost predicate Inv(s: State) {
    && (s.keys != map[] ==> (s.keys, s.fetchedAt) in s.fetches)
    && (forall c :: c in s.calls ==> Justified(s.calls[c], s.fetches))
  }

  lemma MoreFetchesJustify(r: CallRecord, fetches: set<(KeySet, Time)>, more: set<(KeySet, Time)>)
    requires Justified(r, fetches) && fetches <= more
    ensures Justified(r, more)
  {
    if r.progress.Done? && r.progress.answer.Got? && r.own == [] {
      var f :| f in fetches && Brings(f.0, r.kid, r.progress.answer.key) && r.progress.at - f.1 < TTL;
      assert f in more;
    }
  }

  lemma InvStep(s: State, e: Timed)
    requires Inv(s) && Enabled(s, e)
    ensures Inv(Next(s, e))
  {
    var n := Next(s, e);
    forall c | c in n.calls ensures Justified(n.calls[c], n.fetches) {
      if c == e.event.c {
        if e.event.Call? { assert s.keys != map[] ==> (s.keys, s.fetchedAt) in s.fetches; }
      } else {
        MoreFetchesJustify(s.calls[c], s.fetches, n.fetches);
      }
    }
  }

  lemma {:induction false} RunKeepsInv(s: State, es: seq<Timed>)
    requires Inv(s) && IsRun(s, es)
    ensures Inv(Exec(s, es))
    decreases |es|
  {
    if es != [] {
      InvStep(s, es[0]);
      RunKeepsInv(Next(s, es[0]), es[1..]);
    }
  }

  // Under any interleaving of calls and fetches: a call makes at most two fetches, the running one
  // included; a key it returns was brought by its own last fetch, or, if it made none, by one that was
  // younger than the TTL when the call checked; and a kid is reported unknown only after a fetch of this
  // call, and no fetch of this call brought it.
  lemma KeyCacheIsSound(es: seq<Timed>, c: CallId)
    requires IsRun(INITIAL, es) && c in Exec(INITIAL, es).calls
    ensures var s, r := Exec(INITIAL, es), Exec(INITIAL, es).calls[c];
            && |r.own| + (if r.progress.Running? then 1 else 0) <= 2
            && (r.progress.Done? && r.progress.answer.Got? ==>
                  var key := r.progress.answer.key;
                  if r.own != [] then r.own[|r.own| - 1].Some? && Brings(r.own[|r.own| - 1].value, r.kid, key)
                  else BroughtRecently(s.fetches, r.kid, key, r.progress.at))
            && (r.progress.Done? && r.progress.answer.UnknownKid? ==> r.own != [] && Lacks(r.own, r.kid))
  {
    RunKeepsInv(INITIAL, es);
  }

  // A call is answered at once exactly if the cached key set is younger than an hour and has the kid; no
  // other call is touched.
  lemma CallAnsweredIff(s: State, c: CallId, kid: Kid, now: Time)
    requires Enabled(s, Timed(now, Call(c, kid)))
    ensures var n := Next(s, Timed(now, Call(c, kid)));
            var young := now - s.fetchedAt < 3600.0;
            n.keys == s.keys && n.fetchedAt == s.fetchedAt
            && n.calls == s.calls[c := CallRecord(kid, [], if young && kid in s.keys then Done(Got(s.keys[kid]), now)
                                                           else Running(young))]
  {
  }

  // A fetch replaces the key set. It answers its own call with the key if it brought it, and ends the call
  // as unknown if it did not and the call had begun on a fresh key set or made a fetch before. A fetch that
  // fails ends its call and changes nothing else.
  lemma FetchAnswersIff(s: State, c: CallId, keys: KeySet, now: Time)
    requires Enabled(s, Timed(now, Fetched(c, keys)))
    ensures var n := Next(s, Timed(now, Fetched(c, keys)));
            var r := s.calls[c];
            var progress := if r.kid in keys then Done(Got(keys[r.kid]), now)
                            else if r.progress.forced then Done(UnknownKid, now) else Running(true);
            n.keys == keys && n.fetchedAt == now
            && n.calls == s.calls[c := CallRecord(r.kid, r.own + [Some(keys)], progress)]
    ensures Next(s, Timed(now, Failed(c)))
         == s.(clock := now,
               calls := s.calls[c := CallRecord(s.calls[c].kid, s.calls[c].own + [None], Done(FetchFailed, now))])
  {
  }

  // ---------------------------------------------------------------------------------------------
  // The class
  // ---------------------------------------------------------------------------------------------

  datatype KeyDict = KeyDict(kid: Kid, jwk: Jwk)

  // The key map of a response: entries without a kid are skipped, a repeated kid keeps its last entry.
  function KeyMap(response: seq<KeyDict>): KeySet {
    if response == [] then map[]
    else
      var last := response[|response| - 1];
      if last.kid == "" then KeyMap(response[..|response| - 1])
      else KeyMap(response[..|response| - 1])[last.kid := last.jwk]
  }

  // Entry i is the last one of the response for its kid.
  ghost predicate LastFor(response: seq<KeyDict>, i: nat, kid: Kid) {
    i < |response| && response[i].kid == kid && forall k :: i < k < |response| ==> response[k].kid != kid
  }

  lemma {:induction false} KeyMapFacts(response: seq<KeyDict>, kid: Kid)
    ensures kid in KeyMap(response) <==> kid != "" && exists k :: k in response && k.kid == kid
    ensures forall i: nat :: kid != "" && LastFor(response, i, kid) ==>
              kid in KeyMap(response) && KeyMap(response)[kid] == response[i].jwk
  {
    if response != [] {
      var n := |response| - 1;
      KeyMapFacts(response[..n], kid);
      assert response == response[..n] + [response[n]];
      forall i: nat | i < n && LastFor(response, i, kid) ensures LastFor(response[..n], i, kid) {
      }
    }
  }

  class JWKSCache {
    var keys: KeySet
    var fetchedAt: Time

    constructor ()
      ensures keys == INITIAL.keys && fetchedAt == INITIAL.fetchedAt
    {
      keys := map[];
      fetchedAt := 0.0;
    }

    // get_key up to its first await.
    method BeginGetKey(kid: Kid, now: Time) returns (answer: Option<Answer>, pc: Pc)
      ensures (answer, pc) == Begin(keys, fetchedAt, kid, now)
      ensures answer == if kid in keys && now - fetchedAt < 3600.0 then Some(Got(keys[kid])) else None
      ensures answer == None ==> pc == Fetching(kid, now - fetchedAt < 3600.0)
    {
      answer, pc := None, Fetching(kid, false);
      if now - fetchedAt < TTL {
        if kid in keys {
          answer := Some(Got(keys[kid]));
        } else {
          pc := Fetching(kid, true);
        }
      }
    }

    // refresh after its response arrived, and the rest of get_key up to the next await.
    method FinishRefresh(response: seq<KeyDict>, pc: Pc, now: Time) returns (answer: Option<Answer>)
      modifies this
      ensures keys == KeyMap(response) && fetchedAt == now
      ensures answer == Resume(keys, pc)
      ensures answer == if pc.kid in keys then Some(Got(keys[pc.kid])) else if pc.forced then Some(UnknownKid) else None
    {
      var newKeys: KeySet := map[];
      for i := 0 to |response|
        invariant newKeys == KeyMap(response[..i])
      {
        assert response[..i + 1][..i] == response[..i];
        if response[i].kid != "" {
          newKeys := newKeys[response[i].kid := response[i].jwk];
        }
      }
      assert response[..|response|] == response;
      keys := newKeys;
      fetchedAt := now;
      if pc.kid in keys {
        return Some(Got(keys[pc.kid]));
      }
      return if pc.forced then Some(UnknownKid) else None;
    }
  }
}
