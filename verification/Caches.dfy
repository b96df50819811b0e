/** The two caches that stand between a request and an identity provider: the
    issuer's signing keys (OIDC.keySet, internal/httpauth/oidc.go) and Google's
    verdicts on access tokens (googleAccess.verify, internal/httpauth/google.go).
    Times are seconds of one clock that does not run backwards; what the network
    answers is given with each call. */
module Caches {
  import opened Text

  const HOUR := 3600
  const MINUTE := 60

  // ------------------------------------------------------------------
  // The issuer's keys. The lock is held from start to end, so calls follow one
  // another.

  type Keys = seq<string>

  datatype KeyState = KeyState(keys: Option<Keys>, fetched: int, uri: string)

  /** One call: when it starts, what the configuration and the key document would
      answer if they were asked, and when the fetch is over. */
  datatype KeyCall = KeyCall(now: int, force: bool, discovered: Option<string>, answer: Option<Keys>, done: int)

  predicate Fresh(s: KeyState, c: KeyCall) {
    s.keys.Some? && c.now - s.fetched < (if c.force then MINUTE else HOUR)
  }

  /** What the call does to the state, and the keys it returns; None is an error. */
  function KeyStep(s: KeyState, c: KeyCall): (KeyState, Option<Keys>) {
    if Fresh(s, c) then (s, s.keys)
    else if s.uri == "" && c.discovered.None? then (s, None)
    else
      var found := if s.uri == "" then s.(uri := c.discovered.value) else s;
      match c.answer
      case Some(keys) => (KeyState(Some(keys), c.done, found.uri), Some(keys))
      case None => (found, s.keys)
  }

  /** Whether the call asks the issuer for its keys. */
  predicate Asks(s: KeyState, c: KeyCall) {
    !Fresh(s, c) && (s.uri != "" || c.discovered.Some?)
  }

  predicate Fetches(s: KeyState, c: KeyCall) {
    Asks(s, c) && c.answer.Some?
  }

  class OIDC {
    var keys: Option<Keys>
    var fetched: int
    var jwksURI: string

    ghost function State(): KeyState
      reads this
    {
      KeyState(keys, fetched, jwksURI)
    }

    constructor ()
      ensures State() == KeyState(None, 0, "")
    {
      keys, fetched, jwksURI := None, 0, "";
    }

    method KeySet(c: KeyCall) returns (r: Option<Keys>)
      modifies this
      ensures (State(), r) == KeyStep(old(State()), c)
    {
      if !c.force && keys.Some? && c.now - fetched < HOUR {
        return keys;
      }
      if c.force && keys.Some? && c.now - fetched < MINUTE {
        return keys;
      }
      if jwksURI == "" {
        if c.discovered.None? {
          return None;
        }
        jwksURI := c.discovered.value;
      }
      if c.answer.None? {
        if keys.Some? {
          return keys;
        }
        return None;
      }
      keys, fetched := c.answer, c.done;
      return keys;
    }
  }

  // ------------------------------------------------------------------
  // Every timed run of keySet

  /** Calls that follow one another; a discovered address is never empty. */
  predicate Timed(calls: seq<KeyCall>) {
    && (forall i | 0 <= i < |calls| :: calls[i].now <= calls[i].done && calls[i].discovered != Some(""))
    && (forall i, j | 0 <= i < j < |calls| :: calls[i].done <= calls[j].now)
  }

  /** The state before the i-th call. */
  function KeysBefore(calls: seq<KeyCall>, i: nat): KeyState
    requires i <= |calls|
  {
    if i == 0 then KeyState(None, 0, "") else KeyStep(KeysBefore(calls, i - 1), calls[i - 1]).0
  }

  predicate FetchesAt(calls: seq<KeyCall>, i: nat)
    requires i < |calls|
  {
    Fetches(KeysBefore(calls, i), calls[i])
  }

  /** The last of the first n calls that fetched, if any did. */
  function LastFetch(calls: seq<KeyCall>, n: nat): Option<nat>
    requires n <= |calls|
  {
    if n == 0 then None else if FetchesAt(calls, n - 1) then Some(n - 1) else LastFetch(calls, n - 1)
  }

  lemma {:induction false} LastFetchIs(calls: seq<KeyCall>, n: nat)
    requires n <= |calls|
    ensures match LastFetch(calls, n)
            case None => forall i | 0 <= i < n :: !FetchesAt(calls, i)
            case Some(k) => k < n && FetchesAt(calls, k) && forall i | k < i < n :: !FetchesAt(calls, i)
  {
    hide FetchesAt;
    if n > 0 && !FetchesAt(calls, n - 1) {
      LastFetchIs(calls, n - 1);
    }
  }

  /** The state holds exactly what the last fetch brought. */
  lemma {:induction false} StateIsLastFetch(calls: seq<KeyCall>, n: nat)
    requires n <= |calls| && Timed(calls)
    ensures var s := KeysBefore(calls, n);
            match LastFetch(calls, n)
            case None => s.keys == None
            case Some(k) => k < n && s.keys == calls[k].answer && s.keys.Some? && s.fetched == calls[k].done
                               && s.uri != ""
  {
    if n > 0 {
      StateIsLastFetch(calls, n - 1);
    }
  }

  /** After a fetch has succeeded no call fails, and each returns what the latest
      successful fetch brought, its own if it makes one. */
  lemma {:induction false} KeysNeverLost(calls: seq<KeyCall>, i: nat)
    requires i < |calls| && Timed(calls)
    ensures var r := KeyStep(KeysBefore(calls, i), calls[i]).1;
            match LastFetch(calls, i + 1)
            case Some(k) => k <= i && r == calls[k].answer && r.Some?
            case None => r == None
  {
    hide Timed;
    StateIsLastFetch(calls, i);
    StateIsLastFetch(calls, i + 1);
    LastFetchIs(calls, i + 1);
  }

  /** A minute where a rotation is suspected, an hour otherwise. */
  function Limit(c: KeyCall): int {
    if c.force then 60 else 3600
  }

  lemma {:induction false} FetchesAreOrdered(calls: seq<KeyCall>, n: nat, i: nat)
    requires n <= |calls| && Timed(calls) && i < n && FetchesAt(calls, i)
    ensures LastFetch(calls, n).Some? && LastFetch(calls, n).value < n
    ensures calls[i].done <= calls[LastFetch(calls, n).value].done
  {
    hide FetchesAt;
    LastFetchIs(calls, n);
    var k := LastFetch(calls, n).value;
    if i < k {
      assert calls[i].done <= calls[k].now <= calls[k].done;
    }
  }

  /** A call that asks comes at least a minute after every fetch that succeeded;
      without force, an hour. */
  lemma {:induction false} FetchesApart(calls: seq<KeyCall>, i: nat, j: nat)
    requires i < j < |calls| && Timed(calls) && FetchesAt(calls, i) && Asks(KeysBefore(calls, j), calls[j])
    ensures calls[j].now - calls[i].done >= Limit(calls[j])
  {
    hide FetchesAt, Timed;
    StateIsLastFetch(calls, j);
    FetchesAreOrdered(calls, j, i);
  }

  /** The exact limit. Where the address of the keys is known or can be found, a call
      asks exactly when no fetch has succeeded within the last minute; without force,
      the last hour. Fetches that failed do not count. */
  lemma {:induction false} AsksExactlyWhen(calls: seq<KeyCall>, j: nat)
    requires j < |calls| && Timed(calls)
    requires KeysBefore(calls, j).uri != "" || calls[j].discovered.Some?
    ensures Asks(KeysBefore(calls, j), calls[j])
            <==> forall i | 0 <= i < j && FetchesAt(calls, i) :: calls[j].now - calls[i].done >= Limit(calls[j])
  {
    hide FetchesAt, Timed;
    StateIsLastFetch(calls, j);
    LastFetchIs(calls, j);
    if Asks(KeysBefore(calls, j), calls[j]) {
      forall i | 0 <= i < j && FetchesAt(calls, i)
        ensures calls[j].now - calls[i].done >= Limit(calls[j])
      {
        FetchesApart(calls, i, j);
      }
    }
  }

  /** Without an address a call never asks, and fails where no keys are held. */
  lemma {:induction false} NoAddressNoKeys(calls: seq<KeyCall>, j: nat)
    requires j < |calls| && Timed(calls) && KeysBefore(calls, j).uri == "" && calls[j].discovered.None?
    ensures !Asks(KeysBefore(calls, j), calls[j]) && KeyStep(KeysBefore(calls, j), calls[j]).1 == None
  {
    StateIsLastFetch(calls, j);
  }

  /** Keys served without asking are younger than an hour, or than a minute when a
      rotation is suspected. */
  lemma {:induction false} ServedKeysAreFresh(calls: seq<KeyCall>, i: nat)
    requires i < |calls| && Timed(calls) && !Asks(KeysBefore(calls, i), calls[i])
    requires KeyStep(KeysBefore(calls, i), calls[i]).1.Some?
    ensures LastFetch(calls, i).Some? && LastFetch(calls, i).value < i
    ensures calls[i].now - calls[LastFetch(calls, i).value].done < Limit(calls[i])
  {
    StateIsLastFetch(calls, i);
  }

  /** The limit of a minute is on fetches that succeed: where one has failed, the
      next forced call asks again, however soon it comes. */
  lemma {:induction false} FailedFetchesAreNotLimited(calls: seq<KeyCall>, i: nat)
    requires i + 1 < |calls| && Timed(calls) && calls[i].force && calls[i + 1].force
    requires Asks(KeysBefore(calls, i), calls[i]) && calls[i].answer == None
    ensures Asks(KeysBefore(calls, i + 1), calls[i + 1])
  {
    var s := KeysBefore(calls, i);
    assert KeysBefore(calls, i + 1) == KeyStep(s, calls[i]).0;
    assert calls[i].now <= calls[i + 1].now by { assert calls[i].done <= calls[i + 1].now; }
    StateIsLastFetch(calls, i);
  }

  // ------------------------------------------------------------------
  // Google's verdicts. The lock is released while Google is asked, so the steps of
  // different calls interleave.

  const CACHE_FOR := 300
  const CACHE_MAX := 10000

  datatype Identity = Identity(name: string, machine: bool)

  /** What Google says of a token: `verified` is None where the answer is silent. */
  datatype Info = Info(aud: string, azp: string, sub: string, email: string, verified: Option<bool>, expiresIn: int)

  datatype Verdict = Verdict(id: Identity, byEmail: bool, until: int)

  function IdentityFrom(email: string, verified: Option<bool>, sub: string): (Identity, bool) {
    if email != "" && verified != Some(false) then (Identity(email, HasSuffix(email, ".gserviceaccount.com")), true)
    else (Identity(sub, true), false)
  }

  predicate Accepts(audience: string, info: Info) {
    (info.aud == audience || info.azp == audience) && info.expiresIn > 0
  }

  type Cache = map<string, Verdict>

  function Min(a: int, b: int): int {
    if a < b then a else b
  }

  /** The first critical section: a verdict that still stands at now. */
  function Look(cache: Cache, token: string, now: int): Option<Verdict> {
    if token in cache && now < cache[token].until then Some(cache[token]) else None
  }

  /** The second: Google's answer kept for the call that began at now. */
  function Keep(cache: Cache, token: string, now: int, info: Info): Cache {
    var (id, byEmail) := IdentityFrom(info.email, info.verified, info.sub);
    (if |cache| >= CACHE_MAX then map[] else cache)[token := Verdict(id, byEmail, now + Min(CACHE_FOR, info.expiresIn))]
  }

  /** An address that Google does not say is unverified names the caller, a machine where
      it is a service account's; failing that the subject does, a machine. */
  predicate IsCaller(info: Info, id: Identity, byEmail: bool) {
    && (byEmail <==> info.email != "" && (info.verified.None? || info.verified.value))
    && (byEmail ==> id.name == info.email && (id.machine <==> HasSuffix(info.email, ".gserviceaccount.com")))
    && (!byEmail ==> id.name == info.sub && id.machine)
  }

  class GoogleAccess {
    const audience: string
    var cache: Cache

    constructor (audience: string)
      ensures this.audience == audience && cache == map[]
    {
      this.audience := audience;
      cache := map[];
    }

    method Cached(token: string, now: int) returns (v: Option<Verdict>)
      ensures v == Look(cache, token, now)
    {
      if token in cache && now < cache[token].until {
        return Some(cache[token]);
      }
      return None;
    }

    /** What is done with Google's answer; None refuses the token. */
    method Judge(token: string, now: int, info: Info) returns (r: Option<(Identity, bool)>)
      modifies this
      ensures cache == if Accepts(audience, info) then Keep(old(cache), token, now, info) else old(cache)
      ensures r == if Accepts(audience, info) then Some(IdentityFrom(info.email, info.verified, info.sub)) else None
      ensures r.Some? ==> IsCaller(info, r.value.0, r.value.1)
    {
      if info.aud != audience && info.azp != audience {
        return None;
      }
      if info.expiresIn <= 0 {
        return None;
      }
      var (id, byEmail) := IdentityFrom(info.email, info.verified, info.sub);
      var until := now + Min(CACHE_FOR, info.expiresIn);
      if |cache| >= CACHE_MAX {
        cache := map[];
      }
      cache := cache[token := Verdict(id, byEmail, until)];
      return Some((id, byEmail));
    }
  }

  /** The steps of calls in flight: one looks at the cache at its own now; one whose
      answer Google gave at `at` keeps it. */
  datatype Event =
    | Looked(token: string, now: int)
    | Answered(token: string, now: int, at: int, info: Info)

  /** Google answers after it is asked. */
  predicate Causal(events: seq<Event>) {
    forall i | 0 <= i < |events| && events[i].Answered? :: events[i].now <= events[i].at
  }

  function CacheStep(audience: string, cache: Cache, e: Event): Cache {
    match e
    case Looked(_, _) => cache
    case Answered(token, now, _, info) => if Accepts(audience, info) then Keep(cache, token, now, info) else cache
  }

  function CacheBefore(audience: string, events: seq<Event>, n: nat): Cache
    requires n <= |events|
  {
    if n == 0 then map[] else CacheStep(audience, CacheBefore(audience, events, n - 1), events[n - 1])
  }

  /** An answer kept about the token: it was issued to this deployment and has not
      expired. */
  predicate Kept(audience: string, e: Event, token: string) {
    && e.Answered? && e.token == token
    && (e.info.aud == audience || e.info.azp == audience) && e.info.expiresIn > 0
  }

  /** The cache is full and an answer is kept: what it held is dropped. */
  ghost predicate Emptied(audience: string, events: seq<Event>, j: nat)
    requires j < |events|
  {
    |CacheBefore(audience, events, j)| >= 10000 && Kept(audience, events[j], events[j].token)
  }

  /** The k-th step is the last of the first n to keep an answer about the token, and the
      cache was not emptied since. */
  ghost predicate LastKept(audience: string, events: seq<Event>, n: nat, token: string, k: nat)
    requires n <= |events|
  {
    && k < n && Kept(audience, events[k], token)
    && forall j | k < j < n :: !Kept(audience, events[j], token) && !Emptied(audience, events, j)
  }

  /** What Google said of the caller in its answer, and for how long it stands: five
      minutes from the call, or until the token expires. */
  predicate Says(e: Event, v: Verdict) {
    && e.Answered? && IsCaller(e.info, v.id, v.byEmail)
    && v.until <= e.now + 300 && v.until <= e.now + e.info.expiresIn
    && (v.until == e.now + 300 || v.until == e.now + e.info.expiresIn)
  }

  lemma {:induction false} KeepSays(audience: string, cache: Cache, e: Event)
    requires e.Answered?
    ensures var r := CacheStep(audience, cache, e);
            && |r| <= |cache| + 1 && (|cache| >= 10000 && r != cache ==> |r| == 1)
            && (!Kept(audience, e, e.token) ==> r == cache)
            && (Kept(audience, e, e.token) ==>
                  && e.token in r && Says(e, r[e.token])
                  && (|cache| >= 10000 ==> forall t | t in r :: t == e.token)
                  && (|cache| < 10000 ==> forall t | t != e.token ::
                        (t in r <==> t in cache) && (t in cache ==> r[t] == cache[t])))
  {
  }

  lemma {:induction false} LastKeptStep(audience: string, events: seq<Event>, n: nat, token: string, k: nat)
    requires n < |events|
    ensures LastKept(audience, events, n + 1, token, k)
            <==> if k == n then Kept(audience, events[n], token)
                 else LastKept(audience, events, n, token, k) && !Kept(audience, events[n], token)
                      && !Emptied(audience, events, n)
  {
    hide Kept, CacheBefore;
  }

  /** A verdict on the token is held exactly when an answer about it was kept since the
      cache was last emptied, and is what the latest of them said. */
  ghost predicate HeldAsKept(audience: string, events: seq<Event>, n: nat, token: string)
    requires n <= |events|
  {
    var cache := CacheBefore(audience, events, n);
    && (token in cache <==> exists k: nat :: LastKept(audience, events, n, token, k))
    && (forall k: nat | LastKept(audience, events, n, token, k) :: token in cache && Says(events[k], cache[token]))
  }

  /** Over every interleaving the cache holds at most ten thousand verdicts, each as it
      was kept. */
  lemma {:induction false} CacheIsGoogles(audience: string, events: seq<Event>, n: nat)
    requires n <= |events|
    ensures |CacheBefore(audience, events, n)| <= 10000
    ensures forall token :: HeldAsKept(audience, events, n, token)
  {
    hide HeldAsKept, CacheStep;
    if n == 0 {
      NoneKept(audience, events);
    } else {
      CacheIsGoogles(audience, events, n - 1);
      forall token
        ensures HeldAsKept(audience, events, n, token)
      {
        TokenStep(audience, events, n - 1, token);
      }
      if events[n - 1].Answered? {
        KeepSays(audience, CacheBefore(audience, events, n - 1), events[n - 1]);
      } else {
        LookedKeeps(audience, CacheBefore(audience, events, n - 1), events[n - 1]);
      }
    }
  }

  lemma {:induction false} NoneKept(audience: string, events: seq<Event>)
    ensures CacheBefore(audience, events, 0) == map[]
    ensures forall token :: HeldAsKept(audience, events, 0, token)
  {
  }

  lemma {:induction false} TokenStep(audience: string, events: seq<Event>, n: nat, token: string)
    requires n < |events| && HeldAsKept(audience, events, n, token)
    ensures HeldAsKept(audience, events, n + 1, token)
  {
    hide LastKept, Says, CacheStep;
    var cache, e := CacheBefore(audience, events, n), events[n];
    if e.Answered? {
      KeepSays(audience, cache, e);
    } else {
      LookedKeeps(audience, cache, e);
    }
    var m, after := n + 1, CacheBefore(audience, events, n + 1);
    forall k: nat
      ensures LastKept(audience, events, m, token, k)
              <==> if k == n then Kept(audience, e, token)
                   else LastKept(audience, events, n, token, k) && !Kept(audience, e, token)
                        && !Emptied(audience, events, n)
      ensures LastKept(audience, events, n, token, k) ==> k < n
    {
      LastKeptStep(audience, events, n, token, k);
      KeptBefore(audience, events, n, token, k);
    }
    if Kept(audience, e, token) {
      assert LastKept(audience, events, m, token, n);
    } else if Emptied(audience, events, n) {
      assert token !in after;
    } else {
      assert token in after <==> token in cache;
    }
  }

  lemma {:induction false} KeptBefore(audience: string, events: seq<Event>, n: nat, token: string, k: nat)
    requires n <= |events|
    ensures LastKept(audience, events, n, token, k) ==> k < n
  {
  }

  lemma {:induction false} LookedKeeps(audience: string, cache: Cache, e: Event)
    requires e.Looked?
    ensures CacheStep(audience, cache, e) == cache
  {
  }

  /** A verdict served from the cache is what Google said, of this very token and to this
      deployment, in the latest answer kept; less than five minutes before and while the
      token had not expired. It is served as long as that. */
  lemma {:induction false} ServedVerdictsStand(audience: string, events: seq<Event>, n: nat, token: string, now: int)
      returns (k: nat)
    requires n <= |events| && Causal(events) && token in CacheBefore(audience, events, n)
    ensures LastKept(audience, events, n, token, k)
    ensures var v := Look(CacheBefore(audience, events, n), token, now);
            && (v.Some? <==> now < events[k].now + 300 && now < events[k].now + events[k].info.expiresIn)
            && (v.Some? ==> IsCaller(events[k].info, v.value.id, v.value.byEmail))
            && (v.Some? ==> now - events[k].at < 300 && now < events[k].at + events[k].info.expiresIn)
  {
    hide IsCaller, CacheBefore;
    CacheIsGoogles(audience, events, n);
    assert HeldAsKept(audience, events, n, token);
    k :| LastKept(audience, events, n, token, k);
  }
}
