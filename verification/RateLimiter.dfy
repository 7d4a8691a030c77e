/** The sliding-window rate limiter of the HTTP middleware.  Times are nanoseconds. */
module RateLimiter {

  type Requests = map<string, seq<int>>

  /** The times stored for a key; none when the key is unknown. */
  function Stored(requests: Requests, key: string): seq<int> {
    if key in requests then requests[key] else []
  }

  /** The times strictly after the cutoff. */
  function After(times: seq<int>, cutoff: int): seq<int> {
    if times == [] then []
    else if times[0] > cutoff then [times[0]] + After(times[1..], cutoff)
    else After(times[1..], cutoff)
  }

  datatype Config = Config(limit: int, window: int)

  datatype Event =
    | Request(key: string, now: int)
    | Cleanup(now: int)

  /** Whether a request is let through. */
  predicate Admits(c: Config, requests: Requests, key: string, now: int) {
    |After(Stored(requests, key), now - c.window)| < c.limit
  }

  /** The limiter's table after an event. */
  function Next(c: Config, requests: Requests, e: Event): Requests {
    match e
    case Request(key, now) =>
      if Admits(c, requests, key, now)
      then requests[key := After(Stored(requests, key), now - c.window) + [now]]
      else requests
    case Cleanup(now) =>
      map key | key in requests && After(requests[key], now - c.window) != [] :: After(requests[key], now - c.window)
  }

  /** The answers to the requests of a run, in order. */
  function Answers(c: Config, requests: Requests, es: seq<Event>): seq<bool>
    decreases |es|
  {
    if es == [] then []
    else (match es[0]
          case Request(key, now) => [Admits(c, requests, key, now)]
          case Cleanup(_) => [])
         + Answers(c, Next(c, requests, es[0]), es[1..])
  }

  function Run(c: Config, requests: Requests, es: seq<Event>): Requests
    decreases |es|
  {
    if es == [] then requests else Run(c, Next(c, requests, es[0]), es[1..])
  }

  /** The clock does not run backwards, and starts at `from` or later. */
  ghost predicate InOrder(es: seq<Event>, from: int) {
    && (forall i :: 0 <= i < |es| ==> from <= es[i].now)
    && forall i, j :: 0 <= i < j < |es| ==> es[i].now <= es[j].now
  }

  // ---------------------------------------------------------------------------
  // The reference: remember every admitted request for ever
  // ---------------------------------------------------------------------------

  /** The times in the half-open interval (lo, hi]. */
  function Between(times: seq<int>, lo: int, hi: int): seq<int> {
    if times == [] then []
    else if lo < times[0] <= hi then [times[0]] + Between(times[1..], lo, hi)
    else Between(times[1..], lo, hi)
  }

  /** Fewer than `limit` admitted requests in the last `window`. */
  predicate SpecAdmits(c: Config, history: Requests, key: string, now: int) {
    |Between(Stored(history, key), now - c.window, now)| < c.limit
  }

  function SpecNext(c: Config, history: Requests, e: Event): Requests {
    match e
    case Request(key, now) =>
      if SpecAdmits(c, history, key, now) then history[key := Stored(history, key) + [now]] else history
    case Cleanup(_) => history
  }

  function SpecAnswers(c: Config, history: Requests, es: seq<Event>): seq<bool>
    decreases |es|
  {
    if es == [] then []
    else (match es[0]
          case Request(key, now) => [SpecAdmits(c, history, key, now)]
          case Cleanup(_) => [])
         + SpecAnswers(c, SpecNext(c, history, es[0]), es[1..])
  }

  /** Every request admitted in a run, by key. */
  function History(c: Config, history: Requests, es: seq<Event>): Requests
    decreases |es|
  {
    if es == [] then history else History(c, SpecNext(c, history, es[0]), es[1..])
  }

  // ---------------------------------------------------------------------------
  // Filtering
  // ---------------------------------------------------------------------------

  lemma {:induction false} AfterConcat(a: seq<int>, b: seq<int>, cutoff: int)
    ensures After(a + b, cutoff) == After(a, cutoff) + After(b, cutoff)
    decreases |a|
  {
    if a == [] {
      assert a + b == b;
    } else {
      assert (a + b)[0] == a[0] && (a + b)[1..] == a[1..] + b;
      AfterConcat(a[1..], b, cutoff);
    }
  }

  lemma {:induction false} AfterAfter(times: seq<int>, cutoff: int, later: int)
    requires cutoff <= later
    ensures After(After(times, cutoff), later) == After(times, later)
    ensures |After(times, later)| <= |After(times, cutoff)|
    decreases |times|
  {
    if times != [] {
      AfterAfter(times[1..], cutoff, later);
      if times[0] > cutoff {
        assert After(times, cutoff)[1..] == After(times[1..], cutoff);
      }
    }
  }

  lemma {:induction false} BetweenIsAfter(times: seq<int>, lo: int, hi: int)
    ensures |Between(times, lo, hi)| <= |After(times, lo)|
    ensures (forall i :: 0 <= i < |times| ==> times[i] <= hi) ==> Between(times, lo, hi) == After(times, lo)
    decreases |times|
  {
    if times != [] {
      BetweenIsAfter(times[1..], lo, hi);
    }
  }

  lemma {:induction false} BetweenConcat(a: seq<int>, b: seq<int>, lo: int, hi: int)
    ensures Between(a + b, lo, hi) == Between(a, lo, hi) + Between(b, lo, hi)
    decreases |a|
  {
    if a == [] {
      assert a + b == b;
    } else {
      assert (a + b)[0] == a[0] && (a + b)[1..] == a[1..] + b;
      BetweenConcat(a[1..], b, lo, hi);
    }
  }

  // ---------------------------------------------------------------------------
  // The table is as good as the history
  // ---------------------------------------------------------------------------

  /** From time `t` on, table and history cannot be told apart. */
  ghost predicate Agree(c: Config, requests: Requests, history: Requests, t: int) {
    && (forall key, cutoff :: t - c.window <= cutoff ==>
          After(Stored(requests, key), cutoff) == After(Stored(history, key), cutoff))
    && forall key, i :: 0 <= i < |Stored(history, key)| ==> Stored(history, key)[i] <= t
  }

  lemma SameDecision(c: Config, requests: Requests, history: Requests, t: int, key: string, now: int)
    requires Agree(c, requests, history, t) && t <= now
    ensures Admits(c, requests, key, now) <==> SpecAdmits(c, history, key, now)
  {
    BetweenIsAfter(Stored(history, key), now - c.window, now);
    assert forall i :: 0 <= i < |Stored(history, key)| ==> Stored(history, key)[i] <= now;
  }

  /** Pruning the table, and adding a time to both, goes unnoticed at later cutoffs. */
  lemma PrunedAgrees(times: seq<int>, history: seq<int>, now: int, prune: int, cutoff: int)
    requires prune <= cutoff && After(times, cutoff) == After(history, cutoff)
    ensures After(After(times, prune), cutoff) == After(history, cutoff)
    ensures After(After(times, prune) + [now], cutoff) == After(history + [now], cutoff)
  {
    AfterAfter(times, prune, cutoff);
    AfterConcat(After(times, prune), [now], cutoff);
    AfterConcat(history, [now], cutoff);
  }

  lemma StepAgrees(c: Config, requests: Requests, history: Requests, t: int, e: Event)
    requires Agree(c, requests, history, t) && t <= e.now
    ensures Agree(c, Next(c, requests, e), SpecNext(c, history, e), e.now)
  {
    var requests', history' := Next(c, requests, e), SpecNext(c, history, e);
    if e.Request? {
      SameDecision(c, requests, history, t, e.key, e.now);
    }
    forall key, cutoff | e.now - c.window <= cutoff
      ensures After(Stored(requests', key), cutoff) == After(Stored(history', key), cutoff)
    {
      PrunedAgrees(Stored(requests, key), Stored(history, key), e.now, e.now - c.window, cutoff);
    }
    forall key, i | 0 <= i < |Stored(history', key)| ensures Stored(history', key)[i] <= e.now {
      assert i < |Stored(history, key)| ==> Stored(history, key)[i] <= t;
    }
  }

  lemma {:induction false} RunsAgree(c: Config, requests: Requests, history: Requests, t: int, es: seq<Event>)
    requires Agree(c, requests, history, t) && InOrder(es, t)
    ensures Answers(c, requests, es) == SpecAnswers(c, history, es)
    decreases |es|
  {
    if es != [] {
      if es[0].Request? {
        SameDecision(c, requests, history, t, es[0].key, es[0].now);
      }
      StepAgrees(c, requests, history, t, es[0]);
      RunsAgree(c, Next(c, requests, es[0]), SpecNext(c, history, es[0]), es[0].now, es[1..]);
    }
  }

  /** With a clock that does not run backwards, a request is admitted exactly when fewer than
      `limit` requests of its key were admitted in (now - window, now]. */
  lemma AnswersMeetSpec(c: Config, es: seq<Event>, t: int)
    requires InOrder(es, t)
    ensures Answers(c, map[], es) == SpecAnswers(c, map[], es)
  {
    RunsAgree(c, map[], map[], t, es);
  }

  // ---------------------------------------------------------------------------
  // Cleanup cannot be observed
  // ---------------------------------------------------------------------------

  function RequestsOnly(es: seq<Event>): seq<Event> {
    if es == [] then []
    else if es[0].Request? then [es[0]] + RequestsOnly(es[1..])
    else RequestsOnly(es[1..])
  }

  lemma {:induction false} RequestsStayInOrder(es: seq<Event>, from: int)
    requires InOrder(es, from)
    ensures InOrder(RequestsOnly(es), from)
    ensures forall e :: e in RequestsOnly(es) ==> e in es
    decreases |es|
  {
    if es != [] {
      RequestsStayInOrder(es[1..], es[0].now);
    }
  }

  lemma {:induction false} SpecIgnoresCleanup(c: Config, history: Requests, es: seq<Event>)
    ensures SpecAnswers(c, history, RequestsOnly(es)) == SpecAnswers(c, history, es)
    decreases |es|
  {
    if es != [] {
      if es[0].Request? {
        assert RequestsOnly(es)[1..] == RequestsOnly(es[1..]);
      }
      SpecIgnoresCleanup(c, SpecNext(c, history, es[0]), es[1..]);
    }
  }

  /** Cleanups, wherever they happen in a run, change no answer. */
  lemma CleanupIsUnobservable(c: Config, es: seq<Event>, t: int)
    requires InOrder(es, t)
    ensures Answers(c, map[], es) == Answers(c, map[], RequestsOnly(es))
  {
    AnswersMeetSpec(c, es, t);
    RequestsStayInOrder(es, t);
    AnswersMeetSpec(c, RequestsOnly(es), t);
    SpecIgnoresCleanup(c, map[], es);
  }

  // ---------------------------------------------------------------------------
  // Bounds
  // ---------------------------------------------------------------------------

  function AtLeastZero(n: int): nat {
    if n < 0 then 0 else n
  }

  /** How many times are in (a, a + window]. */
  function InWindow(times: seq<int>, a: int, window: int): nat {
    |Between(times, a, a + window)|
  }

  ghost predicate WindowBound(c: Config, times: seq<int>) {
    forall a :: InWindow(times, a, c.window) <= AtLeastZero(c.limit)
  }

  /** One more admitted request keeps every window within the limit. */
  lemma AdmittedKeepsBound(c: Config, times: seq<int>, now: int)
    requires WindowBound(c, times) && |Between(times, now - c.window, now)| < c.limit
    requires forall i :: 0 <= i < |times| ==> times[i] <= now
    ensures WindowBound(c, times + [now])
  {
    forall a ensures InWindow(times + [now], a, c.window) <= AtLeastZero(c.limit) {
      BetweenConcat(times, [now], a, a + c.window);
      assert InWindow(times, a, c.window) <= AtLeastZero(c.limit);
      if a < now <= a + c.window {
        BetweenIsAfter(times, a, a + c.window);
        AfterAfter(times, now - c.window, a);
        BetweenIsAfter(times, now - c.window, now);
      }
    }
  }

  lemma SpecStepBound(c: Config, history: Requests, e: Event)
    requires forall key :: WindowBound(c, Stored(history, key))
    requires forall key, i :: 0 <= i < |Stored(history, key)| ==> Stored(history, key)[i] <= e.now
    ensures forall key :: WindowBound(c, Stored(SpecNext(c, history, e), key))
    ensures forall key, i :: 0 <= i < |Stored(SpecNext(c, history, e), key)| ==> Stored(SpecNext(c, history, e), key)[i] <= e.now
  {
    if e.Request? && SpecAdmits(c, history, e.key, e.now) {
      AdmittedKeepsBound(c, Stored(history, e.key), e.now);
    }
    forall key ensures WindowBound(c, Stored(SpecNext(c, history, e), key)) {
      assert WindowBound(c, Stored(history, key));
    }
  }

  lemma {:induction false} HistoryBound(c: Config, history: Requests, t: int, es: seq<Event>, key: string)
    requires InOrder(es, t)
    requires forall k :: WindowBound(c, Stored(history, k))
    requires forall k, i :: 0 <= i < |Stored(history, k)| ==> Stored(history, k)[i] <= t
    ensures WindowBound(c, Stored(History(c, history, es), key))
    decreases |es|
  {
    if es != [] {
      SpecStepBound(c, history, es[0]);
      HistoryBound(c, SpecNext(c, history, es[0]), es[0].now, es[1..], key);
    }
  }

  /** The time of the event, if it is an admitted request of the key. */
  function AdmittedBy(c: Config, requests: Requests, e: Event, key: string): seq<int> {
    if e.Request? && e.key == key && Admits(c, requests, key, e.now) then [e.now] else []
  }

  /** The times at which the limiter let requests of the key through. */
  function AdmittedTimes(c: Config, requests: Requests, es: seq<Event>, key: string): seq<int>
    decreases |es|
  {
    if es == [] then [] else AdmittedBy(c, requests, es[0], key) + AdmittedTimes(c, Next(c, requests, es[0]), es[1..], key)
  }

  lemma HistoryGrowsByAdmitted(c: Config, requests: Requests, history: Requests, t: int, e: Event, key: string)
    requires Agree(c, requests, history, t) && t <= e.now
    ensures Stored(SpecNext(c, history, e), key) == Stored(history, key) + AdmittedBy(c, requests, e, key)
  {
    if e.Request? {
      SameDecision(c, requests, history, t, e.key, e.now);
    }
  }

  lemma ConcatAssoc(a: seq<int>, b: seq<int>, c: seq<int>)
    ensures (a + b) + c == a + (b + c)
  {
  }

  lemma {:induction false} HistoryIsWhatWasAdmitted(c: Config, requests: Requests, history: Requests, t: int, es: seq<Event>, key: string)
    requires Agree(c, requests, history, t) && InOrder(es, t)
    ensures Stored(History(c, history, es), key) == Stored(history, key) + AdmittedTimes(c, requests, es, key)
    decreases |es|
  {
    if es == [] {
      assert AdmittedTimes(c, requests, es, key) == [];
    } else {
      var e, requests' := es[0], Next(c, requests, es[0]);
      assert InOrder(es[1..], e.now);
      HistoryGrowsByAdmitted(c, requests, history, t, e, key);
      StepAgrees(c, requests, history, t, e);
      HistoryIsWhatWasAdmitted(c, requests', SpecNext(c, history, e), e.now, es[1..], key);
      ConcatAssoc(Stored(history, key), AdmittedBy(c, requests, e, key), AdmittedTimes(c, requests', es[1..], key));
    }
  }

  /** In any run, no interval of length `window` holds more than `limit` admitted requests of
      one key. */
  lemma AtMostLimitPerWindow(c: Config, es: seq<Event>, t: int, key: string, a: int)
    requires InOrder(es, t)
    ensures InWindow(AdmittedTimes(c, map[], es, key), a, c.window) <= AtLeastZero(c.limit)
  {
    assert WindowBound(c, []);
    HistoryBound(c, map[], t, es, key);
    HistoryIsWhatWasAdmitted(c, map[], map[], t, es, key);
    assert [] + AdmittedTimes(c, map[], es, key) == AdmittedTimes(c, map[], es, key);
  }

  /** The table never stores more than `limit` times for a key. */
  lemma {:induction false} TableStaysSmall(c: Config, requests: Requests, es: seq<Event>, key: string)
    requires forall k :: |Stored(requests, k)| <= AtLeastZero(c.limit)
    ensures |Stored(Run(c, requests, es), key)| <= AtLeastZero(c.limit)
    decreases |es|
  {
    if es != [] {
      forall k ensures |Stored(Next(c, requests, es[0]), k)| <= AtLeastZero(c.limit) {
        AfterShrinks(Stored(requests, k), es[0].now - c.window);
      }
      TableStaysSmall(c, Next(c, requests, es[0]), es[1..], key);
    }
  }

  lemma {:induction false} AfterShrinks(times: seq<int>, cutoff: int)
    ensures |After(times, cutoff)| <= |times|
    decreases |times|
  {
    if times != [] {
      AfterShrinks(times[1..], cutoff);
    }
  }

  // ---------------------------------------------------------------------------
  // The limiter
  // ---------------------------------------------------------------------------

  /** The pruning loop that both methods share. */
  method KeepAfter(times: seq<int>, cutoff: int) returns (valid: seq<int>)
    ensures valid == After(times, cutoff)
  {
    valid := [];
    for i := 0 to |times|
      invariant valid == After(times[..i], cutoff)
    {
      assert times[..i + 1] == times[..i] + [times[i]];
      AfterConcat(times[..i], [times[i]], cutoff);
      if times[i] > cutoff {
        valid := valid + [times[i]];
      }
    }
    assert times[..|times|] == times;
  }

  class Limiter {
    var requests: Requests
    const config: Config

    constructor (limit: int, window: int)
      ensures requests == map[] && config == Config(limit, window)
    {
      requests := map[];
      config := Config(limit, window);
    }

    method Allow(key: string, now: int) returns (allowed: bool)
      modifies this
      ensures allowed == Admits(config, old(requests), key, now)
      ensures requests == Next(config, old(requests), Request(key, now))
      ensures !allowed ==> requests == old(requests)
      ensures allowed ==> requests == old(requests)[key := After(Stored(old(requests), key), now - config.window) + [now]]
    {
      var times := if key in requests then requests[key] else [];
      var valid := KeepAfter(times, now - config.window);
      if |valid| >= config.limit {
        return false;
      }
      requests := requests[key := valid + [now]];
      return true;
    }

    method CleanUp(now: int)
      modifies this
      ensures requests == Next(config, old(requests), Cleanup(now))
      ensures forall k :: k in requests <==> k in old(requests) && After(old(requests)[k], now - config.window) != []
      ensures forall k :: k in requests ==> requests[k] == After(old(requests)[k], now - config.window)
    {
      var cutoff := now - config.window;
      var todo := requests.Keys;
      assert requests == PartlyClean(requests, todo, cutoff);
      while todo != {}
        invariant todo <= old(requests).Keys && requests == PartlyClean(old(requests), todo, cutoff)
        decreases |todo|
      {
        var key :| key in todo;
        CleanNext(old(requests), todo, key, cutoff);
        var valid := KeepAfter(requests[key], cutoff);
        todo := todo - {key};
        if |valid| == 0 {
          requests := requests - {key};
        } else {
          requests := requests[key := valid];
        }
      }
    }
  }

  /** The table while the keys in `todo` are still to be cleaned. */
  function PartlyClean(requests: Requests, todo: set<string>, cutoff: int): Requests {
    map key | key in requests && (key in todo || After(requests[key], cutoff) != []) ::
      if key in todo then requests[key] else After(requests[key], cutoff)
  }

  lemma CleanNext(requests: Requests, todo: set<string>, key: string, cutoff: int)
    requires todo <= requests.Keys && key in todo
    ensures var valid := After(requests[key], cutoff);
            PartlyClean(requests, todo - {key}, cutoff) ==
            (if valid == [] then PartlyClean(requests, todo, cutoff) - {key}
             else PartlyClean(requests, todo, cutoff)[key := valid])
  {
  }

  lemma {:induction false} AfterIsFilter(times: seq<int>, cutoff: int, t: int)
    ensures t in After(times, cutoff) <==> t in times && t > cutoff
    decreases |times|
  {
    if times != [] {
      AfterIsFilter(times[1..], cutoff, t);
    }
  }

  /** A cleanup frees what is not needed: it keeps exactly the times inside the window, and no key
      without any. */
  lemma CleanupKeepsTheWindow(c: Config, requests: Requests, now: int, key: string, t: int)
    ensures var cleaned := Next(c, requests, Cleanup(now));
      && (key in cleaned ==> key in requests && cleaned[key] != [])
      && (t in Stored(cleaned, key) <==> t in Stored(requests, key) && t > now - c.window)
  {
    AfterIsFilter(Stored(requests, key), now - c.window, t);
  }
}
