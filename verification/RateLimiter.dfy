/** The per-key fixed-window limiter of emitter/api.py. */
module RateLimiter {
  import opened Prelude

  /** A request's `X-API-Key` header and the clock when it is checked. */
  datatype Request = Request(key: Option<string>, now: real)

  /** 401, 429, or the key. */
  datatype Verdict = Unauthorized | TooMany | Accepted(key: string)

  datatype Window = Window(minute: int, count: nat)

  datatype Config = Config(apiKeys: set<string>, rateLimit: int)

  function Minute(now: real): int {
    (now / 60.0).Floor
  }

  /** Minutes are whole: they begin at the multiples of sixty seconds. */
  lemma MinuteIs(now: real, minute: int)
    ensures Minute(now) == minute <==> 60.0 * minute as real <= now < 60.0 * (minute + 1) as real
  {
  }

  predicate Authorized(apiKeys: set<string>, r: Request) {
    r.key.Some? && r.key.value != "" && r.key.value in apiKeys
  }

  /** The window a request of this key and minute is counted in. */
  function Enter(rate: map<string, Window>, key: string, minute: int): Window {
    if key in rate && rate[key].minute == minute then Window(minute, rate[key].count + 1) else Window(minute, 1)
  }

  /** The table after a history of requests. */
  function Windows(apiKeys: set<string>, history: seq<Request>): map<string, Window> {
    if history == [] then map[]
    else
      var below, r := Windows(apiKeys, history[..|history| - 1]), history[|history| - 1];
      if Authorized(apiKeys, r) then below[r.key.value := Enter(below, r.key.value, Minute(r.now))] else below
  }

  function Decide(c: Config, history: seq<Request>, r: Request): Verdict {
    if !Authorized(c.apiKeys, r) then Unauthorized
    else if Enter(Windows(c.apiKeys, history), r.key.value, Minute(r.now)).count > c.rateLimit then TooMany
    else Accepted(r.key.value)
  }

  class Limiter {
    const config: Config
    var rate: map<string, Window>
    ghost var history: seq<Request>

    ghost predicate Valid()
      reads this
    {
      rate == Windows(config.apiKeys, history)
    }

    constructor (config: Config)
      ensures Valid() && history == [] && this.config == config
    {
      this.config := config;
      rate, history := map[], [];
    }

    /** `require_api_key`. */
    method RequireApiKey(r: Request) returns (verdict: Verdict)
      requires Valid()
      modifies this
      ensures Valid() && history == old(history) + [r]
      ensures verdict == Decide(config, old(history), r)
    {
      assert (history + [r])[..|history|] == history;
      history := history + [r];
      if r.key.None? || r.key.value == "" || r.key.value !in config.apiKeys {
        return Unauthorized;
      }
      var key, minute := r.key.value, Minute(r.now);
      if key !in rate || rate[key].minute != minute {
        rate := rate[key := Window(minute, 0)];
      }
      rate := rate[key := Window(minute, rate[key].count + 1)];
      if rate[key].count > config.rateLimit {
        return TooMany;
      }
      verdict := Accepted(key);
    }
  }

  // What the table stands for.

  predicate Of(apiKeys: set<string>, r: Request, key: string) {
    Authorized(apiKeys, r) && r.key.value == key
  }

  predicate In(apiKeys: set<string>, r: Request, key: string, minute: int) {
    Of(apiKeys, r, key) && Minute(r.now) == minute
  }

  /** The key's requests of this minute since it last made one in another minute. */
  function Streak(apiKeys: set<string>, history: seq<Request>, key: string, minute: int): nat {
    if history == [] then 0
    else
      var front, r := history[..|history| - 1], history[|history| - 1];
      if !Of(apiKeys, r, key) then Streak(apiKeys, front, key, minute)
      else if Minute(r.now) == minute then Streak(apiKeys, front, key, minute) + 1
      else 0
  }

  /** All the key's requests of this minute. */
  function Requests(apiKeys: set<string>, history: seq<Request>, key: string, minute: int): nat {
    if history == [] then 0
    else Requests(apiKeys, history[..|history| - 1], key, minute)
         + if In(apiKeys, history[|history| - 1], key, minute) then 1 else 0
  }

  /** Those among them that were let through. */
  function Passed(c: Config, history: seq<Request>, key: string, minute: int): nat {
    if history == [] then 0
    else
      var front, r := history[..|history| - 1], history[|history| - 1];
      Passed(c, front, key, minute)
      + if In(c.apiKeys, r, key, minute) && Decide(c, front, r).Accepted? then 1 else 0
  }

  lemma {:induction false} WindowCountsStreak(apiKeys: set<string>, history: seq<Request>, key: string, minute: int)
    ensures Enter(Windows(apiKeys, history), key, minute).count == Streak(apiKeys, history, key, minute) + 1
  {
    if history != [] {
      WindowCountsStreak(apiKeys, history[..|history| - 1], key, minute);
    }
  }

  /** Whatever the clock does, a request is let through exactly if the key's current streak in that minute
      is below the limit. */
  lemma AcceptedIffStreak(c: Config, history: seq<Request>, r: Request)
    ensures Decide(c, history, r).Accepted? <==>
            Authorized(c.apiKeys, r) && Streak(c.apiKeys, history, r.key.value, Minute(r.now)) < c.rateLimit
  {
    if Authorized(c.apiKeys, r) {
      WindowCountsStreak(c.apiKeys, history, r.key.value, Minute(r.now));
    }
  }

  // A clock that does not go back.

  predicate Monotone(history: seq<Request>) {
    forall i, j :: 0 <= i < j < |history| ==> history[i].now <= history[j].now
  }

  lemma MinutesMonotone(a: real, b: real)
    requires a <= b
    ensures Minute(a) <= Minute(b)
  {
  }

  /** The key has not left this minute again after requests in it. */
  predicate Uninterrupted(apiKeys: set<string>, history: seq<Request>, key: string, minute: int) {
    forall i, j :: 0 <= i < j < |history| && In(apiKeys, history[i], key, minute) && Of(apiKeys, history[j], key) ==>
      Minute(history[j].now) == minute
  }

  lemma {:induction false} NoneMeansNone(apiKeys: set<string>, history: seq<Request>, key: string, minute: int)
    ensures Requests(apiKeys, history, key, minute) == 0 <==>
            forall i :: 0 <= i < |history| ==> !In(apiKeys, history[i], key, minute)
  {
    if history != [] {
      NoneMeansNone(apiKeys, history[..|history| - 1], key, minute);
    }
  }

  lemma UninterruptedStep(apiKeys: set<string>, front: seq<Request>, r: Request, key: string, minute: int)
    ensures Uninterrupted(apiKeys, front + [r], key, minute) <==>
            && Uninterrupted(apiKeys, front, key, minute)
            && (Of(apiKeys, r, key) && Minute(r.now) != minute ==>
                  forall i :: 0 <= i < |front| ==> !In(apiKeys, front[i], key, minute))
  {
    var all := front + [r];
    if Uninterrupted(apiKeys, all, key, minute) {
      forall i, j | 0 <= i < j < |front| && In(apiKeys, front[i], key, minute) && Of(apiKeys, front[j], key)
        ensures Minute(front[j].now) == minute
      {
        assert all[i] == front[i] && all[j] == front[j];
      }
      forall i | 0 <= i < |front|
        ensures Of(apiKeys, r, key) && Minute(r.now) != minute ==> !In(apiKeys, front[i], key, minute)
      {
        assert all[i] == front[i] && all[|front|] == r;
      }
    }
  }

  /** The streak is all of the minute exactly if the key never left the minute in between. */
  lemma {:induction false} StreakIsAllIff(apiKeys: set<string>, history: seq<Request>, key: string, minute: int)
    ensures Streak(apiKeys, history, key, minute) <= Requests(apiKeys, history, key, minute)
    ensures Streak(apiKeys, history, key, minute) == Requests(apiKeys, history, key, minute) <==>
            Uninterrupted(apiKeys, history, key, minute)
  {
    if history != [] {
      var front, r := history[..|history| - 1], history[|history| - 1];
      StreakIsAllIff(apiKeys, front, key, minute);
      NoneMeansNone(apiKeys, front, key, minute);
      UninterruptedStep(apiKeys, front, r, key, minute);
      assert history == front + [r];
    }
  }

  /** Letting through exactly those requests of a key before which fewer than `rateLimit` came in the same
      minute, whatever the limit: the limiter does so if and only if the key has not left the minute in
      between. */
  lemma HonoursLimitsIff(apiKeys: set<string>, history: seq<Request>, r: Request)
    requires Authorized(apiKeys, r)
    ensures (forall limit :: Decide(Config(apiKeys, limit), history, r).Accepted? <==>
                             Requests(apiKeys, history, r.key.value, Minute(r.now)) < limit)
       <==> Uninterrupted(apiKeys, history, r.key.value, Minute(r.now))
  {
    var key, minute := r.key.value, Minute(r.now);
    StreakIsAllIff(apiKeys, history, key, minute);
    forall limit
      ensures Decide(Config(apiKeys, limit), history, r).Accepted? <==> Streak(apiKeys, history, key, minute) < limit
    {
      AcceptedIffStreak(Config(apiKeys, limit), history, r);
    }
    var critical := Streak(apiKeys, history, key, minute) + 1;
    assert Decide(Config(apiKeys, critical), history, r).Accepted?;
  }

  lemma MonotoneIsUninterrupted(apiKeys: set<string>, history: seq<Request>, r: Request)
    requires Monotone(history + [r]) && r.key.Some?
    ensures Uninterrupted(apiKeys, history, r.key.value, Minute(r.now))
  {
    var all, minute := history + [r], Minute(r.now);
    forall i, j | 0 <= i < j < |history| && In(apiKeys, history[i], r.key.value, minute)
      ensures Minute(history[j].now) == minute
    {
      assert all[i] == history[i] && all[j] == history[j] && all[|history|] == r;
      MinutesMonotone(history[i].now, history[j].now);
      MinutesMonotone(history[j].now, r.now);
    }
  }

  /** On a clock that does not go back a request is let through exactly if fewer than `rateLimit` requests
      of its key came before it in its minute. */
  lemma AcceptedIff(c: Config, history: seq<Request>, r: Request)
    requires Monotone(history + [r])
    ensures Decide(c, history, r).Accepted? <==>
            Authorized(c.apiKeys, r) && Requests(c.apiKeys, history, r.key.value, Minute(r.now)) < c.rateLimit
  {
    if Authorized(c.apiKeys, r) {
      AcceptedIffStreak(c, history, r);
      StreakIsAllIff(c.apiKeys, history, r.key.value, Minute(r.now));
      MonotoneIsUninterrupted(c.apiKeys, history, r);
    }
  }

  /** Per key and minute exactly the first `rateLimit` requests pass. */
  lemma {:induction false} PassedIsExact(c: Config, history: seq<Request>, key: string, minute: int)
    requires Monotone(history)
    ensures Passed(c, history, key, minute) == Min(Max(c.rateLimit, 0), Requests(c.apiKeys, history, key, minute))
  {
    if history != [] {
      var front, r := history[..|history| - 1], history[|history| - 1];
      PassedIsExact(c, front, key, minute);
      assert front + [r] == history;
      AcceptedIff(c, front, r);
    }
  }

  // Any sixty seconds.

  predicate Within(r: Request, start: real) {
    start <= r.now <= start + 60.0
  }

  function PassedWithin(c: Config, history: seq<Request>, key: string, start: real): nat {
    if history == [] then 0
    else
      var front, r := history[..|history| - 1], history[|history| - 1];
      PassedWithin(c, front, key, start)
      + if Of(c.apiKeys, r, key) && Within(r, start) && Decide(c, front, r).Accepted? then 1 else 0
  }

  lemma {:induction false} SixtySecondsTouchTwoMinutes(c: Config, history: seq<Request>, key: string, start: real)
    ensures PassedWithin(c, history, key, start)
         <= Passed(c, history, key, Minute(start)) + Passed(c, history, key, Minute(start) + 1)
  {
    if history != [] {
      var r := history[|history| - 1];
      SixtySecondsTouchTwoMinutes(c, history[..|history| - 1], key, start);
      if Within(r, start) {
        assert r.now / 60.0 <= start / 60.0 + 1.0;
      }
    }
  }

  lemma AnySixtySeconds(c: Config, history: seq<Request>, key: string, start: real)
    requires Monotone(history)
    ensures PassedWithin(c, history, key, start) <= 2 * Max(c.rateLimit, 0)
  {
    SixtySecondsTouchTwoMinutes(c, history, key, start);
    PassedIsExact(c, history, key, Minute(start));
    PassedIsExact(c, history, key, Minute(start) + 1);
  }

  // One key at a time.

  function OnlyOf(apiKeys: set<string>, history: seq<Request>, key: string): seq<Request> {
    if history == [] then []
    else
      var front, r := OnlyOf(apiKeys, history[..|history| - 1], key), history[|history| - 1];
      if Of(apiKeys, r, key) then front + [r] else front
  }

  lemma {:induction false} StreakIsOwn(apiKeys: set<string>, history: seq<Request>, key: string, minute: int)
    ensures Streak(apiKeys, history, key, minute) == Streak(apiKeys, OnlyOf(apiKeys, history, key), key, minute)
  {
    if history != [] {
      var front, r := history[..|history| - 1], history[|history| - 1];
      StreakIsOwn(apiKeys, front, key, minute);
      assert (OnlyOf(apiKeys, front, key) + [r])[..|OnlyOf(apiKeys, front, key)|] == OnlyOf(apiKeys, front, key);
    }
  }

  /** The other keys' requests, and the unauthorized ones, change nothing for this one. */
  lemma KeysAreIndependent(c: Config, history: seq<Request>, r: Request)
    requires Authorized(c.apiKeys, r)
    ensures Decide(c, history, r) == Decide(c, OnlyOf(c.apiKeys, history, r.key.value), r)
  {
    var key, minute := r.key.value, Minute(r.now);
    WindowCountsStreak(c.apiKeys, history, key, minute);
    WindowCountsStreak(c.apiKeys, OnlyOf(c.apiKeys, history, key), key, minute);
    StreakIsOwn(c.apiKeys, history, key, minute);
  }

  /** A clock stepping back into an earlier minute and forward again opens a second window: three
      requests of one key at limit 1 all pass, two of them in the same minute. */
  lemma ClockGoingBack(key: string)
    requires key != ""
    ensures var c, r := Config({key}, 1), (now: real) => Request(Some(key), now);
            && Decide(c, [], r(60.0)) == Accepted(key)
            && Decide(c, [r(60.0)], r(0.0)) == Accepted(key)
            && Decide(c, [r(60.0), r(0.0)], r(61.0)) == Accepted(key)
            && Minute(60.0) == Minute(61.0) != Minute(0.0)
  {
    var c := Config({key}, 1);
    var late, early, again := Request(Some(key), 60.0), Request(Some(key), 0.0), Request(Some(key), 61.0);
    assert Minute(60.0) == 1 && Minute(61.0) == 1 && Minute(0.0) == 0;
    AcceptedIffStreak(c, [], late);
    AcceptedIffStreak(c, [late], early);
    assert [late, early][..1] == [late];
    AcceptedIffStreak(c, [late, early], again);
  }
}
