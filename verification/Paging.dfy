/** Capped retrieval of logs (tools/extract_fixtures.py): five attempts a page, and halving of the block
    range whenever a page comes back full. The remote service is an arbitrary function from range and
    attempt to reply; each range is asked for once. */
module Paging {
  import opened Prelude
  import opened HexText

  const MAX_RETRIES: nat := 5
  const CAP: nat := 1000

  datatype Reply<L> = Disconnect | Text(message: string) | Rows(rows: seq<L>) | Other

  type Service<!L> = (int, int, nat) -> Reply<L>

  datatype Failure = RetriesExhausted | ServiceError(message: string) | Unexpected | BlockOverCap(blk: int)

  predicate Contains(s: string, part: string) {
    exists i :: 0 <= i <= |s| && part <= s[i..]
  }

  /** Worth another attempt: a request exception, or the rate limit told as a text. */
  predicate Transient<L>(reply: Reply<L>) {
    reply.Disconnect? || (reply.Text? && Contains(Lower(reply.message), "rate limit"))
  }

  /** The first reply from this attempt on that is not transient. */
  function FirstReply<L>(service: Service<L>, from: int, to: int, attempt: nat): Option<Reply<L>>
    decreases MAX_RETRIES + 1 - attempt
  {
    if attempt > MAX_RETRIES then None
    else if Transient(service(from, to, attempt)) then FirstReply(service, from, to, attempt + 1)
    else Some(service(from, to, attempt))
  }

  /** The retry loop. `slept` counts units of the 1.5 second backoff. */
  method FetchPage<L>(service: Service<L>, from: int, to: int) returns (page: Option<Reply<L>>, slept: nat)
    ensures page == FirstReply(service, from, to, 1)
    ensures page.Some? ==> !Transient(page.value)
    ensures page.Some? ==>
      exists k: nat :: 1 <= k <= MAX_RETRIES && page.value == service(from, to, k) && 2 * slept == k * (k - 1)
    ensures page.None? ==> slept == 10
    ensures page.None? ==> forall k: nat :: 1 <= k <= MAX_RETRIES ==> Transient(service(from, to, k))
  {
    page, slept := None, 0;
    var attempt := 1;
    while attempt <= MAX_RETRIES
      invariant 1 <= attempt <= MAX_RETRIES + 1 && page.None?
      invariant FirstReply(service, from, to, 1) == FirstReply(service, from, to, attempt)
      invariant forall k: nat :: 1 <= k < attempt ==> Transient(service(from, to, k))
      invariant attempt <= MAX_RETRIES ==> 2 * slept == attempt * (attempt - 1)
      invariant attempt > MAX_RETRIES ==> slept == 10
    {
      var reply := service(from, to, attempt);
      if Transient(reply) {
        if attempt < MAX_RETRIES {
          slept := slept + attempt;
        }
        attempt := attempt + 1;
        continue;
      }
      page := Some(reply);
      return;
    }
  }

  /** `etherscan_get_logs`, as a function of the service. */
  function Retrieve<L>(service: Service<L>, from: int, to: int): Result<seq<L>, Failure>
    decreases Max(to - from, 0)
  {
    var page := FirstReply(service, from, to, 1);
    if page.None? then Err(RetriesExhausted)
    else
      match page.value
      case Text(message) => if Contains(message, "No records") then Ok([]) else Err(ServiceError(message))
      case Rows(rows) =>
        if |rows| < CAP then Ok(rows)
        else if from >= to then Err(BlockOverCap(from))
        else
          var mid := (from + to) / 2;
          var left := Retrieve(service, from, mid);
          if left.Err? then left
          else
            var right := Retrieve(service, mid + 1, to);
            if right.Err? then right else Ok(left.value + right.value)
      case _ => Err(Unexpected)
  }

  method GetLogs<L>(service: Service<L>, from: int, to: int) returns (r: Result<seq<L>, Failure>)
    ensures r == Retrieve(service, from, to)
    decreases Max(to - from, 0)
  {
    var page, _ := FetchPage(service, from, to);
    if page.None? {
      return Err(RetriesExhausted);
    }
    match page.value {
      case Text(message) =>
        if Contains(message, "No records") {
          return Ok([]);
        }
        return Err(ServiceError(message));
      case Rows(rows) =>
        if |rows| >= CAP {
          if from >= to {
            return Err(BlockOverCap(from));
          }
          var mid := (from + to) / 2;
          var left := GetLogs(service, from, mid);
          if left.Err? {
            return left;
          }
          var right := GetLogs(service, mid + 1, to);
          if right.Err? {
            return right;
          }
          return Ok(left.value + right.value);
        }
        return Ok(rows);
      case _ =>
        return Err(Unexpected);
    }
  }

  // The chain behind the service.

  datatype Entry = Entry(blk: int, payload: string)

  predicate Ordered(chain: seq<Entry>) {
    forall i, j :: 0 <= i < j < |chain| ==> chain[i].blk <= chain[j].blk
  }

  /** The matching logs of a block range, in chain order. */
  function InRange(chain: seq<Entry>, from: int, to: int): seq<Entry> {
    if chain == [] then []
    else
      var front, last := chain[..|chain| - 1], chain[|chain| - 1];
      InRange(front, from, to) + if from <= last.blk <= to then [last] else []
  }

  function Capped<L>(rows: seq<L>): seq<L> {
    if |rows| <= CAP then rows else rows[..CAP]
  }

  /** What a service over this chain may say: something transient, the first rows of the range, or, for
      an empty range, that there are no records. */
  predicate Honest(reply: Reply<Entry>, chain: seq<Entry>, from: int, to: int) {
    || Transient(reply)
    || reply == Rows(Capped(InRange(chain, from, to)))
    || (InRange(chain, from, to) == [] && reply.Text? && Contains(reply.message, "No records"))
  }

  ghost predicate Serves(service: Service<Entry>, chain: seq<Entry>) {
    forall from, to, attempt :: Honest(service(from, to, attempt), chain, from, to)
  }

  /** Every range gets through within the five attempts. */
  ghost predicate Reliable<L>(service: Service<L>) {
    forall from, to :: FirstReply(service, from, to, 1).Some?
  }

  lemma {:induction false} FirstReplyIsHonest(service: Service<Entry>, chain: seq<Entry>, from: int, to: int,
                                              attempt: nat)
    requires Serves(service, chain)
    ensures var page := FirstReply(service, from, to, attempt);
            page.Some? ==> Honest(page.value, chain, from, to) && !Transient(page.value)
    decreases MAX_RETRIES + 1 - attempt
  {
    if attempt <= MAX_RETRIES {
      assert Honest(service(from, to, attempt), chain, from, to);
      if Transient(service(from, to, attempt)) {
        FirstReplyIsHonest(service, chain, from, to, attempt + 1);
      }
    }
  }

  lemma {:induction false} NothingAbove(chain: seq<Entry>, from: int, to: int)
    requires forall i :: 0 <= i < |chain| ==> chain[i].blk < from
    ensures InRange(chain, from, to) == []
  {
    if chain != [] {
      NothingAbove(chain[..|chain| - 1], from, to);
    }
  }

  /** A range of an ordered chain is its two halves one after the other. */
  lemma {:induction false} RangeSplits(chain: seq<Entry>, from: int, mid: int, to: int)
    requires Ordered(chain) && from <= mid <= to
    ensures InRange(chain, from, to) == InRange(chain, from, mid) + InRange(chain, mid + 1, to)
  {
    if chain != [] {
      var front, last := chain[..|chain| - 1], chain[|chain| - 1];
      RangeSplits(front, from, mid, to);
      if last.blk <= mid {
        NothingAbove(front, mid + 1, to);
      }
    }
  }

  lemma {:induction false} RangeGrows(chain: seq<Entry>, from: int, to: int, b: int)
    requires from <= b <= to
    ensures |InRange(chain, b, b)| <= |InRange(chain, from, to)|
  {
    if chain != [] {
      RangeGrows(chain[..|chain| - 1], from, to, b);
    }
  }

  lemma {:induction false} BackwardsIsEmpty(chain: seq<Entry>, from: int, to: int)
    requires from > to
    ensures InRange(chain, from, to) == []
  {
    if chain != [] {
      BackwardsIsEmpty(chain[..|chain| - 1], from, to);
    }
  }

  predicate Overfull(chain: seq<Entry>, b: int) {
    |InRange(chain, b, b)| >= CAP
  }

  /** Whatever the transport does, logs that are returned are all the logs of the range, in order. */
  lemma {:induction false} NothingIsLost(service: Service<Entry>, chain: seq<Entry>, from: int, to: int)
    requires Ordered(chain) && Serves(service, chain) && Retrieve(service, from, to).Ok?
    ensures Retrieve(service, from, to) == Ok(InRange(chain, from, to))
    decreases Max(to - from, 0)
  {
    hide FirstReply, InRange, Serves, Ordered, Contains, Transient;
    FirstReplyIsHonest(service, chain, from, to, 1);
    var page := FirstReply(service, from, to, 1).value;
    if page.Rows? && |page.rows| >= CAP {
      var mid := (from + to) / 2;
      NothingIsLost(service, chain, from, mid);
      NothingIsLost(service, chain, mid + 1, to);
      RangeSplits(chain, from, mid, to);
    }
  }

  /** The blocks that could not be paged: none, or the lowest overfull one is named. */
  ghost predicate Outcome(r: Result<seq<Entry>, Failure>, chain: seq<Entry>, from: int, to: int) {
    && (r.Ok? ==> forall b :: from <= b <= to ==> !Overfull(chain, b))
    && (r.Err? ==>
          && r.error.BlockOverCap? && from <= r.error.blk <= to && Overfull(chain, r.error.blk)
          && forall b :: from <= b < r.error.blk ==> !Overfull(chain, b))
  }

  /** What one call does over an honest service once a page has got through. */
  lemma OneCall(service: Service<Entry>, chain: seq<Entry>, from: int, to: int)
    requires Serves(service, chain) && Reliable(service)
    ensures |InRange(chain, from, to)| < CAP ==> Retrieve(service, from, to).Ok?
    ensures |InRange(chain, from, to)| >= CAP && from >= to ==> Retrieve(service, from, to) == Err(BlockOverCap(from))
    ensures |InRange(chain, from, to)| >= CAP && from < to ==>
      var mid := (from + to) / 2;
      var left, right := Retrieve(service, from, mid), Retrieve(service, mid + 1, to);
      Retrieve(service, from, to) ==
        if left.Err? then left else if right.Err? then right else Ok(left.value + right.value)
  {
    hide Serves, FirstReply, InRange;
    FirstReplyIsHonest(service, chain, from, to, 1);
  }

  lemma {:induction false} OutcomeIsExact(service: Service<Entry>, chain: seq<Entry>, from: int, to: int)
    requires Ordered(chain) && Serves(service, chain) && Reliable(service)
    ensures Outcome(Retrieve(service, from, to), chain, from, to)
    decreases Max(to - from, 0)
  {
    hide Retrieve, Serves, Reliable, InRange;
    OneCall(service, chain, from, to);
    if |InRange(chain, from, to)| < CAP {
      forall b | from <= b <= to ensures !Overfull(chain, b) {
        RangeGrows(chain, from, to, b);
      }
    } else if from > to {
      BackwardsIsEmpty(chain, from, to);
    } else if from < to {
      var mid := (from + to) / 2;
      OutcomeIsExact(service, chain, from, mid);
      OutcomeIsExact(service, chain, mid + 1, to);
    }
  }

  /** Over a transport that gets through, retrieval returns every log of the range exactly if no single
      block holds a full page; otherwise it stops at the lowest block that does. */
  lemma PagingIsComplete(service: Service<Entry>, chain: seq<Entry>, from: int, to: int)
    requires Ordered(chain) && Serves(service, chain) && Reliable(service)
    ensures Retrieve(service, from, to) == Ok(InRange(chain, from, to)) <==>
            forall b :: from <= b <= to ==> !Overfull(chain, b)
    ensures Retrieve(service, from, to).Ok? <==> forall b :: from <= b <= to ==> !Overfull(chain, b)
    ensures Outcome(Retrieve(service, from, to), chain, from, to)
  {
    OutcomeIsExact(service, chain, from, to);
    if Retrieve(service, from, to).Ok? {
      NothingIsLost(service, chain, from, to);
    }
  }

  // What is retried.

  ghost predicate SaysRateLimit(message: string) {
    exists before, words, after :: Around(message, before, words, after) && Lower(words) == "rate limit"
  }

  predicate Around(message: string, before: string, words: string, after: string) {
    message == before + words + after
  }

  lemma ContainsIff(s: string, part: string)
    ensures Contains(s, part) <==> exists before, after :: Around(s, before, part, after)
  {
    if Contains(s, part) {
      var i :| 0 <= i <= |s| && part <= s[i..];
      assert s == s[..i] + part + s[i + |part|..];
      assert Around(s, s[..i], part, s[i + |part|..]);
    }
    if before, after :| Around(s, before, part, after) {
      assert s[|before|..] == part + after;
    }
  }

  lemma LowerParts(s: string, i: nat, n: nat)
    requires i + n <= |s|
    ensures Lower(s)[i..i + n] == Lower(s[i..i + n])
  {
  }

  lemma AroundLowered(m: string, before: string, words: string, after: string)
    requires Around(m, before, words, after)
    ensures Around(Lower(m), Lower(before), Lower(words), Lower(after))
  {
  }

  lemma LoweredAround(m: string, before: string, part: string, after: string)
    requires Around(Lower(m), before, part, after)
    ensures exists w :: Lower(w) == part && exists b, a :: Around(m, b, w, a)
  {
    var i, n := |before|, |part|;
    assert |Lower(m)| == |m| && Lower(m)[i..i + n] == part;
    LowerParts(m, i, n);
    CutOut(m, i, n);
    assert Around(m, m[..i], m[i..i + n], m[i + n..]);
  }

  lemma CutOut(m: string, i: nat, n: nat)
    requires i + n <= |m|
    ensures Around(m, m[..i], m[i..i + n], m[i + n..])
  {
  }

  /** The rate limit is recognized wherever it stands in the text and in whatever case. */
  lemma TransientIff<L>(reply: Reply<L>)
    ensures Transient(reply) <==> reply.Disconnect? || (reply.Text? && SaysRateLimit(reply.message))
  {
    hide Lower, Contains, Around;
    if reply.Text? {
      var m, part := reply.message, "rate limit";
      ContainsIff(Lower(m), part);
      if before, after :| Around(Lower(m), before, part, after) {
        LoweredAround(m, before, part, after);
        var w :| Lower(w) == part && exists b, a :: Around(m, b, w, a);
        var b, a :| Around(m, b, w, a);
        assert SaysRateLimit(m);
      }
      if before, words, after :| Around(m, before, words, after) && Lower(words) == part {
        AroundLowered(m, before, words, after);
      }
    }
  }

  lemma {:induction false} RetriesReach<L>(service: Service<L>, from: int, to: int, a: nat, k: nat)
    requires 1 <= a <= k <= MAX_RETRIES && !Transient(service(from, to, k))
    requires forall b: nat :: a <= b < k ==> Transient(service(from, to, b))
    ensures FirstReply(service, from, to, a) == Some(service(from, to, k))
    decreases k - a
  {
    if a < k {
      RetriesReach(service, from, to, a + 1, k);
    }
  }

  /** Up to four attempts that fail or are told of the rate limit leave no trace: the outcome is that of the
      first conclusive reply, told apart by what it says. */
  lemma ConclusiveReply<L>(service: Service<L>, from: int, to: int, k: nat)
    requires 1 <= k <= MAX_RETRIES && !Transient(service(from, to, k))
    requires forall b: nat :: 1 <= b < k ==> Transient(service(from, to, b))
    ensures var reply, r := service(from, to, k), Retrieve(service, from, to);
            && (reply.Other? ==> r == Err(Unexpected))
            && (reply.Text? ==>
                  if exists before, after :: Around(reply.message, before, "No records", after) then r == Ok([])
                  else r == Err(ServiceError(reply.message)))
            && (reply.Rows? && |reply.rows| < CAP ==> r == Ok(reply.rows))
            && (reply.Rows? && |reply.rows| >= CAP && from >= to ==> r == Err(BlockOverCap(from)))
  {
    RetriesReach(service, from, to, 1, k);
    if service(from, to, k).Text? {
      ContainsIff(service(from, to, k).message, "No records");
    }
  }
}
