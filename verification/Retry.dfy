/** pkg/retry/retry.go: classification of failures, delays, and the bounded retry loop. Durations are
    nanoseconds in an int64. */
module Retry {
  import opened RetryBudget
  import opened Text
  import opened TextLaws

  const SECOND := 1_000_000_000

  // ----- Classification -----

  datatype Kind = Read | Write
  datatype Class = Transient | Permanent | UncertainWrite

  /** `retryAt` is the date http.ParseTime reads in the Retry-After header, in nanoseconds. */
  datatype Headers = Headers(retryAfter: string, retryAt: Option<int>, remaining: string, reset: string)

  /** An answer of GitHub carried by an error; a rate limit error without a response has status 403. */
  datatype Answer = Answer(status: int, headers: Option<Headers>, message: string)

  /** `network`: a deadline, a temporary network error or a timeout found in the error chain. */
  datatype Failure = Failure(text: string, network: bool, answer: Option<Answer>)

  predicate ContainsAny(s: string, subs: seq<string>) {
    exists i :: 0 <= i < |subs| && Contains(s, subs[i])
  }

  const NETWORK_TEXTS := ["timeout", "deadline exceeded", "connection reset", "connection refused", "broken pipe"]
  const QUOTA_TEXTS := ["insufficient_quota", "quota exceeded", "exceeded your current quota", "billing",
                        "account deactivated", "credit limit"]
  const SECONDARY_TEXTS := ["secondary rate limit", "please wait a few minutes before you try again",
                            "you have exceeded a secondary rate limit", "abuse detection mechanism"]
  const RATE_TEXTS := ["rate limit", "too many requests", "429"]
  const SERVER_TEXTS := ["502", "503", "504", "500"]

  predicate TimeoutOrNetwork(f: Failure) {
    f.network || ContainsAny(ToLower(f.text), NETWORK_TEXTS)
  }

  predicate QuotaExhausted(text: string) {
    ContainsAny(text, QUOTA_TEXTS)
  }

  predicate SecondaryRateLimit(body: string, headers: Option<Headers>) {
    || (headers.Some? && headers.value.retryAfter != "")
    || ContainsAny(body, SECONDARY_TEXTS)
    || (headers.Some? && headers.value.remaining == "0")
  }

  /** The status a plain error text reports, as in "api error (status 429): ...". */
  function StatusInText(text: string): int {
    match Index(text, "status ")
    case None => 0
    case Some(i) =>
      var rest := text[i + 7..];
      match Index(rest, ")")
      case None => 0
      case Some(j) => (match Atoi(rest[..j]) case Some(code) => code case None => 0)
  }

  function Details(f: Failure): Answer {
    match f.answer
    case Some(a) => Answer(a.status, a.headers, ToLower(a.message))
    case None => Answer(StatusInText(f.text), None, ToLower(f.text))
  }

  function ServerFailure(kind: Kind): Class {
    if kind == Write then UncertainWrite else Transient
  }

  function ClassifyText(text: string, kind: Kind): Class {
    if QuotaExhausted(text) then Permanent
    else if ContainsAny(text, RATE_TEXTS) then Transient
    else if ContainsAny(text, SERVER_TEXTS) then ServerFailure(kind)
    else Permanent
  }

  function ClassifyError(f: Failure, kind: Kind): Class {
    if kind == Write && TimeoutOrNetwork(f) then UncertainWrite
    else
      var a := Details(f);
      if a.status in {401, 422, 404, 501} then Permanent
      else if a.status == 403 then (if SecondaryRateLimit(a.message, a.headers) then Transient else Permanent)
      else if a.status == 429 then (if QuotaExhausted(a.message) then Permanent else Transient)
      else if 500 <= a.status <= 599 then ServerFailure(kind)
      else if TimeoutOrNetwork(f) then ServerFailure(kind)
      else ClassifyText(ToLower(f.text), kind)
  }

  /** A failure that means the request was turned away before anything was done. */
  predicate TurnedAway(f: Failure) {
    var a := Details(f);
    || (a.status == 403 && SecondaryRateLimit(a.message, a.headers))
    || (a.status == 429 && !QuotaExhausted(a.message))
  }

  /** A failure known only by its text, that names a rate limit. */
  predicate TextNamesRateLimit(f: Failure) {
    var status := Details(f).status;
    && status !in {401, 403, 404, 422, 429} && !(500 <= status <= 599)
    && !QuotaExhausted(ToLower(f.text)) && ContainsAny(ToLower(f.text), RATE_TEXTS)
  }

  /** A write is repeated exactly when its failure is a rate limit and no timeout or network failure. */
  lemma WriteRetriedIff(f: Failure)
    ensures ClassifyError(f, Write) == Transient <==> !TimeoutOrNetwork(f) && (TurnedAway(f) || TextNamesRateLimit(f))
    ensures ClassifyError(f, Write) == Transient ==> ClassifyError(f, Read) == Transient
    ensures ClassifyError(f, Write) == UncertainWrite ==>
              ClassifyError(f, Read) in {Transient, Permanent} && (TimeoutOrNetwork(f) || !TurnedAway(f))
  {
    hide TimeoutOrNetwork, SecondaryRateLimit, QuotaExhausted, Details, ContainsAny;
  }

  /** What the status of an answer decides, whatever its text: after a server error other than 501 a read is
      worth repeating and a write may have been applied; after the others nothing changes by repeating. */
  lemma StatusDecides(f: Failure)
    requires f.answer.Some?
    ensures var status := f.answer.value.status;
      && (500 <= status <= 599 && status != 501 ==>
            ClassifyError(f, Write) == UncertainWrite && ClassifyError(f, Read) == Transient)
      && (status == 401 || status == 404 || status == 422 || status == 501 ==>
            && ClassifyError(f, Read) == Permanent
            && ClassifyError(f, Write) == if TimeoutOrNetwork(f) then UncertainWrite else Permanent)
      && (status == 403 || status == 429 ==> ClassifyError(f, Read) != UncertainWrite)
  {
    hide TimeoutOrNetwork, SecondaryRateLimit, QuotaExhausted, ClassifyText;
  }

  // ----- The words -----

  /** One of the words stands somewhere in the text. */
  ghost predicate Names(text: string, words: seq<string>) {
    exists w :: w in words && Carries(text, w)
  }

  lemma NamesIff(text: string, words: seq<string>)
    ensures ContainsAny(text, words) <==> Names(text, words)
  {
    hide Contains, Carries;
    forall i | 0 <= i < |words|
      ensures Contains(text, words[i]) <==> Carries(text, words[i])
    {
      ContainsIff(text, words[i]);
    }
    if w :| w in words && Carries(text, w) {
      var i :| 0 <= i < |words| && words[i] == w;
    }
  }

  /** What the text of an error says when no answer does: an exhausted quota is final, a rate limit is not, and
      a server error leaves open whether a write was applied. */
  lemma TextDecides(text: string, kind: Kind)
    ensures ClassifyText(text, kind) ==
      if Names(text, ["insufficient_quota", "quota exceeded", "exceeded your current quota", "billing",
                      "account deactivated", "credit limit"]) then Permanent
      else if Names(text, ["rate limit", "too many requests", "429"]) then Transient
      else if !Names(text, ["502", "503", "504", "500"]) then Permanent
      else if kind == Write then UncertainWrite else Transient
  {
    NamesIff(text, QUOTA_TEXTS);
    NamesIff(text, RATE_TEXTS);
    NamesIff(text, SERVER_TEXTS);
    hide ContainsAny, Names;
  }

  /** A 403 is a rate limit if GitHub says when to come back, says so in words, or says that no request is left;
      a 429 is one unless it speaks of an exhausted quota. */
  lemma LimitDecides(f: Failure)
    requires f.answer.Some?
    ensures var a := f.answer.value; var text := ToLower(a.message);
      && (a.status == 403 ==> (ClassifyError(f, Read) == Transient <==>
            || (a.headers.Some? && (a.headers.value.retryAfter != "" || a.headers.value.remaining == "0"))
            || Names(text, ["secondary rate limit", "please wait a few minutes before you try again",
                            "you have exceeded a secondary rate limit", "abuse detection mechanism"])))
      && (a.status == 429 ==> (ClassifyError(f, Read) == Transient <==>
            !Names(text, ["insufficient_quota", "quota exceeded", "exceeded your current quota", "billing",
                          "account deactivated", "credit limit"])))
  {
    var text := ToLower(f.answer.value.message);
    NamesIff(text, SECONDARY_TEXTS);
    NamesIff(text, QUOTA_TEXTS);
    hide ContainsAny, Names, ToLower, TimeoutOrNetwork, ClassifyText;
  }

  lemma TimeoutIff(f: Failure)
    ensures TimeoutOrNetwork(f) <==>
      || f.network
      || Names(ToLower(f.text), ["timeout", "deadline exceeded", "connection reset", "connection refused",
                                 "broken pipe"])
  {
    NamesIff(ToLower(f.text), NETWORK_TEXTS);
    hide ContainsAny, Names, ToLower;
  }

  /** The status in a text is the number between the first "status " and the bracket after it. */
  lemma StatusRead(text: string, i: nat, n: nat, after: string)
    requires n <= MAX_INT64
    requires StandsAt(text, "status ", i) && forall j: nat :: j < i ==> !StandsAt(text, "status ", j)
    requires text[i + 7..] == Itoa(n) + ")" + after
    ensures StatusInText(text) == n
  {
    var code := Itoa(n);
    IndexWhere(text, "status ", i);
    BracketAfter(code, after);
    AtoiItoa(n);
    hide Index, Itoa, Atoi, StandsAt;
    FrontOf(code, ")", after);
  }

  lemma FrontOf(a: string, b: string, c: string)
    ensures (a + b + c)[..|a|] == a
  {
  }

  lemma StandsBetween(a: string, sub: string, b: string)
    ensures StandsAt(a + sub + b, sub, |a|)
  {
    assert (a + sub + b)[|a|..|a| + |sub|] == sub;
  }

  lemma BracketAfter(code: string, after: string)
    requires AllDigits(code)
    ensures Index(code + ")" + after, ")") == Some(|code|)
  {
    var rest := code + ")" + after;
    StandsBetween(code, ")", after);
    forall i: nat | i < |code|
      ensures !StandsAt(rest, ")", i)
    {
      assert rest[i..i + 1] == [code[i]];
    }
    IndexWhere(rest, ")", |code|);
  }

  lemma NotInside(s: string, sub: string)
    requires |sub| > |s| || (|sub| == |s| && sub != s)
    ensures Index(s, sub) == None
  {
    assert s[0..|s|] == s;
  }

  lemma TooShortFor(s: string, subs: seq<string>)
    requires forall i :: 0 <= i < |subs| ==> |subs[i]| > |s| || (|subs[i]| == |s| && subs[i] != s)
    ensures !ContainsAny(s, subs)
  {
    forall i | 0 <= i < |subs|
      ensures !Contains(s, subs[i])
    {
      NotInside(s, subs[i]);
    }
  }

  lemma LowerDigits(text: string)
    requires forall i :: 0 <= i < |text| ==> !('A' <= text[i] <= 'Z')
    ensures ToLower(text) == text
  {
  }

  lemma NoStatus(text: string)
    requires |text| <= 7 && text != "status "
    ensures StatusInText(text) == 0
  {
    NotInside(text, "status ");
  }

  /** A plain error text that names a rate limit and a server error, and is short. */
  lemma BothNamed(text: string)
    requires text == "500 429"
    ensures ContainsAny(text, SERVER_TEXTS) && Contains(text, "429")
  {
    hide Index;
    assert "" + "500" + " 429" == text && "500 " + "429" + "" == text;
    ContainsInfix("", "500", " 429");
    ContainsInfix("500 ", "429", "");
    assert Contains(text, SERVER_TEXTS[3]);
  }

  /** A failure known only by its text, which names a server error and holds "429", and names no timeout,
      network failure, quota or status. */
  predicate ServerErrorWith429(f: Failure) {
    var text := ToLower(f.text);
    && f.answer.None? && !f.network
    && ContainsAny(text, SERVER_TEXTS) && Contains(text, "429")
    && !ContainsAny(text, NETWORK_TEXTS) && !QuotaExhausted(text) && StatusInText(f.text) == 0
  }

  /** Every such server error is taken for a rate limit, so the write is repeated although it may have been
      applied. */
  lemma ServerErrorTextRepeatsWrite(f: Failure)
    requires ServerErrorWith429(f)
    ensures ClassifyError(f, Write) == Transient
  {
    hide Contains, ToLower, StatusInText, QuotaExhausted, ClassifyError;
    assert RATE_TEXTS[2] == "429";
    WriteRetriedIff(f);
  }

  /** Such texts exist. */
  lemma ServerErrorExample()
    ensures ServerErrorWith429(Failure("500 429", false, None))
  {
    hide Index, ToLower, ContainsAny, StatusInText;
    var text := "500 429";
    LowerDigits(text);
    BothNamed(text);
    TooShortFor(text, NETWORK_TEXTS);
    TooShortFor(text, QUOTA_TEXTS);
    NoStatus(text);
  }

  // ----- Delays -----

  datatype Policy = Policy(maxAttempts: int, baseDelay: Int64, maxDelay: Int64, maxWait: Int64, jobBudget: Int64)

  const DEFAULT_ATTEMPTS := 5
  const DEFAULT_BASE := SECOND
  const DEFAULT_MAX_DELAY := 30 * SECOND

  /** Policies for which the backoff does not overflow; ValidateRetry allows at most 10 s and 5 min. */
  predicate Sane(p: Policy) {
    p.baseDelay <= MAX / 1024 && p.maxDelay <= MAX / 2
  }

  datatype Wait = NoWait | Wait(delay: int)

  function Until(target: int, now: int): Int64 {
    if target <= now then 0 else if target - now > MAX then MAX else target - now
  }

  function ParseRetryAfter(headers: Option<Headers>, now: int): Wait {
    if headers.None? then NoWait
    else
      var h := headers.value;
      var seconds := Atoi(h.retryAfter);
      if h.retryAfter != "" && seconds.Some? && seconds.value >= 0 then Wait(Wrap(seconds.value * SECOND))
      else if h.retryAfter != "" && h.retryAt.Some? then Wait(Until(h.retryAt.value, now))
      else if h.reset != "" && Atoi(h.reset).Some? then Wait(Until(Atoi(h.reset).value * SECOND, now))
      else NoWait
  }

  /** Drawing a random number below zero or less panics. */
  datatype Delay = Delay(delay: Int64) | TooLong(wait: Int64) | Panic

  function Power(n: nat): (r: int)
    ensures r >= 1
  {
    if n == 0 then 1 else 2 * Power(n - 1)
  }

  /** The delay before jitter. */
  function Backoff(attempt: nat, p: Policy): Int64
    requires attempt >= 1
  {
    var base := if p.baseDelay <= 0 then DEFAULT_BASE else p.baseDelay;
    var shift := if attempt - 1 > 10 then 10 else attempt - 1;
    var delay := Wrap(base * Power(shift));
    var maxDelay := if p.maxDelay <= 0 then DEFAULT_MAX_DELAY else p.maxDelay;
    if delay > maxDelay then maxDelay else delay
  }

  function Bounded(delay: Int64, p: Policy): Delay {
    if p.maxWait > 0 && delay > p.maxWait then TooLong(delay) else Delay(delay)
  }

  /** A quarter, rounded toward zero. */
  function Quarter(d: int): int {
    if d >= 0 then d / 4 else 0 - (0 - d) / 4
  }

  /** `random` is the number drawn; it is reduced to the range [0, backoff/4]. */
  function CalculateDelay(attempt: nat, p: Policy, headers: Option<Headers>, now: int, random: nat): Delay
    requires attempt >= 1
  {
    match ParseRetryAfter(headers, now)
    case Wait(d) => Bounded(Wrap(d), p)
    case NoWait =>
      var delay := Backoff(attempt, p);
      if Quarter(delay) + 1 <= 0 then Panic else Bounded(Wrap(delay + random % (Quarter(delay) + 1)), p)
  }

  lemma PowerSmall(n: nat)
    requires n <= 10
    ensures Power(n) <= 1024
  {
    if n < 10 {
      PowerGrows(n, 10);
    }
    assert Power(5) == 32 && Power(10) == 32 * Power(5) by {
      assert Power(3) == 8;
      assert Power(8) == 32 * Power(3);
    }
  }

  lemma {:induction false} PowerGrows(n: nat, m: nat)
    requires n <= m
    ensures Power(n) <= Power(m)
  {
    if n < m {
      PowerGrows(n, m - 1);
    }
  }

  lemma ProductBound(base: int, a: int, b: int)
    requires 1 <= base && 1 <= a <= b
    ensures base <= base * a <= base * b
  {
  }

  /** The backoff of a sane policy never overflows. */
  lemma BackoffPositive(attempt: nat, p: Policy)
    requires attempt >= 1 && Sane(p)
    ensures 1 <= Backoff(attempt, p) <= MAX / 2
  {
    var base := if p.baseDelay <= 0 then DEFAULT_BASE else p.baseDelay;
    var shift: nat := if attempt - 1 > 10 then 10 else attempt - 1;
    PowerSmall(shift);
    ProductBound(base, Power(shift), 1024);
  }

  /** A later attempt never waits less, jitter aside, and doubling stops at the maximum. */
  lemma BackoffGrows(attempt: nat, later: nat, p: Policy)
    requires 1 <= attempt <= later && Sane(p)
    ensures Backoff(attempt, p) <= Backoff(later, p)
  {
    var base := if p.baseDelay <= 0 then DEFAULT_BASE else p.baseDelay;
    var a: nat := if attempt - 1 > 10 then 10 else attempt - 1;
    var b: nat := if later - 1 > 10 then 10 else later - 1;
    PowerSmall(b);
    PowerGrows(a, b);
    ProductBound(base, Power(a), Power(b));
    ProductBound(base, Power(b), 1024);
  }

  /** The first backoff is the base, each of the next ten doubles the one before, and none exceeds the maximum;
      a base that is not given is a second, and a maximum half a minute. */
  lemma BackoffDoubles(attempt: nat, p: Policy)
    requires attempt >= 1 && Sane(p)
    ensures var most := if p.maxDelay <= 0 then 30_000_000_000 else p.maxDelay;
      && Backoff(1, p) == AtMost(if p.baseDelay <= 0 then 1_000_000_000 else p.baseDelay, most)
      && Backoff(attempt + 1, p) ==
           if attempt <= 10 then AtMost(2 * Backoff(attempt, p), most) else Backoff(attempt, p)
  {
    var base := if p.baseDelay <= 0 then DEFAULT_BASE else p.baseDelay;
    var shift: nat := if attempt - 1 > 10 then 10 else attempt - 1;
    var next: nat := if attempt > 10 then 10 else attempt;
    PowerSmall(next);
    PowerGrows(shift, next);
    ProductBound(base, Power(shift), Power(next));
    ProductBound(base, Power(next), 1024);
    assert Power(0) == 1 && base * Power(0) == base;
    if attempt <= 10 {
      assert Power(next) == 2 * Power(shift);
      DoubleProduct(base, Power(shift));
    }
  }

  function AtMost(a: int, b: int): int {
    if a < b then a else b
  }

  lemma DoubleProduct(a: int, b: int)
    ensures a * (2 * b) == 2 * (a * b)
  {
  }

  /** Whether Retry-After gives seconds that do not fit in an int64 of nanoseconds. */
  predicate Overflows(headers: Option<Headers>) {
    headers.Some? && headers.value.retryAfter != "" && Atoi(headers.value.retryAfter).Some?
    && Atoi(headers.value.retryAfter).value > MAX / SECOND
  }

  /** The wait the headers ask for, in unbounded arithmetic. */
  function Asked(headers: Option<Headers>, now: int): (r: Wait)
    ensures r.Wait? ==> r.delay >= 0
  {
    if headers.None? then NoWait
    else
      var h := headers.value;
      if h.retryAfter != "" && Atoi(h.retryAfter).Some? && Atoi(h.retryAfter).value >= 0 then
        Wait(Atoi(h.retryAfter).value * SECOND)
      else if h.retryAfter != "" && h.retryAt.Some? then Wait(Positive(h.retryAt.value - now))
      else if h.reset != "" && Atoi(h.reset).Some? then Wait(Positive(Atoi(h.reset).value * SECOND - now))
      else NoWait
  }

  /** The wait the headers ask for is kept exactly when it fits in an int64. A date too far away is cut to
      the longest wait; only seconds too many become another wait, possibly a negative one. */
  lemma AskedWaitKeptIff(headers: Option<Headers>, now: int)
    ensures var parsed, asked := ParseRetryAfter(headers, now), Asked(headers, now);
      && parsed.Wait? == asked.Wait?
      && (parsed == asked <==> (asked.Wait? ==> asked.delay <= MAX))
      && (parsed.Wait? && !Overflows(headers) ==> 0 <= parsed.delay <= asked.delay)
      && (Overflows(headers) ==> asked.Wait? && asked.delay > MAX)
  {
    hide Atoi;
  }

  /** Every accepted delay is within the longest wait of the policy. None is negative unless the header
      overflows or the policy is not sane; a sane policy does not panic. */
  lemma DelayBounded(attempt: nat, p: Policy, headers: Option<Headers>, now: int, random: nat)
    requires attempt >= 1
    ensures var d := CalculateDelay(attempt, p, headers, now, random);
      && (d.Delay? && p.maxWait > 0 ==> d.delay <= p.maxWait)
      && (d.TooLong? ==> d.wait > p.maxWait > 0)
      && (d.Panic? ==> !Sane(p))
      && (d.Delay? && Sane(p) && !Overflows(headers) ==> d.delay >= 0)
      && (d.Delay? && Sane(p) && ParseRetryAfter(headers, now).NoWait? ==>
            d.delay == Backoff(attempt, p) + random % (Backoff(attempt, p) / 4 + 1))
  {
    hide Wrap, Atoi, Backoff;
    if Sane(p) {
      BackoffPositive(attempt, p);
    }
    AskedWaitKeptIff(headers, now);
  }

  /** A Retry-After of 9223372037 seconds, one more than fits, becomes a negative wait; a single operation
      that is alone at the budget then sleeps more than the total. */
  lemma OverflowRefundsBudget(total: Int64, op: nat, headers: Option<Headers>, now: int)
    requires 2 <= total <= MAX / 2
    requires headers.Some? && headers.value.retryAfter != "" && Atoi(headers.value.retryAfter) == Some(MAX / SECOND + 1)
    ensures var wait := ParseRetryAfter(headers, now);
      && wait.Wait? && -MAX - 1 <= wait.delay < 0
      && var actions := Spent(op, total - 1) + Spent(op, wait.delay) + Spent(op, total);
         Slept(Run(total, RetryBudget.START, actions).ledger.log) > total
  {
    hide Atoi, Slept, Run;
    assert MAX / SECOND + 1 == 9_223_372_037;
    assert Wrap(9_223_372_037 * SECOND) == -9_223_372_036_709_551_616;
    RefundAlone(total, op, Wrap(9_223_372_037 * SECOND));
  }

  // ----- Do -----

  datatype Outcome = Success(value: nat) | Failed(failure: Failure)

  datatype Result =
    | Done(value: nat)
    | Rejected(failure: Failure)
    | Uncertain(failure: Failure)
    | GaveUp(failure: Failure)
    | WaitTooLong(wait: int)
    | OutOfBudget
    | Cancelled
    | Panicked

  function Attempts(p: Policy): nat {
    if p.maxAttempts <= 0 then DEFAULT_ATTEMPTS else p.maxAttempts
  }

  predicate Repeats(o: Outcome, kind: Kind) {
    o.Failed? && ClassifyError(o.failure, kind) == Transient
  }

  /** What the last of `count` calls says about the result. */
  predicate Explains(r: Result, p: Policy, kind: Kind, last: Outcome, count: nat) {
    match r
    case Done(v) => last == Success(v)
    case Rejected(f) => last == Failed(f) && ClassifyError(f, kind) == Permanent
    case Uncertain(f) => last == Failed(f) && ClassifyError(f, kind) == UncertainWrite
    case GaveUp(f) => last == Failed(f) && Repeats(last, kind) && count == Attempts(p)
    case WaitTooLong(wait) => Repeats(last, kind) && count < Attempts(p) && wait > p.maxWait > 0
    case OutOfBudget => Repeats(last, kind) && count < Attempts(p)
    case Cancelled => Repeats(last, kind) && count < Attempts(p)
    case Panicked => Repeats(last, kind) && count < Attempts(p) && !Sane(p)
  }

  predicate AllRepeat(calls: seq<Outcome>, kind: Kind) {
    forall i :: 0 <= i < |calls| ==> Repeats(calls[i], kind)
  }

  /** A wait after one call is within the policy, and negative only by overflow of its header or policy. */
  predicate Fits(call: Outcome, wait: int, p: Policy) {
    && call.Failed?
    && (p.maxWait > 0 ==> wait <= p.maxWait)
    && (Overflows(Details(call.failure).headers) || !Sane(p) || 0 <= wait)
  }

  predicate WaitsFit(calls: seq<Outcome>, sleeps: seq<int>, p: Policy) {
    |sleeps| <= |calls| && forall i :: 0 <= i < |sleeps| ==> Fits(calls[i], sleeps[i], p)
  }

  function Total(waits: seq<int>): nat {
    if waits == [] then 0 else Total(waits[..|waits| - 1]) + Positive(waits[|waits| - 1])
  }

  lemma {:induction false} TotalBounded(waits: seq<int>, most: nat)
    requires forall i :: 0 <= i < |waits| ==> waits[i] <= most
    ensures Total(waits) <= |waits| * most
  {
    if waits != [] {
      TotalBounded(waits[..|waits| - 1], most);
      assert |waits| * most == (|waits| - 1) * most + most;
    }
  }

  lemma {:induction false} OwnWithinAll(log: seq<Grant>, op: nat)
    ensures Total(Own(log, op)) <= Slept(log)
  {
    if log != [] {
      var before := Own(log[..|log| - 1], op);
      OwnWithinAll(log[..|log| - 1], op);
      assert (before + [log[|log| - 1].amount])[..|before|] == before;
    }
  }

  /** Every call so far failed with a failure that is repeated, and was followed by a fitting wait. */
  predicate Waited(calls: seq<Outcome>, sleeps: seq<int>, p: Policy, kind: Kind) {
    |calls| == |sleeps| && AllRepeat(calls, kind) && WaitsFit(calls, sleeps, p)
  }

  /** What `Do` promises of its result, the calls it made and the waits it began. */
  predicate Reported(r: Result, calls: seq<Outcome>, sleeps: seq<int>, p: Policy, kind: Kind) {
    && |calls| <= Attempts(p) && |sleeps| < Attempts(p) && |calls| <= |sleeps| + 1
    && WaitsFit(calls, sleeps, p)
    && if calls == [] then r.Cancelled?
       else AllRepeat(calls[..|calls| - 1], kind) && Explains(r, p, kind, calls[|calls| - 1], |calls|)
  }

  lemma WaitedSnoc(calls: seq<Outcome>, sleeps: seq<int>, call: Outcome, wait: int, p: Policy, kind: Kind)
    requires Waited(calls, sleeps, p, kind) && Repeats(call, kind) && Fits(call, wait, p)
    ensures Waited(calls + [call], sleeps + [wait], p, kind)
  {
    hide Repeats, Fits;
  }

  /** The result of a call that is not repeated, or was the last one allowed. */
  function Ending(call: Outcome, kind: Kind): Result {
    match call
    case Success(value) => Done(value)
    case Failed(f) =>
      match ClassifyError(f, kind)
      case Permanent => Rejected(f)
      case UncertainWrite => Uncertain(f)
      case Transient => GaveUp(f)
  }

  lemma EndsAfterCall(r: Result, calls: seq<Outcome>, sleeps: seq<int>, call: Outcome, p: Policy, kind: Kind)
    requires Waited(calls, sleeps, p, kind) && |calls| < Attempts(p) && Explains(r, p, kind, call, |calls| + 1)
    ensures Reported(r, calls + [call], sleeps, p, kind)
  {
    hide Repeats, Fits, Explains, Attempts;
    assert (calls + [call])[..|calls + [call]| - 1] == calls;
  }

  lemma EndsByCall(calls: seq<Outcome>, sleeps: seq<int>, call: Outcome, p: Policy, kind: Kind)
    requires Waited(calls, sleeps, p, kind) && |calls| < Attempts(p)
    requires !Repeats(call, kind) || |calls| + 1 == Attempts(p)
    ensures Reported(Ending(call, kind), calls + [call], sleeps, p, kind)
  {
    hide Waited, Reported, Attempts, ClassifyError;
    EndsAfterCall(Ending(call, kind), calls, sleeps, call, p, kind);
  }

  lemma EndsByWait(r: Result, calls: seq<Outcome>, sleeps: seq<int>, call: Outcome, p: Policy, kind: Kind)
    requires Waited(calls, sleeps, p, kind) && |calls| + 1 < Attempts(p) && Repeats(call, kind)
    requires r.OutOfBudget? || (r.WaitTooLong? && r.wait > p.maxWait > 0) || (r.Panicked? && !Sane(p))
    ensures Reported(r, calls + [call], sleeps, p, kind)
  {
    hide Waited, Reported, Attempts, ClassifyError;
    EndsAfterCall(r, calls, sleeps, call, p, kind);
  }

  lemma EndsBetween(calls: seq<Outcome>, sleeps: seq<int>, p: Policy, kind: Kind)
    requires Waited(calls, sleeps, p, kind) && |calls| < Attempts(p)
    ensures Reported(Cancelled, calls, sleeps, p, kind)
  {
    hide Fits, ClassifyError;
  }

  /** What the budget has on its books for an operation: the waits granted and asked for, after earlier ones. */
  ghost predicate Accounted(budget: Budget?, op: nat, before: seq<int>, sleeps: seq<int>, earlier: seq<int>,
      asks: seq<int>)
    reads if budget == null then {} else {budget}
  {
    budget != null ==>
      && budget.Valid() && op !in budget.open
      && Own(budget.log, op) == before + sleeps && Own(budget.asked, op) == earlier + asks
  }

  ghost function GrantedTo(budget: Budget?, op: nat): seq<int>
    reads if budget == null then {} else {budget}
  {
    if budget == null then [] else Own(budget.log, op)
  }

  ghost function AskedBy(budget: Budget?, op: nat): seq<int>
    reads if budget == null then {} else {budget}
  {
    if budget == null then [] else Own(budget.asked, op)
  }

  /** Runs the operation with bounded retry. `calls` are the results of the function, `sleeps` the waits
      that were begun, `asks` those asked of the budget; the waits begun are exactly the grants. */
  method Do(p: Policy, kind: Kind, op: nat, shared: Budget?)
    returns (r: Result, calls: seq<Outcome>, sleeps: seq<int>, ghost asks: seq<int>, budget: Budget?)
    requires shared != null ==> shared.Valid() && op !in shared.open
    modifies if shared == null then {} else {shared}
    ensures if shared != null then budget == shared
      else budget == null || (fresh(budget) && budget.total == p.jobBudget)
    ensures budget == null ==> p.jobBudget <= 0
    ensures Reported(r, calls, sleeps, p, kind) && sleeps <= asks && WaitsFit(calls, asks, p)
    ensures |calls| <= if p.maxAttempts <= 0 then 5 else p.maxAttempts
    ensures r.GaveUp? ==> |calls| == if p.maxAttempts <= 0 then 5 else p.maxAttempts
    ensures Accounted(budget, op, old(GrantedTo(shared, op)), sleeps, old(AskedBy(shared, op)), asks)
  {
    calls, sleeps, asks := [], [], [];
    budget := OpenBudget(p, op, shared);
    ghost var before, earlier := GrantedTo(shared, op), AskedBy(shared, op);
    assert Waited([], [], p, kind);
    ReportedAttempts(p, kind);
    hide ClassifyError, Fits, Sane, Waited, Reported, Attempts, Ending, WaitsFit, Accounted, GrantedTo, AskedBy;
    var attempt := 1;
    while attempt <= Attempts(p)
      invariant 1 <= attempt <= Attempts(p) && |calls| == |sleeps| == attempt - 1
      invariant Waited(calls, sleeps, p, kind) && Accounted(budget, op, before, sleeps, earlier, sleeps)
      decreases Attempts(p) - attempt
    {
      var cancelled: bool := *;
      if cancelled {
        EndsBetween(calls, sleeps, p, kind);
        return Cancelled, calls, sleeps, sleeps, budget;
      }
      var succeeds: bool, value: nat, failure: Failure := *, *, *;
      var call := if succeeds then Success(value) else Failed(failure);
      if !Repeats(call, kind) || attempt == Attempts(p) {
        EndsByCall(calls, sleeps, call, p, kind);
        return Ending(call, kind), calls + [call], sleeps, sleeps, budget;
      }
      var delay, granted := Pause(p, attempt, failure, op, budget, before, sleeps, earlier);
      if !granted {
        r := if delay.TooLong? then WaitTooLong(delay.wait) else if delay.Panic? then Panicked else OutOfBudget;
        EndsByWait(r, calls, sleeps, call, p, kind);
        asks := sleeps;
        if delay.Delay? {
          asks := sleeps + [delay.delay];
          AsksFit(calls, sleeps, call, delay.delay, p, kind);
        }
        return r, calls + [call], sleeps, asks, budget;
      }
      WaitedSnoc(calls, sleeps, call, delay.delay, p, kind);
      calls, sleeps := calls + [call], sleeps + [delay.delay];
      var interrupted: bool := *;
      if interrupted {
        EndsBetween(calls, sleeps, p, kind);
        return Cancelled, calls, sleeps, sleeps, budget;
      }
      attempt := attempt + 1;
    }
    assert false;
  }

  lemma ReportedAttempts(p: Policy, kind: Kind)
    ensures forall r, calls, sleeps :: Reported(r, calls, sleeps, p, kind) ==>
      var most := if p.maxAttempts <= 0 then 5 else p.maxAttempts;
      |calls| <= most && (r.GaveUp? ==> |calls| == most)
  {
    hide ClassifyError, WaitsFit;
  }

  /** The budget of the context, or one of its own for this operation. */
  method OpenBudget(p: Policy, op: nat, shared: Budget?) returns (budget: Budget?)
    requires shared != null ==> shared.Valid() && op !in shared.open
    ensures if shared != null then budget == shared
      else budget == null || (fresh(budget) && budget.total == p.jobBudget)
    ensures budget == null ==> p.jobBudget <= 0
    ensures Accounted(budget, op, GrantedTo(shared, op), [], AskedBy(shared, op), [])
  {
    hide Inv;
    assert Own([], op) == [];
    budget := shared;
    if budget == null && p.jobBudget > 0 {
      budget := new Budget(p.jobBudget);
    }
    assert GrantedTo(budget, op) == GrantedTo(shared, op) && AskedBy(budget, op) == AskedBy(shared, op);
  }

  lemma AsksFit(calls: seq<Outcome>, sleeps: seq<int>, call: Outcome, wait: int, p: Policy, kind: Kind)
    requires Waited(calls, sleeps, p, kind) && Fits(call, wait, p)
    ensures WaitsFit(calls + [call], sleeps + [wait], p)
  {
    hide Fits;
  }

  /** The delay after a failed attempt, deducted from the budget if it is not too long. */
  method Pause(p: Policy, attempt: nat, failure: Failure, op: nat, budget: Budget?,
               ghost before: seq<int>, ghost sleeps: seq<int>, ghost earlier: seq<int>)
    returns (delay: Delay, granted: bool)
    requires attempt >= 1 && Accounted(budget, op, before, sleeps, earlier, sleeps)
    modifies if budget == null then {} else {budget}
    ensures delay.TooLong? ==> !granted && delay.wait > p.maxWait > 0
    ensures delay.Panic? ==> !granted && !Sane(p)
    ensures delay.Delay? ==> Fits(Failed(failure), delay.delay, p) && (budget == null ==> granted)
    ensures Accounted(budget, op, before, if granted then sleeps + [delay.delay] else sleeps,
                      earlier, if delay.Delay? then sleeps + [delay.delay] else sleeps)
  {
    hide Inv, Own, Details, CalculateDelay, Overflows, Sane;
    var now: int, random: nat := *, *;
    var headers := Details(failure).headers;
    delay := CalculateDelay(attempt, p, headers, now, random);
    DelayBounded(attempt, p, headers, now, random);
    granted := delay.Delay?;
    if delay.Delay? && budget != null {
      assert before + (sleeps + [delay.delay]) == before + sleeps + [delay.delay];
      assert earlier + (sleeps + [delay.delay]) == earlier + sleeps + [delay.delay];
      granted := budget.Spend(op, delay.delay);
    }
  }

  lemma FittingWaits(calls: seq<Outcome>, sleeps: seq<int>, p: Policy)
    requires WaitsFit(calls, sleeps, p) && p.maxWait > 0
    ensures forall i :: 0 <= i < |sleeps| ==> sleeps[i] <= p.maxWait
  {
    hide Details, Overflows;
    forall i | 0 <= i < |sleeps|
      ensures sleeps[i] <= p.maxWait
    {
      assert Fits(calls[i], sleeps[i], p);
    }
  }

  /** What `Do` promises of its waits bounds the time it sleeps by its own policy, ... */
  lemma SleepsWithinPolicy(p: Policy, calls: seq<Outcome>, sleeps: seq<int>)
    requires WaitsFit(calls, sleeps, p) && |sleeps| < Attempts(p) && p.maxWait > 0
    ensures Total(sleeps) <= (Attempts(p) - 1) * p.maxWait
  {
    hide Details, Overflows, Attempts, WaitsFit, Fits;
    FittingWaits(calls, sleeps, p);
    TotalBounded(sleeps, p.maxWait);
    MultiplyMonotone(|sleeps|, Attempts(p) - 1, p.maxWait);
  }

  /** ... and with everything else its operation and the others slept, by the shared budget, as long as no
      wait asked for is negative. */
  lemma SleepsWithinShared(total: Int64, s: Desk, op: nat, before: seq<int>, sleeps: seq<int>)
    requires Inv(total, s) && Own(s.ledger.log, op) == before + sleeps && total <= MAX / 2 && NonNegative(s.asked)
    ensures Total(before) + Total(sleeps) <= Slept(s.ledger.log) <= Positive(total)
  {
    OwnWithinAll(s.ledger.log, op);
    TotalConcat(before, sleeps);
  }

  /** And a wait an operation asks for is negative only if its Retry-After overflows. */
  lemma AsksNonNegative(p: Policy, calls: seq<Outcome>, asks: seq<int>, i: nat)
    requires WaitsFit(calls, asks, p) && Sane(p) && i < |asks| && asks[i] < 0
    ensures calls[i].Failed? && Overflows(Details(calls[i].failure).headers)
  {
    hide Details, Overflows, Sane;
    assert Fits(calls[i], asks[i], p);
  }

  lemma MultiplyMonotone(a: nat, b: nat, m: nat)
    requires a <= b
    ensures a * m <= b * m
  {
  }

  lemma {:induction false} TotalConcat(before: seq<int>, waits: seq<int>)
    ensures Total(before + waits) == Total(before) + Total(waits)
  {
    if waits == [] {
      assert before + waits == before;
    } else {
      TotalConcat(before, waits[..|waits| - 1]);
      assert (before + waits)[..|before + waits| - 1] == before + waits[..|waits| - 1];
    }
  }
}
