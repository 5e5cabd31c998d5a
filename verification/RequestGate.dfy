/** pkg/llm/client.go, DefaultRequestGate: concurrency permits and spaced starts. Every channel operation
    and clock reading is one step of the state machine; `Gate.Acquire` is the code, with the steps of all
    other calls and the passage of time in between. */
module RequestGate {

  datatype Config = Config(concurrency: nat, minInterval: nat)

  const MILLISECOND := 1_000_000
  const MINUTE := 60_000 * MILLISECOND

  /** The bounds NewRequestGate checks, in nanoseconds for the interval. */
  predicate Accepted(concurrency: int, minInterval: int, maxResponseBytes: int) {
    && 1 <= concurrency <= 16
    && MILLISECOND <= minInterval <= MINUTE
    && 65536 <= maxResponseBytes <= 16777216
  }

  /** Where a call of Acquire stands. `Ready` has waited long enough and still holds the start token;
      `Leaving` was cancelled, has returned the token and still holds its permit. */
  datatype Phase = HasPermit | HasToken | Waiting(until: int) | Ready | Leaving | Running | Finished

  datatype State = State(
    free: nat,
    token: bool,
    nextStart: int,
    now: int,
    calls: map<nat, Phase>,
    starts: seq<int>)

  datatype Action =
    | TakePermit(p: nat)
    | TakeToken(p: nat)
    | ReturnToken(p: nat)
    | GiveUp(p: nat)
    | ReadClock(p: nat)
    | Wake(p: nat)
    | Start(p: nat)
    | Release(p: nat)
    | Tick(elapsed: nat)

  function Init(c: Config, now: int): State {
    State(c.concurrency, true, now + c.minInterval, now, map[], [])
  }

  predicate At(s: State, p: nat, phase: Phase) {
    p in s.calls && s.calls[p] == phase
  }

  /** One step; a step that is not enabled changes nothing. */
  function Next(c: Config, s: State, a: Action): State {
    match a
    case TakePermit(p) =>
      if p !in s.calls && s.free > 0 then s.(free := s.free - 1, calls := s.calls[p := HasPermit]) else s
    case TakeToken(p) =>
      if At(s, p, HasPermit) && s.token then s.(token := false, calls := s.calls[p := HasToken]) else s
    case ReturnToken(p) =>
      if p in s.calls && s.calls[p].Waiting? then s.(token := true, calls := s.calls[p := Leaving]) else s
    case GiveUp(p) =>
      if At(s, p, HasPermit) || At(s, p, Leaving) then s.(free := s.free + 1, calls := s.calls[p := Finished]) else s
    case ReadClock(p) =>
      if !At(s, p, HasToken) then s
      else if s.now < s.nextStart then s.(calls := s.calls[p := Waiting(s.now + (s.nextStart - s.now))])
      else s.(calls := s.calls[p := Ready])
    case Wake(p) =>
      if p in s.calls && s.calls[p].Waiting? && s.now >= s.calls[p].until then s.(calls := s.calls[p := Ready]) else s
    case Start(p) =>
      if At(s, p, Ready) then
        s.(nextStart := s.now + c.minInterval, token := true, starts := s.starts + [s.now],
           calls := s.calls[p := Running])
      else s
    case Release(p) =>
      if At(s, p, Running) then s.(free := s.free + 1, calls := s.calls[p := Finished]) else s
    case Tick(elapsed) => s.(now := s.now + elapsed)
  }

  function Run(c: Config, s: State, actions: seq<Action>): State {
    if actions == [] then s
    else Next(c, Run(c, s, actions[..|actions| - 1]), actions[|actions| - 1])
  }

  function Held(calls: map<nat, Phase>): set<nat> {
    set p | p in calls && calls[p] != Finished
  }

  predicate HoldsToken(phase: Phase) {
    phase.HasToken? || phase.Waiting? || phase.Ready?
  }

  function TokenHolders(calls: map<nat, Phase>): set<nat> {
    set p | p in calls && HoldsToken(calls[p])
  }

  /** Consecutive starts are at least the interval apart. */
  ghost predicate Spaced(c: Config, starts: seq<int>) {
    forall i :: 0 < i < |starts| ==> starts[i] - starts[i - 1] >= c.minInterval
  }

  /** The calls that wait are waiting for the next start time, and starts are spaced. */
  ghost predicate Punctual(c: Config, s: State) {
    && (forall p :: p in s.calls && s.calls[p].Waiting? ==> s.calls[p].until == s.nextStart)
    && (forall p :: p in s.calls && s.calls[p].Ready? ==> s.now >= s.nextStart)
    && Spaced(c, s.starts)
    && (s.starts != [] ==>
          s.nextStart == s.starts[|s.starts| - 1] + c.minInterval && s.starts[|s.starts| - 1] <= s.now)
  }

  ghost predicate Inv(c: Config, s: State) {
    && s.free + |Held(s.calls)| == c.concurrency
    && One(s.token) + |TokenHolders(s.calls)| == 1
    && Punctual(c, s)
  }

  function One(b: bool): nat {
    if b then 1 else 0
  }

  lemma CountOf(a: set<nat>, b: set<nat>, p: nat, stays: bool)
    requires b == if stays then a + {p} else a - {p}
    ensures |b| == |a| - One(p in a) + One(stays)
  {
    if p in a {
      assert a == (a - {p}) + {p};
      if stays {
        assert b == a;
      }
    } else if !stays {
      assert b == a;
    }
  }

  lemma HeldAfter(calls: map<nat, Phase>, p: nat, phase: Phase)
    ensures Held(calls[p := phase]) == if phase != Finished then Held(calls) + {p} else Held(calls) - {p}
  {
    var after := calls[p := phase];
    forall q
      ensures q in Held(after) <==> if q == p then phase != Finished else q in Held(calls)
    {
      assert q != p ==> (q in after <==> q in calls);
    }
  }

  lemma TokenHoldersAfter(calls: map<nat, Phase>, p: nat, phase: Phase)
    ensures TokenHolders(calls[p := phase]) == if HoldsToken(phase) then TokenHolders(calls) + {p}
      else TokenHolders(calls) - {p}
  {
    hide HoldsToken;
    var after := calls[p := phase];
    forall q
      ensures q in TokenHolders(after) <==> if q == p then HoldsToken(phase) else q in TokenHolders(calls)
    {
      assert q != p ==> (q in after <==> q in calls);
    }
  }

  /** Moving one call to another phase. */
  lemma CountsAfter(calls: map<nat, Phase>, p: nat, phase: Phase)
    ensures |Held(calls[p := phase])|
         == |Held(calls)| - One(p in calls && calls[p] != Finished) + One(phase != Finished)
    ensures |TokenHolders(calls[p := phase])|
         == |TokenHolders(calls)| - One(p in calls && HoldsToken(calls[p])) + One(HoldsToken(phase))
  {
    assert p in Held(calls) <==> p in calls && calls[p] != Finished;
    assert p in TokenHolders(calls) <==> p in calls && HoldsToken(calls[p]);
    hide Held, TokenHolders, HoldsToken;
    HeldAfter(calls, p, phase);
    TokenHoldersAfter(calls, p, phase);
    CountOf(Held(calls), Held(calls[p := phase]), p, phase != Finished);
    CountOf(TokenHolders(calls), TokenHolders(calls[p := phase]), p, HoldsToken(phase));
  }

  lemma Smaller(a: set<nat>, b: set<nat>)
    requires a <= b
    ensures |a| <= |b|
  {
    assert b == a + (b - a);
  }

  /** The only holder of the token. */
  lemma OneHolder(calls: map<nat, Phase>, p: nat, q: nat)
    requires |TokenHolders(calls)| <= 1
    requires p in calls && HoldsToken(calls[p]) && q in calls && HoldsToken(calls[q])
    ensures p == q
  {
    Smaller({p, q}, TokenHolders(calls));
  }

  /** Permits and the token are conserved by every step. */
  lemma NextConserves(c: Config, s: State, a: Action)
    requires s.free + |Held(s.calls)| == c.concurrency && One(s.token) + |TokenHolders(s.calls)| == 1
    ensures var s' := Next(c, s, a);
      s'.free + |Held(s'.calls)| == c.concurrency && One(s'.token) + |TokenHolders(s'.calls)| == 1
  {
    hide Held, TokenHolders;
    if !a.Tick? {
      var s' := Next(c, s, a);
      if s'.calls != s.calls {
        assert s'.calls == s.calls[a.p := s'.calls[a.p]];
        CountsAfter(s.calls, a.p, s'.calls[a.p]);
      }
    }
  }

  /** A start is never early: only the holder of the token moves the next start time. */
  lemma NextSpaces(c: Config, s: State, a: Action)
    requires Inv(c, s)
    ensures Punctual(c, Next(c, s, a))
  {
    hide Held, TokenHolders;
    if a.Start? && At(s, a.p, Ready) {
      forall q | q in s.calls && HoldsToken(s.calls[q])
        ensures q == a.p
      {
        OneHolder(s.calls, a.p, q);
      }
    }
  }

  lemma NextKeepsInv(c: Config, s: State, a: Action)
    requires Inv(c, s)
    ensures Inv(c, Next(c, s, a))
  {
    hide Next, Held, TokenHolders, Punctual;
    NextConserves(c, s, a);
    NextSpaces(c, s, a);
  }

  lemma {:induction false} RunKeepsInv(c: Config, s: State, actions: seq<Action>)
    requires Inv(c, s)
    ensures Inv(c, Run(c, s, actions))
  {
    if actions != [] {
      RunKeepsInv(c, s, actions[..|actions| - 1]);
      NextKeepsInv(c, Run(c, s, actions[..|actions| - 1]), actions[|actions| - 1]);
    }
  }

  lemma InitInv(c: Config, now: int)
    ensures Inv(c, Init(c, now))
  {
    assert Held(map[]) == {} && TokenHolders(map[]) == {};
  }

  /** For any interleaving of acquires, cancellations and releases: permits and the start token are
      conserved, and granted starts are at least the interval apart. */
  lemma GateSafe(c: Config, now: int, actions: seq<Action>)
    ensures var s := Run(c, Init(c, now), actions);
      && s.free + |Held(s.calls)| == c.concurrency
      && One(s.token) + |TokenHolders(s.calls)| == 1
      && Spaced(c, s.starts)
  {
    InitInv(c, now);
    RunKeepsInv(c, Init(c, now), actions);
  }

  lemma {:induction false} SpacedFar(c: Config, starts: seq<int>, i: nat, j: nat)
    requires Spaced(c, starts) && i <= j < |starts|
    ensures starts[j] - starts[i] >= (j - i) * c.minInterval
    decreases j - i
  {
    if i < j {
      SpacedFar(c, starts, i, j - 1);
      assert (j - i) * c.minInterval == (j - 1 - i) * c.minInterval + c.minInterval;
    }
  }

  /** A span of length `length` holds at most length / minInterval + 1 starts. */
  lemma StartsInSpan(c: Config, now: int, actions: seq<Action>, from: int, length: nat, i: nat, j: nat)
    requires c.minInterval > 0
    requires var starts := Run(c, Init(c, now), actions).starts;
      i <= j < |starts| && from <= starts[i] && starts[j] <= from + length
    ensures j - i + 1 <= length / c.minInterval + 1
  {
    hide Run, Init;
    GateSafe(c, now, actions);
    SpacedFar(c, Run(c, Init(c, now), actions).starts, i, j);
    DivideSpan(j - i, c.minInterval, length);
  }

  lemma DivideSpan(n: nat, m: nat, length: nat)
    requires m > 0 && n * m <= length
    ensures n <= length / m
  {
    var q := length / m;
    assert length == q * m + length % m;
    assert (q + 1) * m == q * m + m;
    CancelFactor(n, q + 1, m);
  }

  lemma CancelFactor(a: nat, b: nat, m: nat)
    requires m > 0 && a * m < b * m
    ensures a < b
  {
  }

  /** A call that holds the token is ready at once if the next start is due, and otherwise as soon as the time
      has passed, and not before. */
  lemma ReadyWhenDue(c: Config, s: State, p: nat, elapsed: nat)
    requires At(s, p, HasToken)
    ensures At(Next(c, s, ReadClock(p)), p, Ready) <==> s.now >= s.nextStart
    ensures At(Next(c, Next(c, Next(c, s, ReadClock(p)), Tick(elapsed)), Wake(p)), p, Ready) <==>
      s.now + elapsed >= s.nextStart || s.now >= s.nextStart
  {
  }

  // ----- Acquire -----

  predicate Foreign(actions: seq<Action>, p: nat) {
    forall i :: 0 <= i < |actions| ==> actions[i].Tick? || actions[i].p != p
  }

  lemma {:induction false} OthersLeave(c: Config, s: State, actions: seq<Action>, p: nat)
    requires Foreign(actions, p)
    ensures var s' := Run(c, s, actions);
      && (p in s'.calls <==> p in s.calls) && (p in s.calls ==> s'.calls[p] == s.calls[p])
      && s'.now >= s.now && |s'.starts| >= |s.starts|
  {
    if actions != [] {
      OthersLeave(c, s, actions[..|actions| - 1], p);
      assert actions[|actions| - 1].Tick? || actions[|actions| - 1].p != p;
    }
  }

  class Gate {
    const c: Config
    var s: State
    /** The turns of waiting so far. */
    ghost var turns: nat

    ghost predicate Valid()
      reads this
    {
      Inv(c, s)
    }

    constructor (concurrency: nat, minInterval: nat, maxResponseBytes: int, now: int)
      requires Accepted(concurrency, minInterval, maxResponseBytes)
      ensures Valid() && c.concurrency == concurrency && c.minInterval == minInterval
      ensures s.free == concurrency && s.token && s.now == now && s.nextStart == now + minInterval
        && s.calls == map[] && s.starts == []
    {
      c := Config(concurrency, minInterval);
      s := Init(Config(concurrency, minInterval), now);
      turns := 0;
      new;
      InitInv(c, now);
    }

    /** Any steps of other calls, and time passing. */
    method Others(p: nat)
      requires Valid()
      modifies this
      ensures Valid() && (p in s.calls <==> p in old(s).calls) && (p in s.calls ==> s.calls[p] == old(s).calls[p])
      ensures s.now >= old(s).now && turns == old(turns)
    {
      assert Foreign([], p);
      var actions :| Foreign(actions, p);
      RunKeepsInv(c, s, actions);
      OthersLeave(c, s, actions, p);
      s := Run(c, s, actions);
    }

    /** A turn of waiting. */
    method Wait(p: nat)
      requires Valid()
      modifies this
      ensures Valid() && (p in s.calls <==> p in old(s).calls) && (p in s.calls ==> s.calls[p] == old(s).calls[p])
      ensures turns == old(turns) + 1
    {
      Others(p);
      turns := turns + 1;
    }

    method Do(a: Action)
      requires Valid()
      modifies this
      ensures Valid() && s == Next(c, old(s), a) && turns == old(turns)
    {
      NextKeepsInv(c, s, a);
      s := Next(c, s, a);
    }

    /** Waits for the start token, for at most `patience` turns. */
    method AwaitToken(p: nat, patience: nat) returns (got: bool, left: nat)
      requires Valid() && At(s, p, HasPermit)
      modifies this
      ensures Valid() && At(s, p, if got then HasToken else Finished)
      ensures turns + left == old(turns) + patience && (!got ==> left == 0)
    {
      hide Inv;
      left := patience;
      while !s.token
        invariant Valid() && At(s, p, HasPermit) && turns + left == old(turns) + patience
        decreases left
      {
        if left == 0 {
          Do(GiveUp(p));
          return false, left;
        }
        left := left - 1;
        Wait(p);
      }
      Do(TakeToken(p));
      return true, left;
    }

    /** Waits for the next start time; a cancelled wait returns the token, then the permit. */
    method AwaitTime(p: nat, patience: nat) returns (got: bool)
      requires Valid() && At(s, p, HasToken)
      modifies this
      ensures Valid() && At(s, p, if got then Ready else Finished)
      ensures !got ==> turns == old(turns) + patience
    {
      hide Inv;
      var left := patience;
      Do(ReadClock(p));
      if s.calls[p].Waiting? {
        while s.now < s.calls[p].until
          invariant Valid() && p in s.calls && s.calls[p].Waiting? && turns + left == old(turns) + patience
          decreases left
        {
          if left == 0 {
            Do(ReturnToken(p));
            Others(p);
            Do(GiveUp(p));
            return false;
          }
          left := left - 1;
          Wait(p);
        }
        Do(Wake(p));
      }
      return true;
    }

    /** Acquire of call `p`; the context is cancelled after `patience` turns of waiting. A granted call is
        running and its start is recorded; a cancelled one has waited for all of them and holds nothing. */
    method Acquire(p: nat, patience: nat) returns (granted: bool)
      requires Valid() && p !in s.calls
      modifies this
      ensures Valid()
      ensures granted ==> At(s, p, Running)
      ensures !granted ==> (p !in s.calls || s.calls[p] == Finished) && turns == old(turns) + patience
    {
      hide Inv;
      var left := patience;
      while s.free == 0
        invariant Valid() && p !in s.calls && turns + left == old(turns) + patience
        decreases left
      {
        if left == 0 {
          return false;
        }
        left := left - 1;
        Wait(p);
      }
      Do(TakePermit(p));
      Others(p);
      granted, left := AwaitToken(p, left);
      if !granted {
        return false;
      }
      Others(p);
      granted := AwaitTime(p, left);
      if !granted {
        return false;
      }
      Others(p);
      Do(Start(p));
    }
  }

  /** A gate, or null if a setting is out of bounds: 1 to 16 calls at a time, from a millisecond to a minute
      between two starts, and responses from 64 KiB to 16 MiB. */
  method NewRequestGate(concurrency: int, minInterval: int, maxResponseBytes: int, now: int) returns (g: Gate?)
    ensures g != null <==>
      && 1 <= concurrency <= 16
      && 1_000_000 <= minInterval <= 60_000_000_000
      && 65_536 <= maxResponseBytes <= 16_777_216
    ensures g != null ==>
      && fresh(g) && g.Valid() && g.c.concurrency == concurrency && g.c.minInterval == minInterval
      && g.s.free == concurrency && g.s.token && g.s.now == now && g.s.nextStart == now + minInterval
      && g.s.calls == map[] && g.s.starts == []
  {
    if !Accepted(concurrency, minInterval, maxResponseBytes) {
      return null;
    }
    g := new Gate(concurrency, minInterval, maxResponseBytes, now);
  }
}
