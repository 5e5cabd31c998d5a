/** pkg/retry/retry.go, Budget: the retry time that several operations share. An operation looks at the
    budget twice and then deducts (Do), and other operations act in between. Durations are nanoseconds in
    an int64. */
module RetryBudget {

  const MAX := 0x7FFF_FFFF_FFFF_FFFF

  type Int64 = x: int | -MAX - 1 <= x <= MAX

  function Wrap(n: int): (r: Int64)
    ensures -MAX - 1 <= n <= MAX ==> r == n
  {
    (n + MAX + 1) % (2 * MAX + 2) - MAX - 1
  }

  function Positive(n: int): nat {
    if n < 0 then 0 else n
  }

  // ----- The ledger -----

  /** A wait of `amount` for operation `op`. */
  datatype Grant = Grant(op: nat, amount: Int64)

  /** What is spent, and the waits granted; the list of these is a history that the code does not keep. */
  datatype Ledger = Ledger(spent: Int64, log: seq<Grant>)

  function Left(total: Int64, s: Ledger): Int64 {
    if s.spent >= total then 0 else Wrap(total - s.spent)
  }

  predicate Grants(total: Int64, s: Ledger, d: Int64) {
    Wrap(s.spent + d) <= total
  }

  function Deducted(total: Int64, s: Ledger, g: Grant): Ledger {
    if Grants(total, s, g.amount) then Ledger(Wrap(s.spent + g.amount), s.log + [g]) else s.(spent := total)
  }

  /** The time slept for the waits of a log. */
  function Slept(log: seq<Grant>): nat {
    if log == [] then 0 else Slept(log[..|log| - 1]) + Positive(log[|log| - 1].amount)
  }

  lemma SleptSnoc(log: seq<Grant>, g: Grant)
    ensures Slept(log + [g]) == Slept(log) + Positive(g.amount)
  {
    assert (log + [g])[..|log|] == log;
  }

  // ----- Operations at the budget -----

  /** An operation that has passed its first look, or its second. */
  datatype Stage = Asking(amount: Int64) | Cleared(amount: Int64)

  /** The ledger, the operations between their looks, and every wait asked for. */
  datatype Desk = Desk(ledger: Ledger, open: map<nat, Stage>, asked: seq<Grant>)

  const START := Desk(Ledger(0, []), map[], [])

  datatype Action = Ask(op: nat, amount: Int64) | Look(op: nat) | Take(op: nat)

  /** One look or deduction; a step that is not enabled changes nothing. */
  function Next(total: Int64, s: Desk, a: Action): Desk {
    match a
    case Ask(op, d) =>
      if op in s.open then s
      else
        s.(asked := s.asked + [Grant(op, d)],
           open := if Left(total, s.ledger) <= 0 then s.open else s.open[op := Asking(d)])
    case Look(op) =>
      if op !in s.open || s.open[op].Cleared? then s
      else if s.open[op].amount > Left(total, s.ledger) then s.(open := s.open - {op})
      else s.(open := s.open[op := Cleared(s.open[op].amount)])
    case Take(op) =>
      if op !in s.open || s.open[op].Asking? then s
      else s.(ledger := Deducted(total, s.ledger, Grant(op, s.open[op].amount)), open := s.open - {op})
  }

  function Run(total: Int64, s: Desk, actions: seq<Action>): Desk {
    if actions == [] then s
    else Next(total, Run(total, s, actions[..|actions| - 1]), actions[|actions| - 1])
  }

  predicate NonNegative(asked: seq<Grant>) {
    forall i :: 0 <= i < |asked| ==> asked[i].amount >= 0
  }

  /** If no wait asked for is negative, what was slept is within what is spent, and that within the total. */
  ghost predicate Inv(total: Int64, s: Desk) {
    total <= MAX / 2 && NonNegative(s.asked) ==>
      && Slept(s.ledger.log) <= Positive(s.ledger.spent) <= Positive(total)
      && (s.ledger.spent >= 0 || s.ledger.spent == total)
      && (forall op :: op in s.open ==> s.open[op].amount >= 0)
      && (forall op :: op in s.open && s.open[op].Cleared? ==> s.open[op].amount <= Positive(total))
  }

  lemma NonNegativeSnoc(asked: seq<Grant>, g: Grant)
    ensures NonNegative(asked + [g]) <==> NonNegative(asked) && g.amount >= 0
  {
    assert forall i :: 0 <= i < |asked| ==> (asked + [g])[i] == asked[i];
    assert (asked + [g])[|asked|] == g;
  }

  lemma NextKeepsInv(total: Int64, s: Desk, a: Action)
    requires Inv(total, s)
    ensures Inv(total, Next(total, s, a))
  {
    hide Wrap, Slept, NonNegative;
    match a
    case Ask(op, d) => NonNegativeSnoc(s.asked, Grant(op, d));
    case Look(op) =>
    case Take(op) =>
      if op in s.open {
        SleptSnoc(s.ledger.log, Grant(op, s.open[op].amount));
      }
  }

  lemma {:induction false} RunKeepsInv(total: Int64, s: Desk, actions: seq<Action>)
    requires Inv(total, s)
    ensures Inv(total, Run(total, s, actions))
  {
    hide Inv, Next;
    if actions != [] {
      RunKeepsInv(total, s, actions[..|actions| - 1]);
      NextKeepsInv(total, Run(total, s, actions[..|actions| - 1]), actions[|actions| - 1]);
    }
  }

  lemma StartInv(total: Int64)
    ensures Inv(total, START)
  {
  }

  /** Every wait asked for is `d` or not negative. */
  predicate WaitsAre(actions: seq<Action>, d: Int64) {
    forall i :: 0 <= i < |actions| && actions[i].Ask? ==> actions[i].amount == d || actions[i].amount >= 0
  }

  lemma {:induction false} RunAsks(total: Int64, actions: seq<Action>, d: Int64)
    requires WaitsAre(actions, d) && d >= 0
    ensures NonNegative(Run(total, START, actions).asked)
  {
    hide Left, Deducted;
    if actions != [] {
      var front, a := actions[..|actions| - 1], actions[|actions| - 1];
      assert forall i :: 0 <= i < |front| ==> front[i] == actions[i];
      RunAsks(total, front, d);
      if a.Ask? {
        NonNegativeSnoc(Run(total, START, front).asked, Grant(a.op, a.amount));
      }
    }
  }

  /** However the looks and deductions of operations that share a budget interleave: if no wait asked for is
      negative, the time slept never exceeds the total. */
  lemma SleepsWithinBudget(total: Int64, actions: seq<Action>)
    requires total <= MAX / 2 && WaitsAre(actions, 0)
    ensures Slept(Run(total, START, actions).ledger.log) <= Positive(total)
  {
    StartInv(total);
    RunKeepsInv(total, START, actions);
    RunAsks(total, actions, 0);
  }

  /** Some interleaving sleeps more than the total. */
  ghost predicate CanExceed(total: Int64, d: Int64) {
    exists actions :: WaitsAre(actions, d) && Slept(Run(total, START, actions).ledger.log) > total
  }

  /** Exactly a negative wait breaks the budget. */
  lemma ExceededIffNegative(total: Int64, d: Int64)
    requires 0 < total <= MAX / 2
    ensures CanExceed(total, d) <==> d < 0
  {
    if d < 0 {
      var actions := NegativeExceeds(total, d);
    } else {
      forall actions | WaitsAre(actions, d)
        ensures Slept(Run(total, START, actions).ledger.log) <= total
      {
        SleepsWithinBudget(total, actions);
      }
    }
  }

  lemma RunSnoc(total: Int64, s: Desk, actions: seq<Action>, a: Action)
    ensures Run(total, s, actions + [a]) == Next(total, Run(total, s, actions), a)
  {
    assert (actions + [a])[..|actions|] == actions;
  }

  lemma AskOne(total: Int64, s: Desk, op: nat, d: Int64)
    requires op !in s.open && Left(total, s.ledger) > 0
    ensures Next(total, s, Ask(op, d)) == Desk(s.ledger, s.open[op := Asking(d)], s.asked + [Grant(op, d)])
  {
  }

  lemma LookOne(total: Int64, s: Desk, op: nat, d: Int64)
    requires op in s.open && s.open[op] == Asking(d) && d <= Left(total, s.ledger)
    ensures Next(total, s, Look(op)) == s.(open := s.open[op := Cleared(d)])
  {
  }

  lemma TakeOne(total: Int64, s: Desk, op: nat, d: Int64)
    requires op in s.open && s.open[op] == Cleared(d)
    ensures Next(total, s, Take(op)) == s.(ledger := Deducted(total, s.ledger, Grant(op, d)), open := s.open - {op})
  {
  }

  /** Three operations pass both looks while nothing is spent; the negative wait of the second makes room
      for the third. */
  lemma NegativeExceeds(total: Int64, d: Int64) returns (actions: seq<Action>)
    requires 0 < total <= MAX / 2 && d < 0
    ensures WaitsAre(actions, d) && Slept(Run(total, START, actions).ledger.log) > total
  {
    var n: int := d;
    var third: Int64 := if n <= 0 - total then total else 0 - n;
    var asks := [Ask(0, total), Ask(1, d), Ask(2, third)];
    var looks := [Look(0), Look(1), Look(2)];
    var takes := [Take(0), Take(1), Take(2)];
    actions := asks + looks + takes;
    assert WaitsAre(actions, d);
    hide Wrap, Slept, Next, Run;
    AllCleared(total, d, third);
    var cleared := Run(total, START, asks + looks);
    RunConcat(total, START, asks + looks, takes);
    RunThree(total, cleared, Take(0), Take(1), Take(2));
    ThreeTakes(total, cleared, d, third);
  }

  lemma ThreeTakes(total: Int64, s: Desk, d: Int64, third: Int64)
    requires 0 < total <= MAX / 2 && d < 0 < third && third <= total && d + third <= 0
    requires s.ledger == Ledger(0, []) && s.open == map[0 := Cleared(total), 1 := Cleared(d), 2 := Cleared(third)]
    ensures var s' := Next(total, Next(total, Next(total, s, Take(0)), Take(1)), Take(2));
      Slept(s'.ledger.log) == total + third
  {
    hide Wrap, Slept, Next;
    var a, b, c := Grant(0, total), Grant(1, d), Grant(2, third);
    TakeOne(total, s, 0, total);
    var s1 := Next(total, s, Take(0));
    TakeOne(total, s1, 1, d);
    var s2 := Next(total, s1, Take(1));
    TakeOne(total, s2, 2, third);
    assert s1.ledger == Ledger(total, [] + [a]);
    assert s2.ledger == Ledger(total + d, [] + [a] + [b]);
    SleptSnoc([], a);
    SleptSnoc([] + [a], b);
    SleptSnoc([] + [a] + [b], c);
    NothingSlept();
  }

  lemma AllCleared(total: Int64, d: Int64, third: Int64)
    requires 0 < total && d <= total && third <= total
    ensures var s := Run(total, START, [Ask(0, total), Ask(1, d), Ask(2, third)] + [Look(0), Look(1), Look(2)]);
      s.ledger == Ledger(0, []) && s.open == map[0 := Cleared(total), 1 := Cleared(d), 2 := Cleared(third)]
  {
    hide Wrap, Next, Run;
    var asks, looks := [Ask(0, total), Ask(1, d), Ask(2, third)], [Look(0), Look(1), Look(2)];
    RunConcat(total, START, asks, looks);
    RunThree(total, START, Ask(0, total), Ask(1, d), Ask(2, third));
    AskOne(total, START, 0, total);
    AskOne(total, Next(total, START, Ask(0, total)), 1, d);
    AskOne(total, Next(total, Next(total, START, Ask(0, total)), Ask(1, d)), 2, third);
    var asking := Run(total, START, asks);
    RunThree(total, asking, Look(0), Look(1), Look(2));
    LookOne(total, asking, 0, total);
    var s1 := Next(total, asking, Look(0));
    LookOne(total, s1, 1, d);
    var s2 := Next(total, s1, Look(1));
    LookOne(total, s2, 2, third);
  }

  lemma RunThree(total: Int64, s: Desk, a: Action, b: Action, c: Action)
    ensures Run(total, s, [a, b, c]) == Next(total, Next(total, Next(total, s, a), b), c)
  {
    hide Next;
    assert [] + [a] == [a] && [a] + [b] == [a, b] && [a, b] + [c] == [a, b, c];
    RunSnoc(total, s, [], a);
    RunSnoc(total, s, [a], b);
    RunSnoc(total, s, [a, b], c);
  }

  lemma {:induction false} RunConcat(total: Int64, s: Desk, a: seq<Action>, b: seq<Action>)
    ensures Run(total, s, a + b) == Run(total, Run(total, s, a), b)
  {
    hide Next;
    if b == [] {
      assert a + b == a;
    } else {
      RunConcat(total, s, a, b[..|b| - 1]);
      assert a + b == a + b[..|b| - 1] + [b[|b| - 1]];
      RunSnoc(total, s, a + b[..|b| - 1], b[|b| - 1]);
    }
  }

  /** One wait of a single operation: two looks and the deduction. */
  function Spent(op: nat, d: Int64): seq<Action> {
    [Ask(op, d), Look(op), Take(op)]
  }

  lemma SpentAlone(total: Int64, s: Desk, op: nat, d: Int64)
    requires op !in s.open && 0 < Left(total, s.ledger) && d <= Left(total, s.ledger)
    ensures var s' := Run(total, s, Spent(op, d));
      s'.ledger == Deducted(total, s.ledger, Grant(op, d)) && op !in s'.open
  {
    hide Left, Deducted;
    RunThree(total, s, Ask(op, d), Look(op), Take(op));
  }

  /** A single operation that is alone at the budget exceeds it with one overflowed wait, provided that wait
      leaves what is left in an int64. */
  lemma RefundAlone(total: Int64, op: nat, d: Int64)
    requires 2 <= total <= MAX / 2 && 1 - MAX <= d <= -total
    ensures var actions := Spent(op, total - 1) + Spent(op, d) + Spent(op, total);
      Slept(Run(total, START, actions).ledger.log) == 2 * total - 1 > total
  {
    hide Wrap, Slept, Run, Spent;
    var a, b, c := Grant(op, total - 1), Grant(op, d), Grant(op, total);
    var s1 := Run(total, START, Spent(op, total - 1));
    SpentAlone(total, START, op, total - 1);
    assert s1.ledger == Ledger(total - 1, [] + [a]);
    RunConcat(total, START, Spent(op, total - 1), Spent(op, d));
    SpentAlone(total, s1, op, d);
    var s2 := Run(total, START, Spent(op, total - 1) + Spent(op, d));
    assert s2.ledger == Ledger(total - 1 + d, [] + [a] + [b]);
    RunConcat(total, START, Spent(op, total - 1) + Spent(op, d), Spent(op, total));
    SpentAlone(total, s2, op, total);
    SleptSnoc([], a);
    SleptSnoc([] + [a], b);
    SleptSnoc([] + [a] + [b], c);
    NothingSlept();
  }

  lemma NothingSlept()
    ensures Slept([]) == 0
  {
  }

  // ----- The waits of one operation -----

  /** The waits of one operation, oldest first. */
  function Own(log: seq<Grant>, op: nat): seq<int> {
    if log == [] then []
    else
      var before := Own(log[..|log| - 1], op);
      if log[|log| - 1].op == op then before + [log[|log| - 1].amount] else before
  }

  lemma OwnSnoc(log: seq<Grant>, g: Grant, op: nat)
    ensures Own(log + [g], op) == if g.op == op then Own(log, op) + [g.amount] else Own(log, op)
  {
    assert (log + [g])[..|log|] == log;
  }

  predicate Foreign(actions: seq<Action>, op: nat) {
    forall i :: 0 <= i < |actions| ==> actions[i].op != op
  }

  /** Nothing of operation `op` differs between two desks. */
  predicate SameFor(op: nat, s: Desk, s': Desk) {
    && Own(s'.ledger.log, op) == Own(s.ledger.log, op) && Own(s'.asked, op) == Own(s.asked, op)
    && (op in s'.open <==> op in s.open) && (op in s.open ==> s'.open[op] == s.open[op])
  }

  lemma NextLeavesOthers(total: Int64, s: Desk, a: Action, op: nat)
    requires a.op != op
    ensures SameFor(op, s, Next(total, s, a))
  {
    hide Wrap, Own;
    if a.Ask? {
      OwnSnoc(s.asked, Grant(a.op, a.amount), op);
    }
    if a.Take? && a.op in s.open {
      OwnSnoc(s.ledger.log, Grant(a.op, s.open[a.op].amount), op);
    }
  }

  lemma {:induction false} OthersLeaveOwn(total: Int64, s: Desk, actions: seq<Action>, op: nat)
    requires Foreign(actions, op)
    ensures SameFor(op, s, Run(total, s, actions))
  {
    hide Next, Own;
    if actions != [] {
      OthersLeaveOwn(total, s, actions[..|actions| - 1], op);
      assert actions[|actions| - 1].op != op;
      NextLeavesOthers(total, Run(total, s, actions[..|actions| - 1]), actions[|actions| - 1], op);
    }
  }

  // ----- The code -----

  class Budget {
    const total: Int64
    var spent: Int64
    /** Histories the code does not keep: the waits granted and asked for, and who stands between looks. */
    var log: seq<Grant>
    var open: map<nat, Stage>
    var asked: seq<Grant>

    function Books(): Desk
      reads this
    {
      Desk(Ledger(spent, log), open, asked)
    }

    ghost predicate Valid()
      reads this
    {
      Inv(total, Books())
    }

    constructor (total: Int64)
      ensures Valid() && this.total == total && Books() == START
    {
      this.total := total;
      spent, log, open, asked := 0, [], map[], [];
      new;
      StartInv(total);
    }

    method Remaining() returns (left: Int64)
      ensures left == Left(total, Books().ledger)
    {
      if spent >= total {
        return 0;
      }
      left := Wrap(total - spent);
    }

    /** Deducting keeps the budget sound for an operation that has passed both looks. */
    method Deduct(op: nat, d: Int64) returns (granted: bool)
      modifies this
      ensures granted == Grants(total, old(Books()).ledger, d)
      ensures Books() == old(Books()).(ledger := Deducted(total, old(Books()).ledger, Grant(op, d)),
        open := old(open) - {op})
      ensures old(Valid()) && op in old(open) && old(open)[op] == Cleared(d) ==> Valid()
    {
      ghost var before := Books();
      if Inv(total, before) {
        NextKeepsInv(total, before, Take(op));
      }
      open := open - {op};
      if Wrap(spent + d) > total {
        spent := total;
        return false;
      }
      spent := Wrap(spent + d);
      log := log + [Grant(op, d)];
      granted := true;
    }

    method FirstLook(op: nat, d: Int64) returns (goesOn: bool)
      requires Valid() && op !in open
      modifies this
      ensures Valid() && Books() == Next(total, old(Books()), Ask(op, d)) && goesOn == (op in open)
      ensures goesOn ==> old(spent) < total
    {
      NextKeepsInv(total, Books(), Ask(op, d));
      var left := Remaining();
      asked := asked + [Grant(op, d)];
      goesOn := left > 0;
      if goesOn {
        open := open[op := Asking(d)];
      }
    }

    method SecondLook(op: nat, d: Int64) returns (goesOn: bool)
      requires Valid() && op in open && open[op] == Asking(d)
      modifies this
      ensures Valid() && Books() == Next(total, old(Books()), Look(op)) && goesOn == (op in open)
      ensures goesOn ==> open[op] == Cleared(d)
    {
      NextKeepsInv(total, Books(), Look(op));
      var left := Remaining();
      goesOn := d <= left;
      open := if goesOn then open[op := Cleared(d)] else open - {op};
    }

    /** Any looks and deductions of other operations. */
    method Others(op: nat)
      requires Valid()
      modifies this
      ensures Valid() && SameFor(op, old(Books()), Books())
    {
      assert Foreign([], op);
      var actions :| Foreign(actions, op);
      RunKeepsInv(total, Books(), actions);
      OthersLeaveOwn(total, Books(), actions, op);
      var after := Run(total, Books(), actions);
      spent, log, open, asked := after.ledger.spent, after.ledger.log, after.open, after.asked;
    }

    /** The budget part of Do: two looks, then the deduction, with other operations in between. */
    method Spend(op: nat, d: Int64) returns (granted: bool)
      requires Valid() && op !in open
      modifies this
      ensures Valid() && op !in open
      ensures Own(log, op) == if granted then old(Own(log, op)) + [d] else old(Own(log, op))
      ensures Own(asked, op) == old(Own(asked, op)) + [d]
    {
      hide Inv, Own, Left, Deducted;
      Others(op);
      OwnSnoc(asked, Grant(op, d), op);
      var goesOn := FirstLook(op, d);
      if !goesOn {
        return false;
      }
      Others(op);
      goesOn := SecondLook(op, d);
      if !goesOn {
        return false;
      }
      Others(op);
      granted := TakeCleared(op, d);
    }

    method TakeCleared(op: nat, d: Int64) returns (granted: bool)
      requires Valid() && op in open && open[op] == Cleared(d)
      modifies this
      ensures Valid() && op !in open && asked == old(asked)
      ensures Own(log, op) == if granted then old(Own(log, op)) + [d] else old(Own(log, op))
    {
      hide Inv, Own;
      OwnSnoc(log, Grant(op, d), op);
      granted := Deduct(op, d);
    }
  }
}
