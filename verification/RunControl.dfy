// Running, stopping at functions, skipping functions, and answering stopped calls.
module RunControl {
  import opened Common

  /** A stack frame: the next instruction and the values computed so far, by
      instruction. */
  datatype Frame<V> = Frame(curFunction: nat, curInst: nat, values: map<nat, V>)

  /** `rest` is everything else an instruction may change. */
  datatype State<V, H> = State(ecStack: seq<Frame<V>>, runningInstruction: nat, rest: H)

  /** The program: which instruction is where, whom the running instruction calls (if it
      is a call of a function that can be told), and what visiting it does. */
  datatype Program<!V, !H> = Program(
    fetch: (nat, nat) -> nat,
    callee: State<V, H> -> Option<string>,
    visit: State<V, H> -> State<V, H>)

  datatype IRXFlowControl = IRXFlowControl(stop: seq<string>, skip: seq<string>)

  predicate IsRunnable<V, H>(s: State<V, H>) {
    s.ecStack != []
  }

  /** The next instruction is the running one, and the frame's cursor is behind it. */
  function Fetched<V, H>(p: Program<V, H>, s: State<V, H>): (t: State<V, H>)
    requires IsRunnable(s)
    ensures IsRunnable(t)
  {
    var depth := |s.ecStack| - 1;
    var frame := s.ecStack[depth];
    State(s.ecStack[depth := frame.(curInst := frame.curInst + 1)], p.fetch(frame.curFunction, frame.curInst), s.rest)
  }

  predicate Listed<V, H>(p: Program<V, H>, names: seq<string>, t: State<V, H>) {
    p.callee(t).Some? && p.callee(t).value in names
  }

  /** The result of the running instruction, in the frame on top. */
  function Recorded<V, H>(t: State<V, H>, result: V): State<V, H>
    requires IsRunnable(t)
  {
    var depth := |t.ecStack| - 1;
    var frame := t.ecStack[depth];
    t.(ecStack := t.ecStack[depth := frame.(values := frame.values[t.runningInstruction := result])])
  }

  // ---- Runs of at most `budget` instructions ----

  /** How a run ends: the stack is empty, a stop was requested, or the budget is used
      up; with what is left of the budget. */
  datatype Outcome<V, H> =
    | Finished(s: State<V, H>, left: nat)
    | Stopped(s: State<V, H>, left: nat)
    | Exhausted(s: State<V, H>)

  function RunOf<V, H>(p: Program<V, H>, flow: IRXFlowControl, s: State<V, H>, budget: nat): (r: Outcome<V, H>)
    ensures r.Stopped? ==> IsRunnable(r.s) && r.left < budget
    decreases budget
  {
    if !IsRunnable(s) then Finished(s, budget)
    else if budget == 0 then Exhausted(s)
    else
      var t := Fetched(p, s);
      if Listed(p, flow.stop, t) then Stopped(t, budget - 1)
      else if Listed(p, flow.skip, t) then RunOf(p, flow, t, budget - 1)
      else RunOf(p, flow, p.visit(t), budget - 1)
  }

  class Execution<V, H> {
    const program: Program<V, H>
    var flowControl: IRXFlowControl
    var state: State<V, H>

    constructor (program: Program<V, H>, flowControl: IRXFlowControl, state: State<V, H>)
      ensures this.program == program && this.flowControl == flowControl && this.state == state
    {
      this.program, this.flowControl, this.state := program, flowControl, state;
    }

    /** True if the run should stop. */
    method RunInstruction() returns (stop: bool)
      requires IsRunnable(state)
      modifies this`state
      ensures stop <==> Listed(program, flowControl.stop, old(state))
      ensures state == if stop || Listed(program, flowControl.skip, old(state)) then old(state)
                       else program.visit(old(state))
    {
      var f := program.callee(state);
      if f.Some? && f.value in flowControl.stop { return true; }
      if f.Some? && f.value in flowControl.skip { return false; }
      state := program.visit(state);
      return false;
    }

    /** The loop of `run`, cut off after `budget` instructions. `resume` is the same. */
    method Run(budget: nat) returns (r: Outcome<V, H>)
      modifies this`state
      ensures r == RunOf(program, flowControl, old(state), budget) && state == r.s
    {
      var left := budget;
      while state.ecStack != []
        invariant RunOf(program, flowControl, old(state), budget) == RunOf(program, flowControl, state, left)
        decreases left
      {
        if left == 0 { return Exhausted(state); }
        state := Fetched(program, state);
        left := left - 1;
        var stop := RunInstruction();
        if stop { return Stopped(state, left); }
      }
      return Finished(state, left);
    }

    method PutReturnValue(result: V)
      requires IsRunnable(state)
      modifies this`state
      ensures state == Recorded(old(state), result)
    {
      var depth := |state.ecStack| - 1;
      var callingSF := state.ecStack[depth];
      callingSF := callingSF.(values := callingSF.values[state.runningInstruction := result]);
      state := state.(ecStack := state.ecStack[depth := callingSF]);
    }

    /** The user's side: run, answer the stopped call or leave it, resume, until nothing
        is left to run. The answers may depend on the state at the stop and on whatever
        the user keeps in `d`. */
    method RunToEnd<D>(user: User<D, V, H>, d: D, budget: nat) returns (r: Outcome<V, H>, d': D)
      modifies this`state
      ensures (r, d') == SessionOf(program, flowControl, user, old(state), d, budget) && state == r.s
    {
      d' := d;
      r := Run(budget);
      while r.Stopped?
        invariant state == r.s
        invariant r.Stopped? ==> IsRunnable(r.s)
        invariant SessionOf(program, flowControl, user, old(state), d, budget) ==
                  AfterRun(program, flowControl, user, r, d')
        decreases if r.Stopped? then r.left + 1 else 0
      {
        var (next, answer) := user(d', state);
        d' := next;
        if answer.Some? { PutReturnValue(answer.value); }
        r := Run(r.left);
      }
    }
  }

  // ---- Sessions: stop, answer, resume ----

  /** What the user does at a stop: perhaps supplies a return value. */
  type User<!D, !V, !H> = (D, State<V, H>) -> (D, Option<V>)

  function Answered<V, H>(t: State<V, H>, answer: Option<V>): (u: State<V, H>)
    requires IsRunnable(t)
    ensures IsRunnable(u)
  {
    if answer.Some? then Recorded(t, answer.value) else t
  }

  function SessionOf<D, V, H>(p: Program<V, H>, flow: IRXFlowControl, user: User<D, V, H>, s: State<V, H>, d: D,
                              budget: nat):
    (Outcome<V, H>, D)
    decreases budget, 1
  {
    AfterRun(p, flow, user, RunOf(p, flow, s, budget), d)
  }

  function AfterRun<D, V, H>(p: Program<V, H>, flow: IRXFlowControl, user: User<D, V, H>, r: Outcome<V, H>, d: D):
    (Outcome<V, H>, D)
    requires r.Stopped? ==> IsRunnable(r.s)
    decreases if r.Stopped? then r.left + 1 else 0, 0
  {
    if !r.Stopped? then (r, d) else
    var (d', answer) := user(d, r.s);
    SessionOf(p, flow, user, Answered(r.s, answer), d', r.left)
  }

  // ---- The budget only cuts runs off ----

  function WithMore<V, H>(r: Outcome<V, H>, more: nat): Outcome<V, H> {
    match r
    case Finished(s, left) => Finished(s, left + more)
    case Stopped(s, left) => Stopped(s, left + more)
    case Exhausted(s) => r
  }

  /** A run that was cut off goes on as if it had not been; any other run is the same
      with a larger budget. */
  lemma {:induction false} BudgetOnlyCuts<V, H>(p: Program<V, H>, flow: IRXFlowControl, s: State<V, H>,
                                                budget: nat, more: nat)
    ensures var r := RunOf(p, flow, s, budget);
            RunOf(p, flow, s, budget + more) == if r.Exhausted? then RunOf(p, flow, r.s, more) else WithMore(r, more)
    decreases budget
  {
    if IsRunnable(s) && budget > 0 {
      var t := Fetched(p, s);
      if Listed(p, flow.stop, t) {
      } else if Listed(p, flow.skip, t) {
        BudgetOnlyCuts(p, flow, t, budget - 1, more);
      } else {
        BudgetOnlyCuts(p, flow, p.visit(t), budget - 1, more);
      }
    }
  }

  // ---- Stop and resume against skip ----

  /** Stopping at functions and resuming without an answer, until nothing is left to
      run, is one run that skips those functions. */
  lemma {:induction false} StopAndResumeIsSkip<D, V, H>(p: Program<V, H>, flow: IRXFlowControl, user: User<D, V, H>,
                                                        s: State<V, H>, d: D, budget: nat)
    requires forall e, t :: user(e, t).1 == None
    ensures SessionOf(p, flow, user, s, d, budget).0 == RunOf(p, IRXFlowControl([], flow.stop + flow.skip), s, budget)
    decreases budget
  {
    if IsRunnable(s) && budget > 0 {
      var t := Fetched(p, s);
      if Listed(p, flow.stop, t) {
        assert user(d, t).1 == None;
        StopAndResumeIsSkip(p, flow, user, t, user(d, t).0, budget - 1);
      } else if Listed(p, flow.skip, t) {
        StopAndResumeIsSkip(p, flow, user, t, d, budget - 1);
      } else {
        StopAndResumeIsSkip(p, flow, user, p.visit(t), d, budget - 1);
      }
    }
  }

  // ---- Answered stops against recorded results ----

  function Beside<D, V, H>(s: State<V, H>, d: D): State<V, (H, D)> {
    State(s.ecStack, s.runningInstruction, (s.rest, d))
  }

  function Inside<D, V, H>(s: State<V, (H, D)>): State<V, H> {
    State(s.ecStack, s.runningInstruction, s.rest.0)
  }

  /** The program in which a call of a function listed to stop at does nothing but record
      the result the user would supply, and a call of one listed to skip does nothing. */
  function Stubbed<D, V, H>(p: Program<V, H>, flow: IRXFlowControl, user: User<D, V, H>): Program<V, (H, D)> {
    Program(p.fetch,
            (t: State<V, (H, D)>) => p.callee(Inside(t)),
            (t: State<V, (H, D)>) =>
              if Listed(p, flow.stop, Inside(t)) && IsRunnable(t) then
                var (d, answer) := user(t.rest.1, Inside(t));
                Beside(Answered(Inside(t), answer), d)
              else if Listed(p, flow.skip, Inside(t)) then t
              else Beside(p.visit(Inside(t)), t.rest.1))
  }

  function BesideOutcome<D, V, H>(r: Outcome<V, H>, d: D): Outcome<V, (H, D)> {
    match r
    case Finished(s, left) => Finished(Beside(s, d), left)
    case Stopped(s, left) => Stopped(Beside(s, d), left)
    case Exhausted(s) => Exhausted(Beside(s, d))
  }

  /** Supplying a return value at each stop is one uninterrupted run of the program whose
      stopped calls record that value. */
  lemma {:induction false} AnswersAreResults<D, V, H>(p: Program<V, H>, flow: IRXFlowControl, user: User<D, V, H>,
                                                      s: State<V, H>, d: D, budget: nat)
    ensures var (r, d') := SessionOf(p, flow, user, s, d, budget);
            RunOf(Stubbed(p, flow, user), IRXFlowControl([], []), Beside(s, d), budget) == BesideOutcome(r, d')
    decreases budget
  {
    if IsRunnable(s) && budget > 0 {
      var t := Fetched(p, s);
      var q := Stubbed(p, flow, user);
      assert Fetched(q, Beside(s, d)) == Beside(t, d);
      assert Inside(Beside(t, d)) == t;
      if Listed(p, flow.stop, t) {
        var (d', answer) := user(d, t);
        assert q.visit(Beside(t, d)) == Beside(Answered(t, answer), d');
        AnswersAreResults(p, flow, user, Answered(t, answer), d', budget - 1);
      } else if Listed(p, flow.skip, t) {
        assert q.visit(Beside(t, d)) == Beside(t, d);
        AnswersAreResults(p, flow, user, t, d, budget - 1);
      } else {
        assert q.visit(Beside(t, d)) == Beside(p.visit(t), d);
        AnswersAreResults(p, flow, user, p.visit(t), d, budget - 1);
      }
    }
  }
}
