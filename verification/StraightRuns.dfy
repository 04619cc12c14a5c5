// Runs instruction by instruction: what the first step is, that straight-line code is run
// once and in order, and where a stopped run goes on.
module StraightRuns {
  import opened Common
  import opened RunControl

  function Top<V, H>(s: State<V, H>): Frame<V>
    requires IsRunnable(s)
  {
    s.ecStack[|s.ecStack| - 1]
  }

  /** The state in which the `k`-th instruction from the cursor on is the running one, with
      the cursor behind it; everything else is as it was. */
  function Advanced<V, H>(p: Program<V, H>, s: State<V, H>, k: nat): State<V, H>
    requires IsRunnable(s)
  {
    var f := Top(s);
    State(s.ecStack[..|s.ecStack| - 1] + [Frame(f.curFunction, f.curInst + k + 1, f.values)],
          p.fetch(f.curFunction, f.curInst + k), s.rest)
  }

  ghost predicate CallsOneOf<V, H>(p: Program<V, H>, names: seq<string>, t: State<V, H>) {
    exists n :: n in names && p.callee(t) == Some(n)
  }

  /** The instruction at the cursor is run first, and the cursor moves behind it: a call of
      a function to stop at ends the run there, also if the function is to be skipped; a
      call of one to skip does nothing; anything else is visited. */
  lemma FirstStep<V, H>(p: Program<V, H>, flow: IRXFlowControl, s: State<V, H>, budget: nat)
    requires IsRunnable(s)
    ensures var t := Advanced(p, s, 0);
            RunOf(p, flow, s, budget + 1) ==
            if CallsOneOf(p, flow.stop, t) then Stopped(t, budget)
            else RunOf(p, flow, if CallsOneOf(p, flow.skip, t) then t else p.visit(t), budget)
  {
    assert Fetched(p, s) == Advanced(p, s, 0);
    ListedCalls(p, flow.stop, Advanced(p, s, 0));
    ListedCalls(p, flow.skip, Advanced(p, s, 0));
  }

  lemma ListedCalls<V, H>(p: Program<V, H>, names: seq<string>, t: State<V, H>)
    ensures Listed(p, names, t) <==> CallsOneOf(p, names, t)
  {
  }

  /** No run does anything without budget, or with nothing left to run. */
  lemma NoStep<V, H>(p: Program<V, H>, flow: IRXFlowControl, s: State<V, H>, budget: nat)
    ensures s.ecStack == [] ==> RunOf(p, flow, s, budget) == Finished(s, budget)
    ensures s.ecStack != [] ==> RunOf(p, flow, s, 0) == Exhausted(s)
  {
  }

  /** If the next `n` instructions are calls of functions to skip, a run of that budget has
      run each of them once and in order, and has changed nothing but the cursor. */
  lemma {:induction false} SkippedCalls<V, H>(p: Program<V, H>, flow: IRXFlowControl, s: State<V, H>, n: nat)
    requires IsRunnable(s)
    requires forall k: nat | k < n ::
               CallsOneOf(p, flow.skip, Advanced(p, s, k)) && !CallsOneOf(p, flow.stop, Advanced(p, s, k))
    ensures RunOf(p, flow, s, n) == Exhausted(if n == 0 then s else Advanced(p, s, n - 1))
    decreases n
  {
    if n == 0 {
      NoStep(p, flow, s, 0);
    } else {
      hide RunOf, CallsOneOf;
      var t := Advanced(p, s, 0);
      FirstStep(p, flow, s, n - 1);
      forall k: nat | k < n - 1
        ensures Advanced(p, t, k) == Advanced(p, s, k + 1)
      {
        AdvancedFurther(p, s, k);
      }
      SkippedCalls(p, flow, t, n - 1);
    }
  }

  lemma AdvancedFurther<V, H>(p: Program<V, H>, s: State<V, H>, k: nat)
    requires IsRunnable(s)
    ensures Advanced(p, Advanced(p, s, 0), k) == Advanced(p, s, k + 1)
  {
    var t, depth := Advanced(p, s, 0), |s.ecStack| - 1;
    assert t.ecStack[..depth] == s.ecStack[..depth];
  }

  /** Both states are at the same place: the same frames but for values, the same running
      instruction. */
  predicate SamePlace<V, H>(s: State<V, H>, t: State<V, H>) {
    && |t.ecStack| == |s.ecStack| && t.runningInstruction == s.runningInstruction
    && forall k | 0 <= k < |s.ecStack| ::
         t.ecStack[k].curFunction == s.ecStack[k].curFunction && t.ecStack[k].curInst == s.ecStack[k].curInst
  }

  ghost predicate NeverLeaves<V(!new), H(!new)>(p: Program<V, H>, flow: IRXFlowControl) {
    forall t | IsRunnable(t) :: SamePlace(t, p.visit(t)) && !CallsOneOf(p, flow.stop, t)
  }

  /** What the first of them leaves behind. */
  ghost function AfterFirst<V, H>(p: Program<V, H>, flow: IRXFlowControl, s: State<V, H>): State<V, H>
    requires IsRunnable(s)
  {
    var t := Advanced(p, s, 0);
    if CallsOneOf(p, flow.skip, t) then t else p.visit(t)
  }

  lemma StaysThere<V(!new), H(!new)>(p: Program<V, H>, flow: IRXFlowControl, s: State<V, H>, budget: nat)
    requires NeverLeaves(p, flow) && IsRunnable(s)
    ensures SamePlace(Advanced(p, s, 0), AfterFirst(p, flow, s)) && IsRunnable(AfterFirst(p, flow, s))
    ensures RunOf(p, flow, s, budget + 1) == RunOf(p, flow, AfterFirst(p, flow, s), budget)
  {
    hide RunOf, CallsOneOf;
    var t := Advanced(p, s, 0);
    assert IsRunnable(t);
    FirstStep(p, flow, s, budget);
  }

  /** Instructions that neither call, branch nor stop are run once and in order: after `n`
      of them the `n`-th from the cursor on is the running one, and the cursor is behind it. */
  lemma {:induction false} StraightLine<V(!new), H(!new)>(p: Program<V, H>, flow: IRXFlowControl, s: State<V, H>,
                                                            n: nat)
    requires IsRunnable(s)
    requires NeverLeaves(p, flow)
    ensures RunOf(p, flow, s, n).Exhausted?
    ensures var r := RunOf(p, flow, s, n).s;
            if n == 0 then r == s else SamePlace(r, Advanced(p, s, n - 1))
    decreases n
  {
    hide RunOf, NeverLeaves, SamePlace, Advanced, AfterFirst;
    if n == 0 {
      NoStep(p, flow, s, 0);
    } else {
      var u := AfterFirst(p, flow, s);
      StaysThere(p, flow, s, n - 1);
      StraightLine(p, flow, u, n - 1);
      OneFurther(p, s, u, RunOf(p, flow, s, n).s, n - 1);
    }
  }

  /** `n` instructions behind the first are `n + 1` instructions on. */
  lemma OneFurther<V, H>(p: Program<V, H>, s: State<V, H>, u: State<V, H>, r: State<V, H>, n: nat)
    requires IsRunnable(s) && IsRunnable(u) && SamePlace(Advanced(p, s, 0), u)
    requires if n == 0 then r == u else SamePlace(r, Advanced(p, u, n - 1))
    ensures SamePlace(r, Advanced(p, s, n))
  {
    var t := Advanced(p, s, 0);
    if n == 0 {
      SamePlaceBack(t, u);
    } else {
      assert IsRunnable(t);
      hide SamePlace, Advanced;
      SameAdvance(p, t, u, n - 1);
      SamePlaceTwice(r, Advanced(p, u, n - 1), Advanced(p, t, n - 1));
      AdvancedFurther(p, s, n - 1);
    }
  }

  lemma SameAdvance<V, H>(p: Program<V, H>, s: State<V, H>, t: State<V, H>, k: nat)
    requires IsRunnable(s) && SamePlace(s, t)
    ensures IsRunnable(t) && SamePlace(Advanced(p, t, k), Advanced(p, s, k))
  {
  }

  lemma SamePlaceTwice<V, H>(s: State<V, H>, t: State<V, H>, u: State<V, H>)
    requires SamePlace(s, t) && SamePlace(t, u)
    ensures SamePlace(s, u)
  {
  }

  lemma SamePlaceBack<V, H>(s: State<V, H>, t: State<V, H>)
    requires SamePlace(s, t)
    ensures SamePlace(t, s)
  {
  }

  /** At a call to stop at, the run stops with the cursor behind the call; an answer lands in
      the calling frame under the call and changes nothing else; and the first instruction a
      resumed run executes is the one behind the call. */
  lemma StopAnswerResume<V, H>(p: Program<V, H>, flow: IRXFlowControl, s: State<V, H>, budget: nat, v: V, more: nat)
    requires IsRunnable(s) && CallsOneOf(p, flow.stop, Advanced(p, s, 0))
    ensures RunOf(p, flow, s, budget + 1) == Stopped(Advanced(p, s, 0), budget)
    ensures var f, t := Top(s), Recorded(Advanced(p, s, 0), v);
            && t.ecStack == s.ecStack[..|s.ecStack| - 1] +
                            [Frame(f.curFunction, f.curInst + 1, f.values[p.fetch(f.curFunction, f.curInst) := v])]
            && t.rest == s.rest
            && var u := Advanced(p, t, 0);
               && u.runningInstruction == p.fetch(f.curFunction, f.curInst + 1)
               && RunOf(p, flow, t, more + 1) ==
                  if CallsOneOf(p, flow.stop, u) then Stopped(u, more)
                  else RunOf(p, flow, if CallsOneOf(p, flow.skip, u) then u else p.visit(u), more)
  {
    hide RunOf, CallsOneOf;
    FirstStep(p, flow, s, budget);
    FirstStep(p, flow, Recorded(Advanced(p, s, 0), v), more);
  }

  /** A session at a call to stop at: the user is asked once; the answer, if there is one,
      is recorded in the calling frame, and the session goes on behind the call. */
  lemma SessionStep<D, V, H>(p: Program<V, H>, flow: IRXFlowControl, user: User<D, V, H>, s: State<V, H>, d: D,
                             budget: nat)
    requires IsRunnable(s) && CallsOneOf(p, flow.stop, Advanced(p, s, 0))
    ensures var f, t := Top(s), Advanced(p, s, 0);
            var (d', answer) := user(d, t);
            SessionOf(p, flow, user, s, d, budget + 1) ==
            match answer
            case None => SessionOf(p, flow, user, t, d', budget)
            case Some(v) =>
              SessionOf(p, flow, user,
                        t.(ecStack := s.ecStack[..|s.ecStack| - 1] +
                             [Frame(f.curFunction, f.curInst + 1, f.values[t.runningInstruction := v])]),
                        d', budget)
  {
    hide RunOf, CallsOneOf;
    FirstStep(p, flow, s, budget);
    var t := Advanced(p, s, 0);
    var (d', answer) := user(d, t);
    if answer.Some? {
      var f := Top(s);
      assert Recorded(t, answer.value).ecStack == s.ecStack[..|s.ecStack| - 1] +
          [Frame(f.curFunction, f.curInst + 1, f.values[t.runningInstruction := answer.value])];
    }
  }
}
