/** The invariant over every run of the engine. */
module LsmRuns {
  import opened DbFormat
  import opened Tables
  import opened Lsm
  import opened LsmProof

  lemma StepKeepsInv(s: State, step: Step)
    requires Inv(s) && Enabled(s, step)
    ensures Inv(Apply(s, step))
  {
    hide Inv, Enabled, Apply;
    match step {
      case Insert(e) => InsertKeepsInv(s, e);
      case Switch => SwitchKeepsInv(s);
      case Flush(_, _, _, _) => FlushKeepsInv(s, step);
      case Begin(r) => BeginKeepsInv(s, r);
      case Finish(outputs, levels) => FinishKeepsInv(s, outputs, levels);
      case Move(r, levels) => MoveKeepsInv(s, r, levels);
      case _ => SmallStepsKeepInv(s, step);
    }
  }

  lemma NoTables(v: Levels)
    requires forall m :: 0 <= m < NUM_LEVELS ==> v[m] == []
    ensures TableEntries(v) == {} && LevelsOk(v)
  {
  }

  lemma InitInv()
    ensures Inv(Init())
  {
    hide Read;
    var s := Init();
    assert forall m :: 0 <= m < NUM_LEVELS ==> s.levels[m] == [];
    NoTables(s.levels);
    assert All(s) == s.written;
  }

  /** A run: states and the steps between them, from a new database. */
  ghost predicate Run(states: seq<State>, steps: seq<Step>) {
    && |states| == |steps| + 1
    && states[0] == Init()
    && forall i :: 0 <= i < |steps| ==> Enabled(states[i], steps[i]) && states[i + 1] == Apply(states[i], steps[i])
  }

  lemma {:induction false} EveryRunKeepsInv(states: seq<State>, steps: seq<Step>, n: nat)
    requires Run(states, steps) && n < |states|
    ensures Inv(states[n])
  {
    hide Inv, Enabled, Apply;
    if n == 0 {
      InitInv();
    } else {
      EveryRunKeepsInv(states, steps, n - 1);
      assert Enabled(states[n - 1], steps[n - 1]);
      StepKeepsInv(states[n - 1], steps[n - 1]);
    }
  }

  /** A state some run ends in. */
  ghost predicate Reachable(s: State) {
    exists states, steps :: Run(states, steps) && states[|steps|] == s
  }

  lemma InitReachable()
    ensures Reachable(Init())
  {
    assert Run([Init()], []);
  }

  lemma RunOneMore(states: seq<State>, steps: seq<Step>, step: Step)
    requires Run(states, steps) && Enabled(states[|steps|], step)
    ensures Run(states + [Apply(states[|steps|], step)], steps + [step])
  {
    hide Enabled, Apply;
    var longer, more := states + [Apply(states[|steps|], step)], steps + [step];
    forall i | 0 <= i < |more| ensures Enabled(longer[i], more[i]) && longer[i + 1] == Apply(longer[i], more[i]) {
      if i < |steps| {
        assert longer[i] == states[i] && longer[i + 1] == states[i + 1] && more[i] == steps[i];
      }
    }
  }

  lemma ReachNext(s: State, step: Step)
    requires Reachable(s) && Enabled(s, step)
    ensures Reachable(Apply(s, step))
  {
    hide Enabled, Apply;
    var states, steps :| Run(states, steps) && states[|steps|] == s;
    RunOneMore(states, steps, step);
    assert (states + [Apply(s, step)])[|steps + [step]|] == Apply(s, step);
  }

  lemma ReachableInv(s: State)
    requires Reachable(s)
    ensures Inv(s)
  {
    hide Inv, Enabled, Apply;
    var states, steps :| Run(states, steps) && states[|steps|] == s;
    EveryRunKeepsInv(states, steps, |steps|);
  }
}
