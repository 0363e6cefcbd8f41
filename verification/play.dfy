/** The `play` loop as a sequence of steps over the grids the environment produces
    until the game is over, and the stuck counter's behaviour over such runs. */
module Play {
  import opened Outcome
  import opened Grid
  import opened Tiles
  import opened Respond
  import opened Controller
  import opened Agent

  predicate AllRectangular(grids: seq<Grid>) {
    forall k :: 0 <= k < |grids| ==> Rectangular(grids[k])
  }

  predicate AllWellShaped(grids: seq<Grid>) {
    forall k :: 0 <= k < |grids| ==> WellShaped(grids[k])
  }

  datatype Trace = Trace(state: AgentState, steps: seq<StepResult>)

  /** One step per grid, in order; the first IndexError ends the run. */
  function Run(s: AgentState, grids: seq<Grid>): (r: Result<Trace>)
    requires AllRectangular(grids)
    ensures r.Ok? ==> |r.value.steps| == |grids| && r.value.state.stepCount == s.stepCount + |grids|
    ensures r.Ok? ==> forall k :: 0 <= k < |grids| ==> r.value.steps[k].selected in RULE_ACTIONS
    ensures r.Ok? && Valid(s) ==> Valid(r.value.state) && r.value.state.initialStep >= s.initialStep
    ensures AllWellShaped(grids) ==> r.Ok?
    decreases |grids|
  {
    if grids == [] then Ok(Trace(s, []))
    else
      var n := |grids| - 1;
      var before :- Run(s, grids[..n]);
      var st :- Step(before.state, grids[n]);
      Ok(Trace(st.state, before.steps + [st]))
  }

  /** A run's first n steps are the run over the first n grids. */
  lemma {:induction false} RunPrefix(s: AgentState, grids: seq<Grid>, n: nat)
    requires AllRectangular(grids) && Run(s, grids).Ok?
    requires n <= |grids|
    ensures Run(s, grids[..n]).Ok?
    ensures Run(s, grids[..n]).value.steps == Run(s, grids).value.steps[..n]
    decreases |grids|
  {
    if n < |grids| {
      var m := |grids| - 1;
      assert grids[..m][..n] == grids[..n];
      RunPrefix(s, grids[..m], n);
    } else {
      assert grids[..n] == grids;
    }
  }

  /** While the override window is open the vertical rules decide every step: at the
      start, and for ten steps after a GOOMBA rule fired. */
  lemma {:induction false} WindowKeepsVerticalRules(s: AgentState, grids: seq<Grid>)
    requires AllRectangular(grids) && Run(s, grids).Ok?
    requires Valid(s) && s.stepCount - s.initialStep + |grids| <= OVERRIDE_WINDOW
    ensures forall k :: 0 <= k < |grids| ==>
              Run(s, grids).value.steps[k].selected == Run(s, grids).value.steps[k].vertical.action
    decreases |grids|
  {
    if grids != [] {
      var n := |grids| - 1;
      WindowKeepsVerticalRules(s, grids[..n]);
      var before := Run(s, grids[..n]).value;
      var st := Step(before.state, grids[n]);
      assert st.Ok?;
      assert before.state.stepCount + 1 - before.state.initialStep <= OVERRIDE_WINDOW;
      assert st.value.selected == st.value.vertical.action;
      var steps := Run(s, grids).value.steps;
      assert steps == before.steps + [st.value];
      forall k | 0 <= k < |grids|
        ensures steps[k].selected == steps[k].vertical.action
      {
        if k < n {
          assert steps[k] == before.steps[k];
        } else {
          assert steps[k] == st.value;
        }
      }
    }
  }

  /** The stuck counter, the remembered action and the emitted actions so far. */
  datatype Tally = Tally(counter: int, prev: Stored, emitted: seq<Action>)

  /** One rule-chosen action through the stuck filter, remembering what is emitted. */
  function Admit(t: Tally, a: Action): (r: Tally)
    ensures |r.emitted| == |t.emitted| + 1 && r.emitted[..|t.emitted|] == t.emitted
    ensures r.prev == Store(r.emitted[|t.emitted|])
    ensures r.emitted[|t.emitted|] == RECOVERY || r.emitted[|t.emitted|] == a
  {
    var d := Debounce(t.counter, t.prev, a);
    Tally(d.counter, Store(d.action), t.emitted + [d.action])
  }

  /** Run the stuck filter over a sequence of rule-chosen actions. */
  function Feed(t: Tally, selected: seq<Action>): (r: Tally)
    ensures |r.emitted| == |t.emitted| + |selected|
    decreases |selected|
  {
    if selected == [] then t
    else Admit(Feed(t, selected[..|selected| - 1]), selected[|selected| - 1])
  }

  /** The rule-chosen action of each step. */
  function Selected(steps: seq<StepResult>): seq<Action> {
    seq(|steps|, k requires 0 <= k < |steps| => steps[k].selected)
  }

  /** The action each step sent to the controller. */
  function Emitted(steps: seq<StepResult>): seq<Action> {
    seq(|steps|, k requires 0 <= k < |steps| => steps[k].action)
  }

  /** Filtering the choices of one more step is one more Admit. */
  lemma FeedOneMoreStep(t: Tally, steps: seq<StepResult>, st: StepResult)
    ensures Feed(t, Selected(steps + [st])) == Admit(Feed(t, Selected(steps)), st.selected)
    ensures Emitted(steps + [st]) == Emitted(steps) + [st.action]
  {
    var all := steps + [st];
    assert Selected(all)[..|steps|] == Selected(steps);
    assert Selected(all)[|steps|] == st.selected;
  }

  /** The actions a run sends are exactly the stuck filter applied to its rule choices. */
  lemma {:induction false} RunDebounces(s: AgentState, grids: seq<Grid>)
    requires AllRectangular(grids) && Run(s, grids).Ok?
    ensures var tr := Run(s, grids).value;
            Feed(Tally(s.counter, s.prevActions, []), Selected(tr.steps)) ==
              Tally(tr.state.counter, tr.state.prevActions, Emitted(tr.steps))
    decreases |grids|
  {
    var tr := Run(s, grids).value;
    if grids == [] {
      assert Selected(tr.steps) == [] && Emitted(tr.steps) == [];
    } else {
      var n := |grids| - 1;
      RunDebounces(s, grids[..n]);
      var before := Run(s, grids[..n]).value;
      var st := Step(before.state, grids[n]).value;
      assert tr.steps == before.steps + [st];
      FeedOneMoreStep(Tally(s.counter, s.prevActions, []), before.steps, st);
    }
  }

  /** n copies of one action. */
  function Copies(a: Action, n: nat): (r: seq<Action>)
    ensures |r| == n && forall i :: 0 <= i < n ==> r[i] == a
  {
    if n == 0 then [] else Copies(a, n - 1) + [a]
  }

  /** Choosing the same tuple n < 5 times after it was last sent counts n repeats. */
  lemma {:induction false} RepeatsAreCounted(t: seq<int>, n: nat)
    requires n < STUCK_LIMIT
    ensures Feed(Tally(0, StoredTuple(t), []), Copies(Combo(t), n)) == Tally(n, StoredTuple(t), Copies(Combo(t), n))
  {
    if n > 0 {
      var xs := Copies(Combo(t), n);
      var pre := Copies(Combo(t), n - 1);
      assert xs == pre + [Combo(t)];
      assert xs[..n - 1] == pre;
      RepeatsAreCounted(t, n - 1);
      var before := Feed(Tally(0, StoredTuple(t), []), pre);
      assert Feed(Tally(0, StoredTuple(t), []), xs) == Admit(before, Combo(t));
      assert Debounce(n - 1, StoredTuple(t), Combo(t)) == Debounced(n, Combo(t));
      assert Admit(before, Combo(t)) == Tally(n, StoredTuple(t), xs);
    }
  }

  /** Five more choices of the tuple last sent: four go out, the fifth becomes RECOVERY,
      and a sixth is sent again with the counter restarted. */
  lemma FiveRepeatsRecoverOnce(t: seq<int>)
    ensures var ts := Copies(Combo(t), 4);
            && Feed(Tally(0, StoredTuple(t), []), Copies(Combo(t), 5)) == Tally(0, Store(RECOVERY), ts + [RECOVERY])
            && Feed(Tally(0, StoredTuple(t), []), Copies(Combo(t), 6)) == Tally(0, StoredTuple(t), ts + [RECOVERY, Combo(t)])
  {
    var ts := Copies(Combo(t), 4);
    RepeatsAreCounted(t, 4);
    assert Copies(Combo(t), 5)[..4] == ts;
    assert Copies(Combo(t), 6)[..5] == Copies(Combo(t), 5);
  }

  /** Bare int actions pass through the stuck filter unchanged and leave the counter at 0. */
  lemma {:induction false} SinglesPassThrough(t: Tally, selected: seq<Action>)
    requires forall k :: 0 <= k < |selected| ==> selected[k].Single?
    ensures Feed(t, selected).emitted == t.emitted + selected
    ensures selected != [] ==> Feed(t, selected).counter == 0
    decreases |selected|
  {
    if selected != [] {
      var n := |selected| - 1;
      SinglesPassThrough(t, selected[..n]);
      assert selected == selected[..n] + [selected[n]];
    }
  }

  /** If the k choices before the last all equal the last, so do the last k + 1. */
  lemma ExtendRun(selected: seq<Action>, k: nat)
    requires k < |selected|
    requires var n := |selected| - 1;
             forall j :: n - k <= j < n ==> selected[..n][j] == selected[n]
    ensures forall j :: |selected| - 1 - k <= j < |selected| ==> selected[j] == selected[|selected| - 1]
  {
    var n := |selected| - 1;
    forall j | n - k <= j < |selected|
      ensures selected[j] == selected[n]
    {
      if j < n {
        assert selected[..n][j] == selected[j];
      }
    }
  }

  /** When the filter counts a repeat after at least one choice, the choice repeats the
      one before it. */
  lemma RepeatFollowsSameChoice(p: Stored, selected: seq<Action>, a: Action)
    requires selected != []
    requires PyEq(Feed(Tally(0, p, []), selected).prev, a)
    ensures a.Combo? && a == selected[|selected| - 1]
  {
    var n := |selected| - 1;
    var r := Feed(Tally(0, p, []), selected);
    assert r == Admit(Feed(Tally(0, p, []), selected[..n]), selected[n]);
    var last := r.emitted[n];
    StoredEqualsOnlyRepeatedCombo(last, a);
  }

  /** The counter after a run of the filter is at most the number of trailing choices
      that repeated the same tuple. */
  lemma {:induction false} CounterTracksRepeats(p: Stored, selected: seq<Action>)
    ensures var r := Feed(Tally(0, p, []), selected);
            && 0 <= r.counter <= |selected|
            && forall j :: |selected| - r.counter <= j < |selected| ==>
                 selected[j].Combo? && selected[j] == selected[|selected| - 1]
    decreases |selected|
  {
    if selected != [] {
      var n := |selected| - 1;
      var pre := selected[..n];
      var before := Feed(Tally(0, p, []), pre);
      var r := Feed(Tally(0, p, []), selected);
      assert r == Admit(before, selected[n]);
      CounterTracksRepeats(p, pre);
      if PyEq(before.prev, selected[n]) && r.counter != 0 {
        assert r.counter == before.counter + 1;
        assert selected[n].Combo?;
        if n > 0 {
          RepeatFollowsSameChoice(p, pre, selected[n]);
          assert forall j :: n - before.counter <= j < n ==> pre[j] == selected[n];
          ExtendRun(selected, before.counter);
        }
      }
    }
  }

  /** A RECOVERY emitted for a choice other than RECOVERY comes from the fifth repeat of
      that choice. */
  lemma RecoveryIsRepeat(p: Stored, selected: seq<Action>)
    requires selected != [] && selected[|selected| - 1] != RECOVERY
    requires Feed(Tally(0, p, []), selected).emitted[|selected| - 1] == RECOVERY
    ensures var before := Feed(Tally(0, p, []), selected[..|selected| - 1]);
            PyEq(before.prev, selected[|selected| - 1]) && before.counter == STUCK_LIMIT - 1
  {
    var n := |selected| - 1;
    var before := Feed(Tally(0, p, []), selected[..n]);
    assert Feed(Tally(0, p, []), selected) == Admit(before, selected[n]);
  }

  /** Before such a RECOVERY, the four choices just before the last were the last one. */
  lemma FourBeforeRecovery(p: Stored, selected: seq<Action>)
    requires selected != [] && selected[|selected| - 1] != RECOVERY
    requires Feed(Tally(0, p, []), selected).emitted[|selected| - 1] == RECOVERY
    ensures |selected| >= STUCK_LIMIT && selected[|selected| - 1].Combo?
    ensures var n := |selected| - 1;
            forall j :: n - (STUCK_LIMIT - 1) <= j < n ==> selected[..n][j] == selected[n]
  {
    var n := |selected| - 1;
    var pre := selected[..n];
    RecoveryIsRepeat(p, selected);
    CounterTracksRepeats(p, pre);
    RepeatFollowsSameChoice(p, pre, selected[n]);
  }

  /** A recovery is only ever sent after the same tuple was chosen five times in a row. */
  lemma RecoveryNeedsFiveEqualCombos(p: Stored, selected: seq<Action>)
    requires selected != [] && selected[|selected| - 1] != RECOVERY
    requires Feed(Tally(0, p, []), selected).emitted[|selected| - 1] == RECOVERY
    ensures |selected| >= STUCK_LIMIT
    ensures forall j :: |selected| - STUCK_LIMIT <= j < |selected| ==>
              selected[j].Combo? && selected[j] == selected[|selected| - 1]
  {
    FourBeforeRecovery(p, selected);
    ExtendRun(selected, STUCK_LIMIT - 1);
  }

  /** The first k + 1 actions of a run are the stuck filter applied to its first k + 1
      rule choices. */
  lemma RunPrefixDebounces(s: AgentState, grids: seq<Grid>, k: nat)
    requires AllRectangular(grids) && Run(s, grids).Ok? && k < |grids|
    ensures var pre := Run(s, grids).value.steps[..k + 1];
            Feed(Tally(s.counter, s.prevActions, []), Selected(pre)).emitted == Emitted(pre)
  {
    RunPrefix(s, grids, k + 1);
    RunDebounces(s, grids[..k + 1]);
  }

  /** The step-level form of RecoveryNeedsFiveEqualCombos. */
  lemma StepsRecoveryNeedsRepeats(p: Stored, steps: seq<StepResult>, k: nat)
    requires k < |steps| && steps[k].action == RECOVERY && steps[k].selected != RECOVERY
    requires Feed(Tally(0, p, []), Selected(steps[..k + 1])).emitted == Emitted(steps[..k + 1])
    ensures k + 1 >= STUCK_LIMIT
    ensures forall j :: k + 1 - STUCK_LIMIT <= j <= k ==> steps[j].selected.Combo? && steps[j].selected == steps[k].selected
  {
    var sel := Selected(steps[..k + 1]);
    assert sel[k] == steps[k].selected;
    assert Emitted(steps[..k + 1])[k] == RECOVERY;
    RecoveryNeedsFiveEqualCombos(p, sel);
    forall j | k + 1 - STUCK_LIMIT <= j <= k
      ensures steps[j].selected.Combo? && steps[j].selected == steps[k].selected
    {
      assert sel[j] == steps[j].selected;
    }
  }

  /** Choices that, like every rule-chosen action, are not RECOVERY and do not equal the
      initial `prevActions` `(0,0)`. */
  predicate NotRecoveryNorInitialPrev(selected: seq<Action>) {
    forall k :: 0 <= k < |selected| ==> selected[k] != RECOVERY && !PyEq(INITIAL_PREV, selected[k])
  }

  /** Every rule-chosen action is unremarkable. */
  lemma RuleActionsNotRecoveryNorInitialPrev(selected: seq<Action>)
    requires forall k :: 0 <= k < |selected| ==> selected[k] in RULE_ACTIONS
    ensures NotRecoveryNorInitialPrev(selected)
  {
    RecoveryIsNotARuleAction();
    forall k | 0 <= k < |selected|
      ensures !PyEq(INITIAL_PREV, selected[k])
    {
      InitialPrevMatchesNoRuleAction(selected[k]);
    }
  }

  /** From the initial `prevActions`, a counter of c means the last c + 1 choices were
      one and the same action: the first of them was not a repeat, since `(0,0)` is
      not among the choices. */
  lemma {:induction false} TrailingRun(selected: seq<Action>)
    requires selected != [] && NotRecoveryNorInitialPrev(selected)
    ensures var r := Feed(Tally(0, INITIAL_PREV, []), selected);
            && 0 <= r.counter < |selected|
            && forall j :: |selected| - 1 - r.counter <= j < |selected| ==> selected[j] == selected[|selected| - 1]
    decreases |selected|
  {
    var n := |selected| - 1;
    var pre := selected[..n];
    var before := Feed(Tally(0, INITIAL_PREV, []), pre);
    var r := Feed(Tally(0, INITIAL_PREV, []), selected);
    assert r == Admit(before, selected[n]);
    if PyEq(before.prev, selected[n]) && r.counter != 0 {
      assert n > 0;
      assert NotRecoveryNorInitialPrev(pre);
      TrailingRun(pre);
      RepeatFollowsSameChoice(INITIAL_PREV, pre, selected[n]);
      assert r.counter == before.counter + 1;
      assert forall j :: n - 1 - before.counter <= j < n ==> pre[j] == selected[n];
      ExtendRun(selected, r.counter);
    }
  }

  /** A RECOVERY emitted from the initial `prevActions` comes from the fifth repeat of
      the last choice, and not from the first choice. */
  lemma RecoveryIsFifthRepeat(selected: seq<Action>)
    requires selected != [] && NotRecoveryNorInitialPrev(selected)
    requires Feed(Tally(0, INITIAL_PREV, []), selected).emitted[|selected| - 1] == RECOVERY
    ensures var before := Feed(Tally(0, INITIAL_PREV, []), selected[..|selected| - 1]);
            && |selected| > 1
            && PyEq(before.prev, selected[|selected| - 1])
            && before.counter == STUCK_LIMIT - 1
  {
    var n := |selected| - 1;
    var before := Feed(Tally(0, INITIAL_PREV, []), selected[..n]);
    assert Feed(Tally(0, INITIAL_PREV, []), selected) == Admit(before, selected[n]);
  }

  /** Before a RECOVERY from the initial `prevActions`, the five choices just before
      the last were the last one. */
  lemma FiveBeforeRecovery(selected: seq<Action>)
    requires selected != [] && NotRecoveryNorInitialPrev(selected)
    requires Feed(Tally(0, INITIAL_PREV, []), selected).emitted[|selected| - 1] == RECOVERY
    ensures |selected| > STUCK_LIMIT
    ensures var n := |selected| - 1;
            forall j :: n - STUCK_LIMIT <= j < n ==> selected[..n][j] == selected[n]
  {
    var n := |selected| - 1;
    var pre := selected[..n];
    RecoveryIsFifthRepeat(selected);
    assert NotRecoveryNorInitialPrev(pre);
    TrailingRun(pre);
    RepeatFollowsSameChoice(INITIAL_PREV, pre, selected[n]);
  }

  /** From the initial `prevActions`, RECOVERY needs six equal tuple choices in a row:
      the first sets the remembered value and the next five are the repeats. */
  lemma RecoveryFromStartNeedsSix(selected: seq<Action>)
    requires selected != [] && NotRecoveryNorInitialPrev(selected)
    requires Feed(Tally(0, INITIAL_PREV, []), selected).emitted[|selected| - 1] == RECOVERY
    ensures |selected| > STUCK_LIMIT
    ensures forall j :: |selected| - 1 - STUCK_LIMIT <= j < |selected| ==>
              selected[j].Combo? && selected[j] == selected[|selected| - 1]
  {
    var n := |selected| - 1;
    FiveBeforeRecovery(selected);
    ExtendRun(selected, STUCK_LIMIT);
    RecoveryIsFifthRepeat(selected);
    assert selected[n].Combo?;
  }

  /** The step-level form of RecoveryFromStartNeedsSix. */
  lemma StepsRecoveryFromStart(steps: seq<StepResult>, k: nat)
    requires k < |steps| && steps[k].action == RECOVERY
    requires forall j :: 0 <= j <= k ==> steps[j].selected in RULE_ACTIONS
    requires Feed(Tally(0, INITIAL_PREV, []), Selected(steps[..k + 1])).emitted == Emitted(steps[..k + 1])
    ensures k >= STUCK_LIMIT
    ensures forall j :: k - STUCK_LIMIT <= j <= k ==> steps[j].selected.Combo? && steps[j].selected == steps[k].selected
  {
    var sel := Selected(steps[..k + 1]);
    assert forall i :: 0 <= i <= k ==> sel[i] == steps[i].selected;
    RuleActionsNotRecoveryNorInitialPrev(sel);
    assert Emitted(steps[..k + 1])[k] == RECOVERY;
    RecoveryFromStartNeedsSix(sel);
  }

  /** In any run from the start, a step sends RECOVERY only if it and the five steps
      before it chose the same tuple action. */
  lemma RunRecoveryNeedsRepeats(grids: seq<Grid>, k: nat)
    requires AllRectangular(grids) && Run(INITIAL, grids).Ok?
    requires k < |grids| && Run(INITIAL, grids).value.steps[k].action == RECOVERY
    ensures k >= STUCK_LIMIT
    ensures var steps := Run(INITIAL, grids).value.steps;
            forall j :: k - STUCK_LIMIT <= j <= k ==> steps[j].selected.Combo? && steps[j].selected == steps[k].selected
  {
    var steps := Run(INITIAL, grids).value.steps;
    RunPrefixDebounces(INITIAL, grids, k);
    assert Tally(INITIAL.counter, INITIAL.prevActions, []) == Tally(0, INITIAL_PREV, []);
    StepsRecoveryFromStart(steps, k);
  }
}
