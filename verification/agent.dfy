/** `MarioExpert.choose_action` and `step`: the per-step state machine that picks
    between the vertical and horizontal rules and detects being stuck. */
module Agent {
  import opened Outcome
  import opened Grid
  import opened Tiles
  import opened Respond
  import opened Controller

  /** Steps after a GOOMBA rule fired during which the vertical rules keep control. */
  const OVERRIDE_WINDOW: int := 10

  /** Consecutive repeats of the remembered action after which the agent counts as stuck. */
  const STUCK_LIMIT: int := 5

  /** What the agent emits once it counts as stuck. */
  const RECOVERY: Action := Single(UP_ARROW)

  /** Every action the two rule chains can produce. */
  const RULE_ACTIONS: set<Action> :=
    {Single(LEFT_ARROW), Combo([LEFT_ARROW, RIGHT_ARROW]), JUMP_RIGHT, Single(BUTTON_A), Single(RIGHT_ARROW)}

  /** The rules never choose the recovery action themselves. */
  lemma RecoveryIsNotARuleAction()
    ensures RECOVERY !in RULE_ACTIONS
  {
  }

  /** The initial `prevActions`, `(0,0)`, equals no action the rules choose, so the
      first step never counts as a repeat. */
  lemma InitialPrevMatchesNoRuleAction(a: Action)
    requires a in RULE_ACTIONS
    ensures !PyEq(INITIAL_PREV, a)
  {
  }

  /** The agent's run state: `stepCount`, `initialStep` and `counter` of the expert,
      and `prevActions` of the controller. */
  datatype AgentState = AgentState(stepCount: int, initialStep: int, counter: int, prevActions: Stored)

  const INITIAL: AgentState := AgentState(0, 0, 0, INITIAL_PREV)

  predicate Valid(s: AgentState) {
    0 <= s.initialStep <= s.stepCount && 0 <= s.counter < STUCK_LIMIT
  }

  lemma InitialValid()
    ensures Valid(INITIAL)
  {
  }

  /** The rule chosen action, `initialStep` as `entityRespondY` left it, and the
      vertical rules' response the choice was made from. */
  datatype Selection = Selection(action: Action, initialStep: int, vertical: YResponse)

  /** Pick the vertical rules' action while the override window is open or the vertical
      rules claim the override; otherwise ask the horizontal rules. The horizontal chain
      is not evaluated (and cannot raise) when it is not needed. */
  function Select(g: Grid, stepCount: int, initialStep: int): (r: Result<Selection>)
    requires Rectangular(g)
    ensures r.Ok? ==> EntityRespondY(g) == Ok(r.value.vertical)
    ensures r.Ok? ==> r.value.initialStep == if r.value.vertical.restartsTimer then stepCount else initialStep
    ensures r.Ok? && (stepCount - r.value.initialStep <= OVERRIDE_WINDOW || r.value.vertical.overrideFlag) ==>
              r.value.action == r.value.vertical.action
    ensures r.Ok? && !(stepCount - r.value.initialStep <= OVERRIDE_WINDOW || r.value.vertical.overrideFlag) ==>
              EntityRespondX(g) == Ok(r.value.action)
    ensures r.Ok? ==> r.value.action in RULE_ACTIONS
    ensures WellShaped(g) ==> r.Ok?
  {
    var y :- EntityRespondY(g);
    var start := if y.restartsTimer then stepCount else initialStep;
    if stepCount - start <= OVERRIDE_WINDOW || y.overrideFlag then Ok(Selection(y.action, start, y))
    else
      var x :- EntityRespondX(g);
      Ok(Selection(x, start, y))
  }

  /** The stuck counter and the action actually returned. */
  datatype Debounced = Debounced(counter: int, action: Action)

  /** Count consecutive repeats of the remembered action; on the fifth, emit RECOVERY
      instead and start counting again. */
  function Debounce(counter: int, prev: Stored, action: Action): (r: Debounced)
    ensures PyEq(prev, action) && counter + 1 == STUCK_LIMIT ==> r == Debounced(0, RECOVERY)
    ensures PyEq(prev, action) && counter + 1 != STUCK_LIMIT ==> r == Debounced(counter + 1, action)
    ensures !PyEq(prev, action) ==> r == Debounced(0, action)
    ensures 0 <= counter < STUCK_LIMIT ==> 0 <= r.counter < STUCK_LIMIT
  {
    var c := if PyEq(prev, action) then counter + 1 else 0;
    if c == STUCK_LIMIT then Debounced(0, RECOVERY) else Debounced(c, action)
  }

  /** A bare int action never counts as a repeat, so it never triggers recovery and
      always resets the counter. */
  lemma SingleResetsCounter(counter: int, prev: Stored, code: int)
    ensures Debounce(counter, prev, Single(code)) == Debounced(0, Single(code))
  {
  }

  /** `choose_action`'s outcome: the vertical rules' response, the rule chosen action,
      the returned action, and the updated state. */
  datatype Choice = Choice(vertical: YResponse, selected: Action, action: Action, state: AgentState)

  function ChooseAction(s: AgentState, g: Grid): (r: Result<Choice>)
    requires Rectangular(g)
    ensures r.Ok? ==> EntityRespondY(g) == Ok(r.value.vertical)
    ensures r.Ok? ==> r.value.selected in RULE_ACTIONS
    ensures r.Ok? ==> r.value.action == RECOVERY || r.value.action == r.value.selected
    ensures r.Ok? ==> r.value.state.stepCount == s.stepCount && r.value.state.prevActions == s.prevActions
    ensures r.Ok? ==> Select(g, s.stepCount, s.initialStep) == Ok(Selection(r.value.selected, r.value.state.initialStep, r.value.vertical))
    ensures r.Ok? ==> Debounce(s.counter, s.prevActions, r.value.selected) == Debounced(r.value.state.counter, r.value.action)
    ensures WellShaped(g) ==> r.Ok?
  {
    var sel :- Select(g, s.stepCount, s.initialStep);
    var d := Debounce(s.counter, s.prevActions, sel.action);
    Ok(Choice(sel.vertical, sel.action, d.action, s.(initialStep := sel.initialStep, counter := d.counter)))
  }

  /** One agent step: the state after it, the vertical rules' response, the rule chosen
      action, the action sent to the controller, and the events the controller issues. */
  datatype StepResult = StepResult(state: AgentState, vertical: YResponse, selected: Action, action: Action, events: seq<Event>)

  function Step(s: AgentState, g: Grid): (r: Result<StepResult>)
    requires Rectangular(g)
    ensures r.Ok? ==> r.value.state.stepCount == s.stepCount + 1
    ensures r.Ok? ==> r.value.state.prevActions == Store(r.value.action)
    ensures r.Ok? ==> r.value.selected in RULE_ACTIONS
    ensures r.Ok? ==> Debounce(s.counter, s.prevActions, r.value.selected) == Debounced(r.value.state.counter, r.value.action)
    ensures r.Ok? ==> (r.value.action == RECOVERY <==> PyEq(s.prevActions, r.value.selected) && s.counter + 1 == STUCK_LIMIT)
    ensures r.Ok? && r.value.action != RECOVERY ==> r.value.action == r.value.selected
    ensures r.Ok? ==> r.value.state.initialStep == s.initialStep || r.value.state.initialStep == r.value.state.stepCount
    ensures r.Ok? ==> EntityRespondY(g) == Ok(r.value.vertical)
    ensures r.Ok? ==> (r.value.state.initialStep == if r.value.vertical.restartsTimer then s.stepCount + 1 else s.initialStep)
    ensures r.Ok? && s.stepCount + 1 - s.initialStep <= OVERRIDE_WINDOW ==> r.value.selected == r.value.vertical.action
    ensures r.Ok? && r.value.vertical.overrideFlag ==> r.value.selected == r.value.vertical.action
    ensures r.Ok? && !(s.stepCount + 1 - r.value.state.initialStep <= OVERRIDE_WINDOW || r.value.vertical.overrideFlag) ==>
              EntityRespondX(g) == Ok(r.value.selected)
    ensures r.Ok? ==> r.value.events == RunAction(r.value.action) && TickCount(r.value.events) == ACT_FREQ
    ensures Valid(s) && r.Ok? ==> Valid(r.value.state)
    ensures WellShaped(g) ==> r.Ok?
  {
    var counted := s.(stepCount := s.stepCount + 1);
    var ch :- ChooseAction(counted, g);
    RunActionHoldsButtonsTogether(ch.action);
    Ok(StepResult(ch.state.(prevActions := Store(ch.action)), ch.vertical, ch.selected, ch.action, RunAction(ch.action)))
  }
}
