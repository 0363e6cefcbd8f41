/** `entityRespondY` and `entityRespondX`: the two ordered rule chains keyed on tiles
    at fixed offsets from the marker. In both, the `for` loop's body returns on every
    path, so only its first iteration runs; the model reads that iteration's cells. */
module Respond {
  import opened Outcome
  import opened Grid
  import opened Tiles
  import opened Locate
  import opened Rules

  /** The result of `entityRespondY`: the action, the override flag, and whether the
      call set `initialStep` to the current step (its side effect). */
  datatype YResponse = YResponse(action: Action, overrideFlag: bool, restartsTimer: bool)

  /** A marker column past this value means the end of the level. */
  const FINISH_COLUMN: int := 14

  /** The tuple (BUTTON_A, RIGHT_ARROW): jump while moving right. */
  const JUMP_RIGHT: Action := Combo([BUTTON_A, RIGHT_ARROW])

  /** What `entityRespondY` returns when no rule applies (and at the end of the level). */
  const Y_DEFAULT: YResponse := YResponse(Single(LEFT_ARROW), false, false)

  /** What `entityRespondX` returns when no rule applies (and at the end of the level). */
  const X_DEFAULT: Action := Single(RIGHT_ARROW)

  predicate Finished(g: Grid)
    requires Rectangular(g)
  {
    FindMario(g).col > FINISH_COLUMN
  }

  /** A grid no rule can read out of range: 16 rows for the hard-coded row 15, and
      19 columns for the probe four columns right of a marker at column 14. */
  predicate WellShaped(g: Grid) {
    Rectangular(g) && Rows(g) >= 16 && Cols(g) >= 19
  }

  function EntityRespondY(g: Grid): (r: Result<YResponse>)
    requires Rectangular(g)
    ensures Finished(g) ==> r == Ok(Y_DEFAULT)
    ensures WellShaped(g) ==> r.Ok?
    ensures r.Ok? ==> r.value.action in {Single(LEFT_ARROW), Combo([LEFT_ARROW, RIGHT_ARROW]), JUMP_RIGHT}
    ensures r.Ok? && r.value.restartsTimer ==> r.value.overrideFlag
    ensures r.Ok? && !r.value.overrideFlag ==> r.value == Y_DEFAULT
  {
    var m := FindMario(g);
    if m.col > FINISH_COLUMN then Ok(Y_DEFAULT)
    else
      // the first iteration of `range(marioY-3, marioY+1)`; a negative row wraps
      var i := m.row - 3;
      var ahead3 :- At(g, i, m.col + 3);
      if ahead3 == GOOMBA then Ok(YResponse(Combo([LEFT_ARROW, RIGHT_ARROW]), true, true))
      else
        var ahead2 :- At(g, i, m.col + 2);
        if ahead2 == GOOMBA then Ok(YResponse(Single(LEFT_ARROW), true, true))
        else
          var fly :- At(g, 11, m.col + 4);
          if fly == FLY then Ok(YResponse(JUMP_RIGHT, true, false))
          else
            var hole :- At(g, 15, m.col + 2);
            if hole == EMPTY then Ok(YResponse(JUMP_RIGHT, true, false))
            // the GROUND test re-reads the cell already read as ahead3
            else if ahead3 == GROUND then Ok(YResponse(JUMP_RIGHT, true, false))
            else Ok(Y_DEFAULT)
  }

  /** KOOPA on the marker row two columns ahead, with neither GOOMBA nor FLY below it. */
  predicate KoopaAhead(g: Grid)
    requires Rectangular(g)
  {
    var m := FindMario(g);
    && At(g, m.row + 1, m.col + 2).Ok?
    && At(g, m.row + 1, m.col + 2).value !in {GOOMBA, FLY}
    && At(g, m.row, m.col + 2) == Ok(KOOPA)
  }

  function EntityRespondX(g: Grid): (r: Result<Action>)
    requires Rectangular(g)
    ensures Finished(g) ==> r == Ok(X_DEFAULT)
    ensures WellShaped(g) ==> r.Ok?
    ensures r.Ok? ==> r.value in {JUMP_RIGHT, Single(BUTTON_A), Single(RIGHT_ARROW)}
    ensures r == Ok(Single(BUTTON_A)) <==> !Finished(g) && KoopaAhead(g)
  {
    var m := FindMario(g);
    if m.col > FINISH_COLUMN then Ok(X_DEFAULT)
    else
      // the first iteration of `range(marioX+2, marioX+5)`; each of the two cells is
      // read the first time a test needs it, later tests re-read the same value
      var c := m.col + 2;
      var below :- At(g, m.row + 1, c);
      if below == GOOMBA then Ok(JUMP_RIGHT)
      else
        var level :- At(g, m.row, c);
        if level == ARCHER then Ok(JUMP_RIGHT)
        else if below == FLY then Ok(JUMP_RIGHT)
        else if level == KOOPA then Ok(Single(BUTTON_A))
        else if level == PIPE then Ok(JUMP_RIGHT)
        else if below == GROUND then Ok(JUMP_RIGHT)
        else if below == EMPTY then Ok(Single(RIGHT_ARROW))
        else Ok(X_DEFAULT)
  }

  /** The vertical rules in priority order; every rule sets the override flag, only
      the two GOOMBA rules restart the override window. */
  const Y_RULES: seq<Rule<YResponse>> := [
    Rule(Probe(Relative(-3), 3, GOOMBA), YResponse(Combo([LEFT_ARROW, RIGHT_ARROW]), true, true)),
    Rule(Probe(Relative(-3), 2, GOOMBA), YResponse(Single(LEFT_ARROW), true, true)),
    Rule(Probe(Absolute(11), 4, FLY), YResponse(JUMP_RIGHT, true, false)),
    Rule(Probe(Absolute(15), 2, EMPTY), YResponse(JUMP_RIGHT, true, false)),
    Rule(Probe(Relative(-3), 3, GROUND), YResponse(JUMP_RIGHT, true, false))
  ]

  /** The horizontal rules in priority order, each read anew as `entityRespondX` re-reads its cells. */
  const X_RULES: seq<Rule<Action>> := [
    Rule(Probe(Relative(1), 2, GOOMBA), JUMP_RIGHT),
    Rule(Probe(Relative(0), 2, ARCHER), JUMP_RIGHT),
    Rule(Probe(Relative(1), 2, FLY), JUMP_RIGHT),
    Rule(Probe(Relative(0), 2, KOOPA), Single(BUTTON_A)),
    Rule(Probe(Relative(0), 2, PIPE), JUMP_RIGHT),
    Rule(Probe(Relative(1), 2, GROUND), JUMP_RIGHT),
    Rule(Probe(Relative(1), 2, EMPTY), Single(RIGHT_ARROW))
  ]

  /** The Y chain is first-match evaluation of Y_RULES, behind the end-of-level guard. */
  lemma EntityRespondYFollowsRules(g: Grid)
    requires Rectangular(g)
    ensures EntityRespondY(g) ==
            if Finished(g) then Ok(Y_DEFAULT) else FirstMatch(g, FindMario(g), Y_RULES, Y_DEFAULT, 0)
  {
    var m := FindMario(g);
    if !Finished(g) {
      var rs := Y_RULES;
      var i := m.row - 3;
      var ahead3, ahead2 := At(g, i, m.col + 3), At(g, i, m.col + 2);
      var fly, hole := At(g, 11, m.col + 4), At(g, 15, m.col + 2);
      FirstMatchStep(g, m, rs, Y_DEFAULT, 4);
      FirstMatchStep(g, m, rs, Y_DEFAULT, 3);
      FirstMatchStep(g, m, rs, Y_DEFAULT, 2);
      FirstMatchStep(g, m, rs, Y_DEFAULT, 1);
      FirstMatchStep(g, m, rs, Y_DEFAULT, 0);
      assert Look(g, m, rs[0].probe) == ahead3 && Look(g, m, rs[4].probe) == ahead3;
      assert Look(g, m, rs[1].probe) == ahead2;
      assert Look(g, m, rs[2].probe) == fly && Look(g, m, rs[3].probe) == hole;
    }
  }

  /** The X chain is first-match evaluation of X_RULES, behind the end-of-level guard. */
  lemma EntityRespondXFollowsRules(g: Grid)
    requires Rectangular(g)
    ensures EntityRespondX(g) ==
            if Finished(g) then Ok(X_DEFAULT) else FirstMatch(g, FindMario(g), X_RULES, X_DEFAULT, 0)
  {
    var m := FindMario(g);
    if !Finished(g) {
      var rs := X_RULES;
      var below, level := At(g, m.row + 1, m.col + 2), At(g, m.row, m.col + 2);
      FirstMatchStep(g, m, rs, X_DEFAULT, 6);
      FirstMatchStep(g, m, rs, X_DEFAULT, 5);
      FirstMatchStep(g, m, rs, X_DEFAULT, 4);
      FirstMatchStep(g, m, rs, X_DEFAULT, 3);
      FirstMatchStep(g, m, rs, X_DEFAULT, 2);
      FirstMatchStep(g, m, rs, X_DEFAULT, 1);
      FirstMatchStep(g, m, rs, X_DEFAULT, 0);
      assert Look(g, m, rs[0].probe) == below && Look(g, m, rs[2].probe) == below;
      assert Look(g, m, rs[5].probe) == below && Look(g, m, rs[6].probe) == below;
      assert Look(g, m, rs[1].probe) == level && Look(g, m, rs[3].probe) == level;
      assert Look(g, m, rs[4].probe) == level;
    }
  }

  /** First match wins: the first Y rule that fires decides, whatever later rules would say. */
  lemma EntityRespondYPriority(g: Grid, k: int)
    requires Rectangular(g) && !Finished(g)
    requires FirstFiring(g, FindMario(g), Y_RULES, 0, k)
    ensures EntityRespondY(g) == Ok(Y_RULES[k].decision)
  {
    EntityRespondYFollowsRules(g);
  }

  /** The override flag is set exactly when one of the five Y rules fired. */
  lemma OverrideFlagIffRuleFired(g: Grid)
    requires Rectangular(g) && EntityRespondY(g).Ok?
    ensures EntityRespondY(g).value.overrideFlag <==>
            !Finished(g) && exists k :: 0 <= k < |Y_RULES| && Fires(g, FindMario(g), Y_RULES[k])
  {
    EntityRespondYFollowsRules(g);
    var m := FindMario(g);
    if !Finished(g) && exists k :: 0 <= k < |Y_RULES| && Fires(g, m, Y_RULES[k]) {
      var k :| 0 <= k < |Y_RULES| && Fires(g, m, Y_RULES[k]);
      assert !AllPass(g, m, Y_RULES, 0);
    }
  }

  /** `initialStep` is reset exactly when one of the two GOOMBA rules fired. */
  lemma RestartIffGoomba(g: Grid)
    requires Rectangular(g) && EntityRespondY(g).Ok?
    ensures var m := FindMario(g);
            EntityRespondY(g).value.restartsTimer <==>
              !Finished(g) && (At(g, m.row - 3, m.col + 3) == Ok(GOOMBA) || At(g, m.row - 3, m.col + 2) == Ok(GOOMBA))
  {
  }

  /** Given the marker position, the Y chain reads four cells and nothing else. */
  lemma EntityRespondYReadsOnlyProbes(g: Grid, g': Grid)
    requires Rectangular(g) && Rectangular(g')
    requires FindMario(g) == FindMario(g')
    requires var m := FindMario(g);
             && At(g, m.row - 3, m.col + 3) == At(g', m.row - 3, m.col + 3)
             && At(g, m.row - 3, m.col + 2) == At(g', m.row - 3, m.col + 2)
             && At(g, 11, m.col + 4) == At(g', 11, m.col + 4)
             && At(g, 15, m.col + 2) == At(g', 15, m.col + 2)
    ensures EntityRespondY(g) == EntityRespondY(g')
  {
  }

  /** Read (i, j) addresses the cell (r, c) once Python's negative indexes are resolved. */
  predicate Addresses(g: Grid, i: int, j: int, r: int, c: int) {
    InPyRange(i, Rows(g)) && InPyRange(j, Cols(g)) && PyIndex(i, Rows(g)) == r && PyIndex(j, Cols(g)) == c
  }

  /** Changing any cell the Y chain does not read, to anything but the marker, and that
      was not the marker, leaves its result unchanged. */
  lemma EntityRespondYIgnoresOtherCells(g: Grid, r: int, c: int, v: int)
    requires Rectangular(g)
    requires 0 <= r < Rows(g) && 0 <= c < Cols(g)
    requires g[r][c] != MARIO && v != MARIO
    requires var m := FindMario(g);
             && !Addresses(g, m.row - 3, m.col + 3, r, c)
             && !Addresses(g, m.row - 3, m.col + 2, r, c)
             && !Addresses(g, 11, m.col + 4, r, c)
             && !Addresses(g, 15, m.col + 2, r, c)
    ensures EntityRespondY(Update(g, r, c, v)) == EntityRespondY(g)
  {
    var g' := Update(g, r, c, v);
    var m := FindMario(g);
    FindMarioUpdate(g, r, c, v);
    AtUpdateOther(g, r, c, v, m.row - 3, m.col + 3);
    AtUpdateOther(g, r, c, v, m.row - 3, m.col + 2);
    AtUpdateOther(g, r, c, v, 11, m.col + 4);
    AtUpdateOther(g, r, c, v, 15, m.col + 2);
    EntityRespondYReadsOnlyProbes(g', g);
  }

  /** Given the marker position, the X chain reads only column marker + 2, on the
      marker row and the row below. */
  lemma EntityRespondXReadsOnlyProbes(g: Grid, g': Grid)
    requires Rectangular(g) && Rectangular(g')
    requires FindMario(g) == FindMario(g')
    requires var m := FindMario(g);
             && At(g, m.row, m.col + 2) == At(g', m.row, m.col + 2)
             && At(g, m.row + 1, m.col + 2) == At(g', m.row + 1, m.col + 2)
    ensures EntityRespondX(g) == EntityRespondX(g')
  {
  }

  /** ARCHER and PIPE are the same tile id, so the PIPE rule never decides. */
  lemma PipeRuleNeverFires(g: Grid)
    requires Rectangular(g)
    ensures !FirstFiring(g, FindMario(g), X_RULES, 0, 4)
  {
    Shadowed(g, FindMario(g), X_RULES, 1, 4);
  }
}
