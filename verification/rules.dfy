/** A reference reading of the agent's if-chains: an ordered table of rules, each
    probing one cell at a fixed offset from the marker for one tile id, evaluated
    first-match-wins with lazy reads (a rule after the first match is never read,
    so its cell cannot raise). */
module Rules {
  import opened Outcome
  import opened Grid
  import opened Locate

  /** A probed row: an offset from the marker row, or a hard-coded row number. */
  datatype RowRef = Relative(dRow: int) | Absolute(row: int)

  /** Look at (row, marker column + dCol) and test for `tile`. */
  datatype Probe = Probe(row: RowRef, dCol: int, tile: int)

  datatype Rule<D> = Rule(probe: Probe, decision: D)

  function RowOf(row: RowRef, at: Pos): int {
    match row
    case Relative(d) => at.row + d
    case Absolute(r) => r
  }

  /** The cell value a probe reads, or IndexError. */
  function Look(g: Grid, at: Pos, p: Probe): Result<int> {
    At(g, RowOf(p.row, at), at.col + p.dCol)
  }

  predicate Fires<D>(g: Grid, at: Pos, rule: Rule<D>) {
    Look(g, at, rule.probe) == Ok(rule.probe.tile)
  }

  /** The probe's cell was read and does not hold the tile: evaluation moves on. */
  predicate Passes<D>(g: Grid, at: Pos, rule: Rule<D>) {
    Look(g, at, rule.probe).Ok? && !Fires(g, at, rule)
  }

  /** Rule k is the first of rules[from..] that fires. */
  predicate FirstFiring<D>(g: Grid, at: Pos, rules: seq<Rule<D>>, from: nat, k: int) {
    from <= k < |rules| && Fires(g, at, rules[k]) &&
    forall j :: from <= j < k ==> Passes(g, at, rules[j])
  }

  /** Rule k is reached and its read raises. */
  predicate FirstFailing<D>(g: Grid, at: Pos, rules: seq<Rule<D>>, from: nat, k: int) {
    from <= k < |rules| && Look(g, at, rules[k].probe).IndexError? &&
    forall j :: from <= j < k ==> Passes(g, at, rules[j])
  }

  predicate AllPass<D>(g: Grid, at: Pos, rules: seq<Rule<D>>, from: nat) {
    forall j :: from <= j < |rules| ==> Passes(g, at, rules[j])
  }

  /** Evaluate rules[from..] in order: the first rule that fires decides, a failing
      read raises, and when every rule passes the fallback decides. */
  function FirstMatch<D>(g: Grid, at: Pos, rules: seq<Rule<D>>, fallback: D, from: nat): (r: Result<D>)
    requires from <= |rules|
    ensures forall k :: FirstFiring(g, at, rules, from, k) ==> r == Ok(rules[k].decision)
    ensures AllPass(g, at, rules, from) ==> r == Ok(fallback)
    ensures r.IndexError? <==> exists k :: FirstFailing(g, at, rules, from, k)
    ensures r.Ok? ==> AllPass(g, at, rules, from) || exists k :: FirstFiring(g, at, rules, from, k)
    decreases |rules| - from
  {
    if from == |rules| then Ok(fallback)
    else
      match Look(g, at, rules[from].probe)
      case IndexError =>
        assert FirstFailing(g, at, rules, from, from);
        IndexError
      case Ok(v) =>
        if v == rules[from].probe.tile then
          assert FirstFiring(g, at, rules, from, from);
          Ok(rules[from].decision)
        else
          var next := from + 1;
          assert Passes(g, at, rules[from]);
          assert forall k :: FirstFailing(g, at, rules, from, k) <==> FirstFailing(g, at, rules, next, k);
          assert forall k :: FirstFiring(g, at, rules, from, k) <==> FirstFiring(g, at, rules, next, k);
          FirstMatch(g, at, rules, fallback, next)
  }

  /** One step of first-match evaluation: read rule `from`'s cell, then decide or move on. */
  lemma FirstMatchStep<D>(g: Grid, at: Pos, rules: seq<Rule<D>>, fallback: D, from: nat)
    requires from < |rules|
    ensures var v := Look(g, at, rules[from].probe);
            FirstMatch(g, at, rules, fallback, from) ==
              if v.IndexError? then IndexError
              else if v.value == rules[from].probe.tile then Ok(rules[from].decision)
              else FirstMatch(g, at, rules, fallback, from + 1)
  {
  }

  /** First-match evaluation depends on nothing but the probed cells. */
  lemma {:induction false} FirstMatchFrame<D>(g: Grid, g': Grid, at: Pos, rules: seq<Rule<D>>, fallback: D, from: nat)
    requires from <= |rules|
    requires forall k :: from <= k < |rules| ==> Look(g, at, rules[k].probe) == Look(g', at, rules[k].probe)
    ensures FirstMatch(g, at, rules, fallback, from) == FirstMatch(g', at, rules, fallback, from)
    decreases |rules| - from
  {
    if from < |rules| {
      FirstMatchFrame(g, g', at, rules, fallback, from + 1);
    }
  }

  /** A rule that probes the same cell for the same tile as an earlier rule can never
      be the first to fire. */
  lemma Shadowed<D>(g: Grid, at: Pos, rules: seq<Rule<D>>, i: nat, k: nat)
    requires i < k < |rules|
    requires rules[i].probe == rules[k].probe
    ensures !FirstFiring(g, at, rules, 0, k)
  {
  }
}
