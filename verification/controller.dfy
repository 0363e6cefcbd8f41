/** The part of `MarioController.run_action` the agent depends on: how an action is
    normalised and remembered in `prevActions`, and the press / hold / release
    sequence it sends to the emulator, as an abstract trace of events. */
module Controller {
  import opened Grid
  import opened Tiles

  /** Emulator ticks a press is held (the controller's default `act_freq`, which the
      agent does not override). */
  const ACT_FREQ: nat := 7

  datatype Button = Down | Left | Right | Up | A | B

  /** The press table, indexed by button code; the release table lists the same
      buttons in the same order. */
  const VALID_ACTIONS: seq<Button> := [Down, Left, Right, Up, A, B]

  datatype Event = Press(button: Button) | Tick | Release(button: Button)

  /** The value held in `prevActions`: a tuple (the initial `(0,0)`, or a tuple action
      stored as it is) or a list (a bare int wrapped as `[a]`). */
  datatype Stored = StoredTuple(items: seq<int>) | StoredList(items: seq<int>)

  /** `prevActions` before any action has run. */
  const INITIAL_PREV: Stored := StoredTuple([0, 0])

  /** `run_action`'s bookkeeping: a bare int becomes a one-element list, a tuple is kept. */
  function Store(a: Action): (p: Stored)
    ensures p.items == Buttons(a)
    ensures p.StoredList? <==> a.Single?
  {
    match a
    case Single(c) => StoredList([c])
    case Combo(cs) => StoredTuple(cs)
  }

  /** Python's `prevActions == action`: tuples compare element-wise, while a list never
      equals a tuple or an int, and a tuple never equals an int. */
  predicate PyEq(p: Stored, a: Action) {
    p.StoredTuple? && a.Combo? && p.items == a.codes
  }

  /** A remembered action equals a new one exactly when both are the same tuple;
      a repeated bare int never compares equal. */
  lemma StoredEqualsOnlyRepeatedCombo(x: Action, y: Action)
    ensures PyEq(Store(x), y) <==> x.Combo? && x == y
  {
  }

  function ButtonOf(code: int): Button
    requires -6 <= code < 6
  {
    VALID_ACTIONS[PyIndex(code, 6)]
  }

  function ButtonSet(bs: seq<int>): set<Button>
    requires ValidCodes(bs)
  {
    if bs == [] then {} else {ButtonOf(bs[0])} + ButtonSet(bs[1..])
  }

  function Presses(bs: seq<int>): (es: seq<Event>)
    requires ValidCodes(bs)
    ensures |es| == |bs|
    ensures forall k :: 0 <= k < |bs| ==> es[k] == Press(ButtonOf(bs[k]))
  {
    if bs == [] then [] else [Press(ButtonOf(bs[0]))] + Presses(bs[1..])
  }

  function Releases(bs: seq<int>): (es: seq<Event>)
    requires ValidCodes(bs)
    ensures |es| == |bs|
    ensures forall k :: 0 <= k < |bs| ==> es[k] == Release(ButtonOf(bs[k]))
  {
    if bs == [] then [] else [Release(ButtonOf(bs[0]))] + Releases(bs[1..])
  }

  function Ticks(n: nat): seq<Event> {
    seq(n, _ => Tick)
  }

  /** `run_action`: press every button of the action, hold for ACT_FREQ ticks, release
      every button. A tuple presses its buttons together; it is not a repeat count. */
  function RunAction(a: Action): (events: seq<Event>)
    requires ValidAction(a)
    ensures |events| == 2 * |Buttons(a)| + ACT_FREQ
    ensures TickCount(events) == ACT_FREQ
    ensures var bs := Buttons(a);
            forall k :: 0 <= k < |bs| ==>
              events[k] == Press(ButtonOf(bs[k])) && events[|bs| + ACT_FREQ + k] == Release(ButtonOf(bs[k]))
    ensures forall k :: |Buttons(a)| <= k < |Buttons(a)| + ACT_FREQ ==> events[k] == Tick
  {
    var bs := Buttons(a);
    HeldAfterPresses({}, bs);
    HeldAfterTicks({}, ACT_FREQ);
    HeldAfterReleases({}, bs);
    HeldAfterAppend({}, Presses(bs), Ticks(ACT_FREQ));
    HeldAfterAppend({}, Presses(bs) + Ticks(ACT_FREQ), Releases(bs));
    Presses(bs) + Ticks(ACT_FREQ) + Releases(bs)
  }

  /** The set of buttons held down after a sequence of events, starting from `held`. */
  function HeldAfter(held: set<Button>, es: seq<Event>): set<Button>
    decreases |es|
  {
    if es == [] then held
    else
      var next := match es[0]
        case Press(b) => held + {b}
        case Release(b) => held - {b}
        case Tick => held;
      HeldAfter(next, es[1..])
  }

  function TickCount(es: seq<Event>): nat {
    if es == [] then 0 else (if es[0] == Tick then 1 else 0) + TickCount(es[1..])
  }

  lemma {:induction false} HeldAfterAppend(held: set<Button>, p: seq<Event>, q: seq<Event>)
    ensures HeldAfter(held, p + q) == HeldAfter(HeldAfter(held, p), q)
    ensures TickCount(p + q) == TickCount(p) + TickCount(q)
    decreases |p|
  {
    if p == [] {
      assert p + q == q;
    } else {
      assert (p + q)[0] == p[0];
      assert (p + q)[1..] == p[1..] + q;
      var next := match p[0]
        case Press(b) => held + {b}
        case Release(b) => held - {b}
        case Tick => held;
      HeldAfterAppend(next, p[1..], q);
    }
  }

  lemma {:induction false} HeldAfterPresses(held: set<Button>, bs: seq<int>)
    requires ValidCodes(bs)
    ensures HeldAfter(held, Presses(bs)) == held + ButtonSet(bs)
    ensures TickCount(Presses(bs)) == 0
    decreases |bs|
  {
    if bs != [] {
      assert ValidCodes(bs[1..]);
      HeldAfterPresses(held + {ButtonOf(bs[0])}, bs[1..]);
    }
  }

  lemma {:induction false} HeldAfterReleases(held: set<Button>, bs: seq<int>)
    requires ValidCodes(bs)
    ensures HeldAfter(held, Releases(bs)) == held - ButtonSet(bs)
    ensures TickCount(Releases(bs)) == 0
    decreases |bs|
  {
    if bs != [] {
      assert ValidCodes(bs[1..]);
      HeldAfterReleases(held - {ButtonOf(bs[0])}, bs[1..]);
    }
  }

  lemma {:induction false} HeldAfterTicks(held: set<Button>, n: nat)
    ensures HeldAfter(held, Ticks(n)) == held
    ensures TickCount(Ticks(n)) == n
  {
    if n > 0 {
      assert Ticks(n)[1..] == Ticks(n - 1);
      HeldAfterTicks(held, n - 1);
    }
  }

  /** Every button of the action is held down, all together, during each of the
      ACT_FREQ ticks, whatever the number of buttons; afterwards none is held. */
  lemma RunActionHoldsButtonsTogether(a: Action)
    requires ValidAction(a)
    ensures var bs, es := Buttons(a), RunAction(a);
            && TickCount(es) == ACT_FREQ
            && (forall k :: |bs| <= k < |bs| + ACT_FREQ ==> es[k] == Tick && HeldAfter({}, es[..k]) == ButtonSet(bs))
            && HeldAfter({}, es) == {}
  {
    var bs, es := Buttons(a), RunAction(a);
    var ps, rs := Presses(bs), Releases(bs);
    HeldAfterPresses({}, bs);
    HeldAfterReleases(ButtonSet(bs), bs);
    HeldAfterTicks(ButtonSet(bs), ACT_FREQ);
    HeldAfterAppend({}, ps, Ticks(ACT_FREQ));
    HeldAfterAppend({}, ps + Ticks(ACT_FREQ), rs);
    assert es == (ps + Ticks(ACT_FREQ)) + rs;
    assert HeldAfter({}, ps) == ButtonSet(bs);
    assert HeldAfter({}, ps + Ticks(ACT_FREQ)) == ButtonSet(bs);
    assert HeldAfter({}, es) == HeldAfter(ButtonSet(bs), rs) == {};
    forall k | |bs| <= k < |bs| + ACT_FREQ
      ensures es[k] == Tick
      ensures HeldAfter({}, es[..k]) == ButtonSet(bs)
    {
      assert es[..k] == ps + Ticks(k - |bs|) by {
        assert forall i :: 0 <= i < k ==> es[..k][i] == (ps + Ticks(k - |bs|))[i];
      }
      HeldAfterTicks(ButtonSet(bs), k - |bs|);
      HeldAfterAppend({}, ps, Ticks(k - |bs|));
      assert es[k] == Ticks(ACT_FREQ)[k - |bs|];
      assert HeldAfter({}, ps) == ButtonSet(bs);
      assert HeldAfter({}, ps + Ticks(k - |bs|)) == HeldAfter(ButtonSet(bs), Ticks(k - |bs|));
    }
  }
}
