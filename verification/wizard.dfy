/**
 * The collage form wizard: the step routing table and the reducer that moves
 * between steps (`steps`, `initialState` and `wizardReducer`).
 *
 * The step components are left out; only their `next` routes are kept.  The
 * settings record is a map from field to value, holding every field.
 */
module Wizard {
  import opened Wrappers

  const StepUsername: nat := 0
  const StepType: nat := 1
  const StepDuration: nat := 2
  const StepLayout: nat := 3
  const StepSelector: nat := 4
  const StepSize: nat := 5
  const StepOverlay: nat := 6
  const StepFixed: nat := 7
  const StepVarying: nat := 8
  /** The number of entries of `steps`. */
  const StepCount: nat := 9

  datatype Field = Username | Duration | RowCol | ShowName | CollageType | GridLayout | GridSize | ImageCount

  /** The values an UPDATE may carry. */
  datatype Value = Str(s: string) | Num(n: real) | Flag(b: bool) | Nums(ns: seq<real>) | Null

  type Settings = map<Field, Value>

  const AllFields: set<Field> := {Username, Duration, RowCol, ShowName, CollageType, GridLayout, GridSize, ImageCount}

  datatype WizardState = WizardState(settings: Settings, history: seq<nat>, currentIndex: nat, direction: int)

  datatype WizardAction = Update(field: Field, value: Value) | Next | Prev

  const InitialSettings: Settings := map[
    Username := Str(""), Duration := Str("7day"), RowCol := Nums([0.0, 0.0]), ShowName := Flag(false),
    CollageType := Null, GridLayout := Str("varying"), GridSize := Num(4.0), ImageCount := Num(1.0)]

  const InitialState: WizardState := WizardState(InitialSettings, [StepUsername], StepUsername, 0)

  function LayoutOf(settings: Settings): Value {
    if GridLayout in settings then settings[GridLayout] else Null
  }

  /** `steps[step].next(settings)`. */
  function Route(step: nat, settings: Settings): Option<nat>
    requires step < StepCount
  {
    if step == StepUsername then Some(StepType)
    else if step == StepType then Some(StepDuration)
    else if step == StepDuration then Some(StepLayout)
    else if step == StepLayout then
      (if LayoutOf(settings) == Str("fixed") then Some(StepSelector)
       else if LayoutOf(settings) == Str("varying") then Some(StepSize)
       else Some(StepSelector))
    else if step == StepSelector || step == StepSize then Some(StepOverlay)
    else if step == StepOverlay then
      (if LayoutOf(settings) == Str("fixed") then Some(StepFixed)
       else if LayoutOf(settings) == Str("varying") then Some(StepVarying)
       else Some(StepFixed))
    else None
  }

  /** `wizardReducer`.  NEXT reads `steps[currentIndex]`, so it needs a
      current index inside the table. */
  function Reduce(state: WizardState, action: WizardAction): WizardState
    requires action.Next? ==> state.currentIndex < StepCount
  {
    match action
    case Update(f, v) => state.(settings := state.settings[f := v])
    case Next =>
      var next := Route(state.currentIndex, state.settings);
      if next.None? || next.value == state.currentIndex then state
      else state.(history := state.history + [next.value], currentIndex := next.value,
                  direction := if next.value > state.currentIndex then 1 else -1)
    case Prev =>
      if |state.history| <= 1 then state
      else
        var newHistory := state.history[..|state.history| - 1];
        var newIndex := newHistory[|newHistory| - 1];
        state.(history := newHistory, currentIndex := newIndex,
               direction := if newIndex > state.currentIndex then 1 else -1)
  }

  // ---------------------------------------------------------------------
  // Routing

  /** The edges of the step graph. */
  function Successors(step: nat): set<nat> {
    if step == StepLayout then {StepSelector, StepSize}
    else if step == StepOverlay then {StepFixed, StepVarying}
    else if step == StepSelector || step == StepSize then {StepOverlay}
    else if step < StepLayout then {step + 1}
    else {}
  }

  /** Every route follows an edge of the step graph and moves forward; the
      two collage steps have no successor, and every other step has one. */
  lemma RouteFollowsGraph(step: nat, settings: Settings)
    requires step < StepCount
    ensures Route(step, settings).Some? <==> step != StepFixed && step != StepVarying
    ensures Route(step, settings).Some? ==>
      Route(step, settings).value in Successors(step) && step < Route(step, settings).value < StepCount
  {
  }

  /** The layout step branches to the grid selector for "fixed" (and for any
      unexpected layout) and to the size step for "varying"; the overlay step
      branches the same way to the two collage steps. */
  lemma RouteByLayout(settings: Settings)
    ensures Route(StepLayout, settings) == Some(StepSize) <==> LayoutOf(settings) == Str("varying")
    ensures Route(StepLayout, settings) == Some(StepSelector) <==> LayoutOf(settings) != Str("varying")
    ensures Route(StepOverlay, settings) == Some(StepVarying) <==> LayoutOf(settings) == Str("varying")
    ensures Route(StepOverlay, settings) == Some(StepFixed) <==> LayoutOf(settings) != Str("varying")
  {
  }

  /** The steps without a branch route the same way whatever the settings. */
  lemma RouteConstant(step: nat, a: Settings, b: Settings)
    requires step < StepCount && step != StepLayout && step != StepOverlay
    ensures Route(step, a) == Route(step, b)
  {
  }

  // ---------------------------------------------------------------------
  // The reducer, action by action

  /** UPDATE replaces one field of the settings and nothing else. */
  lemma UpdateOnlyField(s: WizardState, f: Field, v: Value)
    ensures var t := Reduce(s, Update(f, v));
      && f in t.settings && t.settings[f] == v
      && t.settings.Keys == s.settings.Keys + {f}
      && (forall g :: g in s.settings && g != f ==> t.settings[g] == s.settings[g])
      && t.history == s.history && t.currentIndex == s.currentIndex && t.direction == s.direction
  {
  }

  /** NEXT leaves the state alone exactly when the route is empty or points
      at the current step; otherwise it pushes the target, makes it current
      and records the direction of the move. */
  lemma NextBehaviour(s: WizardState)
    requires s.currentIndex < StepCount
    ensures var r, t := Route(s.currentIndex, s.settings), Reduce(s, Next);
      && (t == s <==> r.None? || r.value == s.currentIndex)
      && (t != s ==>
            && t.history == s.history + [r.value] && t.currentIndex == r.value
            && t.direction == (if r.value > s.currentIndex then 1 else -1)
            && t.settings == s.settings)
  {
  }

  /** PREV leaves the state alone exactly when the history has at most one
      entry; otherwise it pops the last entry and returns to the one before. */
  lemma PrevBehaviour(s: WizardState)
    ensures var t := Reduce(s, Prev);
      && (t == s <==> |s.history| <= 1)
      && (t != s ==>
            && |s.history| >= 2
            && t.history == s.history[..|s.history| - 1] && t.currentIndex == s.history[|s.history| - 2]
            && t.direction == (if s.history[|s.history| - 2] > s.currentIndex then 1 else -1)
            && t.settings == s.settings)
  {
    if |s.history| > 1 {
      assert |Reduce(s, Prev).history| < |s.history|;
    }
  }

  // ---------------------------------------------------------------------
  // The wizard invariant

  /** The history is a path through the step graph from the first step to
      the current one, and the settings hold every field. */
  ghost predicate WizardInv(s: WizardState) {
    && |s.history| >= 1
    && s.history[0] == StepUsername
    && s.history[|s.history| - 1] == s.currentIndex
    && (forall k :: 0 <= k < |s.history| ==> s.history[k] < StepCount)
    && (forall k :: 0 <= k < |s.history| - 1 ==> s.history[k + 1] in Successors(s.history[k]))
    && s.settings.Keys == AllFields
  }

  lemma InitialInv()
    ensures WizardInv(InitialState)
  {
  }

  /** Every action keeps the invariant (and NEXT is always allowed in a
      state that satisfies it). */
  lemma ReduceKeepsInv(s: WizardState, a: WizardAction)
    requires WizardInv(s)
    ensures s.currentIndex < StepCount
    ensures WizardInv(Reduce(s, a))
  {
    if a.Next? {
      RouteFollowsGraph(s.currentIndex, s.settings);
    }
    if a.Update? {
      match a.field
      case Username => case Duration => case RowCol => case ShowName =>
      case CollageType => case GridLayout => case GridSize => case ImageCount =>
    }
    if a.Prev? && |s.history| > 1 {
      var t := Reduce(s, a);
      assert t.history == s.history[..|s.history| - 1];
    }
  }

  /** The state after a sequence of actions from `s`. */
  function Run(s: WizardState, actions: seq<WizardAction>): (t: WizardState)
    requires WizardInv(s)
    ensures WizardInv(t)
    decreases |actions|
  {
    if |actions| == 0 then s
    else
      ReduceKeepsInv(s, actions[0]);
      Run(Reduce(s, actions[0]), actions[1..])
  }

  /** Every step of the history is followed by a later one: the wizard never
      revisits a step, so the history is strictly increasing. */
  lemma {:induction false} HistoryIncreasing(s: WizardState, i: nat, j: nat)
    requires WizardInv(s) && i < j < |s.history|
    ensures s.history[i] < s.history[j]
    decreases j - i
  {
    assert s.history[i + 1] in Successors(s.history[i]);
    if i + 1 < j {
      HistoryIncreasing(s, i + 1, j);
    }
  }

  /** In every reachable state the history holds at most one entry per step,
      NEXT moves forward (direction 1) and PREV moves back (direction -1). */
  lemma ReachableDirections(actions: seq<WizardAction>)
    ensures var s := Run(InitialState, actions);
      && |s.history| <= StepCount
      && (Reduce(s, Next) != s ==> Reduce(s, Next).direction == 1)
      && (Reduce(s, Prev) != s ==> Reduce(s, Prev).direction == -1)
  {
    InitialInv();
    var s := Run(InitialState, actions);
    HistoryBound(s);
    RouteFollowsGraph(s.currentIndex, s.settings);
    if |s.history| > 1 {
      HistoryIncreasing(s, |s.history| - 2, |s.history| - 1);
    }
  }

  /** A strictly increasing path below `StepCount` has at most `StepCount` entries. */
  lemma HistoryBound(s: WizardState)
    requires WizardInv(s)
    ensures |s.history| <= StepCount
  {
    forall k | 0 <= k < |s.history| ensures s.history[k] >= k {
      HistoryAtLeastIndex(s, k);
    }
  }

  lemma {:induction false} HistoryAtLeastIndex(s: WizardState, k: nat)
    requires WizardInv(s) && k < |s.history|
    ensures s.history[k] >= k
  {
    if k > 0 {
      HistoryAtLeastIndex(s, k - 1);
      HistoryIncreasing(s, k - 1, k);
    }
  }

  /** NEXT followed by PREV returns to the same step with the same history
      and settings, moving backwards. */
  lemma NextThenPrev(s: WizardState)
    requires WizardInv(s)
    requires s.currentIndex < StepCount && Reduce(s, Next) != s
    ensures var t := Reduce(Reduce(s, Next), Prev);
      t.history == s.history && t.currentIndex == s.currentIndex && t.settings == s.settings && t.direction == -1
  {
    NextBehaviour(s);
    RouteFollowsGraph(s.currentIndex, s.settings);
    var n := Reduce(s, Next);
    assert n.history[..|n.history| - 1] == s.history;
  }

  /** Starting from the initial settings ("varying"), six NEXTs walk
      username, type, duration, layout, size, overlay and the varying
      collage, and a further NEXT changes nothing. */
  lemma InitialPath()
    ensures var s1 := Reduce(InitialState, Next);
      var s2 := Reduce(s1, Next);
      var s3 := Reduce(s2, Next);
      var s4 := Reduce(s3, Next);
      var s5 := Reduce(s4, Next);
      var s6 := Reduce(s5, Next);
      s6.history == [0, 1, 2, 3, 5, 6, 8] && Reduce(s6, Next) == s6
  {
  }
}
