/**
 * The press-and-drag demographic picker of one counter button
 * (src/components/CounterApp/DraggableCounterButton.tsx:39-152): the six-entry
 * option table, its labels, the drag-position clamp and the small
 * press/move/release state machine. Clock readings and pointer positions
 * are parameters; DOM geometry and listeners are not modelled.
 */
module DragButton {
  import opened Wrappers
  import opened Domain
  import opened CounterData
  import opened CounterState

  /** `demographicOptions`: female first, then male, each young, young adult, mature. */
  const Options: seq<Tag> := [
    Tag(Female, Young), Tag(Female, YoungAdult), Tag(Female, Mature),
    Tag(Male, Young), Tag(Male, YoungAdult), Tag(Male, Mature)]

  const AgeOrder: seq<AgeGroup> := [Young, YoungAdult, Mature]

  /** Where a tag sits in the table: three slots per gender, female first, in age order. */
  function IndexOf(t: Tag): (i: nat)
    ensures i < |Options| && Options[i] == t
  {
    (if t.gender == Female then 0 else 3) +
    (match t.ageGroup case Young => 0 case YoungAdult => 1 case Mature => 2)
  }

  /** The table has six entries, indices 0-2 female and 3-5 male, each in age order; every tag appears exactly once. */
  lemma OptionTable()
    ensures |Options| == 6 && Options[1] == FemaleYoungAdult
    ensures forall i :: 0 <= i < 6 ==>
              Options[i].gender == (if i < 3 then Female else Male) && Options[i].ageGroup == AgeOrder[i % 3]
    ensures forall i :: 0 <= i < 6 ==> IndexOf(Options[i]) == i
    ensures forall t: Tag :: t in Options
  {
    forall t: Tag ensures t in Options {
      assert Options[IndexOf(t)] == t;
    }
  }

  /** `demographicOptions[i]`: `undefined` outside the table. */
  function OptionAt(i: int): (r: Option<Tag>)
    ensures r.Some? <==> 0 <= i < |Options|
    ensures r.Some? ==> r.value == Options[i]
  {
    if 0 <= i < |Options| then Some(Options[i]) else None
  }

  /** `getDefaultOption`: the table entry at the index, or female young adult when the index is outside the table. */
  function DefaultOption(i: int): (t: Tag)
    ensures 0 <= i < 6 ==> t == Options[i]
    ensures !(0 <= i < 6) ==> t == FemaleYoungAdult
  {
    OptionAt(i).GetOr(Options[1])
  }

  /** `getOptionText`: one character for the gender and one for the age group. */
  function OptionText(t: Tag): (r: (char, char))
    ensures r.0 == (if t.gender == Male then '男' else '女')
    ensures r.1 == (if t.ageGroup == Young then '少' else if t.ageGroup == YoungAdult then '青' else '老')
  {
    var gender := if t.gender == Male then '男' else '女';
    var age := match t.ageGroup case Young => '少' case YoungAdult => '青' case Mature => '老';
    (gender, age)
  }

  /** The six options carry six different labels, so the label identifies the tag. */
  lemma OptionTextsDistinct()
    ensures forall i, j :: 0 <= i < j < |Options| ==> OptionText(Options[i]) != OptionText(Options[j])
    ensures forall a: Tag, b: Tag :: OptionText(a) == OptionText(b) ==> a == b
  {
  }

  /** `Math.max(0, Math.min(5, k))`. */
  function Clamp(k: int): (r: int)
    ensures 0 <= r <= 5
    ensures 0 <= k <= 5 ==> r == k
    ensures k > 5 ==> r == 5
    ensures k < 0 ==> r == 0
  {
    if k < 0 then 0 else if k > 5 then 5 else k
  }

  /** The option a pointer update selects: none yet, a table index, or `NaN` (JavaScript's 0 / 0). */
  datatype Selected = NoSelection | Index(i: int) | NotANumber

  /**
   * The selection a pointer move makes, from its position relative to the
   * overlay: nothing outside the overlay, otherwise the sixth of the width it
   * falls in, clamped into the table. A zero-width overlay divides 0 by 0.
   */
  function DragSelection(relX: real, relY: real, width: real, height: real): (r: Option<Selected>)
    ensures r.Some? <==> 0.0 <= relX <= width && 0.0 <= relY <= height
    ensures r.Some? && width == 0.0 ==> r.value == NotANumber
    ensures r.Some? && width > 0.0 ==> r.value.Index? && 0 <= r.value.i <= 5
  {
    if !(0.0 <= relX <= width && 0.0 <= relY <= height) then None
    else if width == 0.0 then Some(NotANumber)
    else Some(Index(Clamp((relX / (width / 6.0)).Floor)))
  }

  /** Multiplying by a positive width preserves and reflects order. */
  lemma ScaleIff(a: real, b: real, w: real)
    requires w > 0.0
    ensures a < b <==> a * w < b * w
    ensures a <= b <==> a * w <= b * w
  {
    assert b * w - a * w == (b - a) * w;
  }

  /**
   * Inside the overlay the clamp never changes the section index, except at
   * the right edge, where the index 6 is pulled back to the last option.
   */
  lemma DragSelectionSection(relX: real, relY: real, width: real, height: real)
    requires 0.0 < width && 0.0 <= relX <= width && 0.0 <= relY <= height
    ensures var k := DragSelection(relX, relY, width, height).value.i;
            relX < width ==> k as real <= relX / (width / 6.0) < (k + 1) as real
    ensures relX == width ==> relX / (width / 6.0) == 6.0
    ensures relX == width ==> DragSelection(relX, relY, width, height) == Some(Index(5))
  {
    var y := width / 6.0;
    var x := relX / y;
    assert x * y == relX;
    ScaleIff(x, 0.0, y);
    ScaleIff(x, 6.0, y);
    ScaleIff(6.0, x, y);
    var f := x.Floor;
    if relX < width {
      assert 0 <= f <= 5;
    }
  }

  datatype Pointer = Mouse | Touch

  /** The button's gesture state: last accepted start, whether a touch was seen, press and overlay flags, the selection. */
  datatype Press = Press(lastEventTime: int, hasTouch: bool, pressed: bool, showSelection: bool, selected: Selected)

  /** The state on mount. */
  const Idle: Press := Press(0, false, false, false, NoSelection)

  /**
   * `handleStart` (reached through `handleMouseDown` or `handleTouchStart`):
   * a start within 100 ms of the last accepted one is dropped; once a touch
   * was seen, mouse starts are dropped; an accepted start opens the overlay
   * with the default index preselected.
   */
  function Start(p: Press, kind: Pointer, now: int, defaultIndex: int): (r: Press)
    ensures now - p.lastEventTime < 100 ==> r == p
    ensures kind == Mouse && p.hasTouch ==> r == p
    ensures now - p.lastEventTime >= 100 && (kind == Touch || !p.hasTouch) ==>
              r.lastEventTime == now && r.pressed && r.showSelection
              && r.selected == Index(defaultIndex) && (r.hasTouch <==> p.hasTouch || kind == Touch)
  {
    if now - p.lastEventTime < 100 then p
    else if kind == Mouse && p.hasTouch then p
    else Press(now, p.hasTouch || kind == Touch, true, true, Index(defaultIndex))
  }

  /** `handleMove`: while pressed with the overlay open, a position inside the overlay updates the selection. */
  function Move(p: Press, relX: real, relY: real, width: real, height: real): (r: Press)
    ensures !(p.pressed && p.showSelection) ==> r == p
    ensures r.lastEventTime == p.lastEventTime && r.hasTouch == p.hasTouch
    ensures r.pressed == p.pressed && r.showSelection == p.showSelection
    ensures p.pressed && p.showSelection ==>
              r.selected == (match DragSelection(relX, relY, width, height)
                             case None => p.selected
                             case Some(sel) => sel)
    ensures p.pressed && p.showSelection && 0.0 < width && 0.0 <= relX <= width && 0.0 <= relY <= height ==>
              r.selected.Index? && 0 <= r.selected.i <= 5
  {
    if !(p.pressed && p.showSelection) then p
    else
      match DragSelection(relX, relY, width, height)
      case None => p
      case Some(sel) => p.(selected := sel)
  }

  /** What a release does: the next gesture state, and the increment it requests with its tag, if it requests one. */
  datatype Release = Release(next: Press, fired: bool, tag: Option<Tag>)

  /**
   * `handleEnd`: while pressed with the overlay open, request an increment
   * tagged with the selected option, or the default index when nothing was
   * selected, looked up with no fallback; then close the overlay.
   */
  function End(p: Press, defaultIndex: int): (r: Release)
    ensures r.fired <==> p.pressed && p.showSelection
    ensures !r.fired ==> r.next == p && r.tag.None?
    ensures r.fired ==> !r.next.pressed && !r.next.showSelection && r.next.selected == NoSelection
    ensures r.next.hasTouch == p.hasTouch && r.next.lastEventTime == p.lastEventTime
    ensures r.fired && p.selected.Index? ==> r.tag == OptionAt(p.selected.i)
    ensures r.fired && p.selected.NoSelection? ==> r.tag == OptionAt(defaultIndex)
    ensures r.fired && p.selected.NotANumber? ==> r.tag.None?
  {
    if !(p.pressed && p.showSelection) then Release(p, false, None)
    else
      var tag := match p.selected
                 case NoSelection => OptionAt(defaultIndex)
                 case Index(i) => OptionAt(i)
                 case NotANumber => None;
      Release(p.(pressed := false, showSelection := false, selected := NoSelection), true, tag)
  }

  /** The 500 ms timer set on release or close: touch detection is forgotten. */
  function TouchTimeout(p: Press): (r: Press)
    ensures !r.hasTouch && r == p.(hasTouch := false)
  {
    p.(hasTouch := false)
  }

  /** `handleModalClose`: the overlay closes without any increment. */
  function Close(p: Press): (r: Press)
    ensures !r.pressed && !r.showSelection && r.selected == NoSelection
    ensures r.hasTouch == p.hasTouch && r.lastEventTime == p.lastEventTime
    ensures End(r, 0).fired == false
  {
    p.(pressed := false, showSelection := false, selected := NoSelection)
  }

  /** Within 100 ms of an accepted start every further start, mouse or touch, is dropped. */
  lemma StartDebounce(p: Press, k1: Pointer, t1: int, k2: Pointer, t2: int, i: int, j: int)
    requires t1 - p.lastEventTime >= 100 && (k1 == Touch || !p.hasTouch)
    requires t2 - t1 < 100
    ensures var q := Start(p, k1, t1, i);
            Start(q, k2, t2, j) == q
  {
  }

  /** After an accepted touch start, mouse starts are dropped at any time until the touch timer fires. */
  lemma TouchLocksOutMouse(p: Press, t1: int, t2: int, i: int, j: int)
    requires t1 - p.lastEventTime >= 100
    ensures var q := Start(p, Touch, t1, i);
            q.hasTouch && Start(q, Mouse, t2, j) == q
    ensures var q := TouchTimeout(End(Start(p, Touch, t1, i), i).next);
            t2 - t1 >= 100 ==> Start(q, Mouse, t2, j).pressed
  {
  }

  /**
   * A tap without dragging releases with the default index looked up with no
   * fallback: a table index gives its tag, and an out-of-range index passes
   * no tag, so the reducer records the current demographic.
   */
  lemma TapWithoutDrag(p: Press, kind: Pointer, t: int, i: int, st: State, s: Stage, now: int)
    requires t - p.lastEventTime >= 100 && (kind == Touch || !p.hasTouch)
    ensures var rel := End(Start(p, kind, t, i), i);
            && rel.fired
            && (0 <= i < 6 ==> rel.tag == Some(Options[i]))
            && (!(0 <= i < 6) ==>
                  rel.tag.None? &&
                  Step(st, Increment(s, rel.tag), now).counters.demographics.Get(s) ==
                  st.counters.demographics.Get(s) + [st.currentDemographic])
  {
  }

  /** A press, one drag inside a non-empty overlay and a release always tag the increment with a table option. */
  lemma DragAlwaysPicksTableOption(p: Press, kind: Pointer, t: int, i: int,
                                   relX: real, relY: real, width: real, height: real)
    requires t - p.lastEventTime >= 100 && (kind == Touch || !p.hasTouch)
    requires 0.0 < width && 0.0 <= relX <= width && 0.0 <= relY <= height
    ensures var rel := End(Move(Start(p, kind, t, i), relX, relY, width, height), i);
            rel.fired && rel.tag.Some? && rel.tag.value in Options
  {
    var q := Move(Start(p, kind, t, i), relX, relY, width, height);
    assert q.selected.Index? && 0 <= q.selected.i <= 5;
  }
}
