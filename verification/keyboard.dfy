/**
 * The keyboard shortcut decision of `handleKeyPress`
 * (src/components/CounterApp/KeyboardShortcuts.tsx:16-70) as a pure decoder
 * from the pressed key and the focused element to the increment it requests.
 */
module Keyboard {
  import opened Wrappers
  import opened Domain

  /** What the key event was aimed at. */
  datatype Target = InputElement | TextAreaElement | OtherElement

  /** The increment a shortcut requests. */
  datatype Shortcut = Shortcut(stage: Stage, tag: Tag)

  const MaleYoungAdult: Tag := Tag(Male, YoungAdult)

  /** The keyboard layout by column, one column per funnel stage. */
  const DigitKeys: string := "1234"
  const LowerKeys: string := "qwer"
  const UpperKeys: string := "QWER"

  /** `key` is one of the three keys of column `i`. */
  predicate InColumn(key: string, i: int) {
    0 <= i < 4 && (key == [DigitKeys[i]] || key == [LowerKeys[i]] || key == [UpperKeys[i]])
  }

  /**
   * `handleKeyPress`: nothing while typing in a form field; digits 1-4 count
   * a female young adult and q/w/e/r (either case) a male young adult, at
   * the stage of the key's column; any other key does nothing.
   */
  function Decode(key: string, target: Target): (r: Option<Shortcut>)
    ensures target != OtherElement ==> r.None?
    ensures (forall i :: 0 <= i < 4 ==> !InColumn(key, i)) ==> r.None?
    ensures forall i :: InColumn(key, i) && target == OtherElement ==>
              r == Some(Shortcut(Funnel[i], Tag(if key == [DigitKeys[i]] then Female else Male, YoungAdult)))
  {
    if target != OtherElement then None
    else
      assert key in {"1", "q", "Q"} ==> InColumn(key, 0);
      assert key in {"2", "w", "W"} ==> InColumn(key, 1);
      assert key in {"3", "e", "E"} ==> InColumn(key, 2);
      assert key in {"4", "r", "R"} ==> InColumn(key, 3);
      match key
      case "1" => Some(Shortcut(PassingBy, FemaleYoungAdult))
      case "2" => Some(Shortcut(Noticing, FemaleYoungAdult))
      case "3" => Some(Shortcut(Consulting, FemaleYoungAdult))
      case "4" => Some(Shortcut(Buying, FemaleYoungAdult))
      case "q" => Some(Shortcut(PassingBy, MaleYoungAdult))
      case "Q" => Some(Shortcut(PassingBy, MaleYoungAdult))
      case "w" => Some(Shortcut(Noticing, MaleYoungAdult))
      case "W" => Some(Shortcut(Noticing, MaleYoungAdult))
      case "e" => Some(Shortcut(Consulting, MaleYoungAdult))
      case "E" => Some(Shortcut(Consulting, MaleYoungAdult))
      case "r" => Some(Shortcut(Buying, MaleYoungAdult))
      case "R" => Some(Shortcut(Buying, MaleYoungAdult))
      case _ => None
  }

  /**
   * The digit and the letter of one column pick the same stage and differ
   * only in gender; upper and lower case letters decode alike.
   */
  lemma ColumnsAgree(i: int)
    requires 0 <= i < 4
    ensures var d := Decode([DigitKeys[i]], OtherElement);
            var l := Decode([LowerKeys[i]], OtherElement);
            && d.Some? && l.Some?
            && d.value.stage == l.value.stage == Funnel[i]
            && d.value.tag == FemaleYoungAdult && l.value.tag == MaleYoungAdult
    ensures Decode([UpperKeys[i]], OtherElement) == Decode([LowerKeys[i]], OtherElement)
  {
    assert InColumn([DigitKeys[i]], i) && InColumn([LowerKeys[i]], i) && InColumn([UpperKeys[i]], i);
    assert [DigitKeys[i]] != [LowerKeys[i]] && [DigitKeys[i]] != [UpperKeys[i]];
  }

  /** Every funnel stage is reachable from the keyboard with either gender. */
  lemma EveryStageHasShortcuts(s: Stage)
    ensures Decode([DigitKeys[Rank(s)]], OtherElement) == Some(Shortcut(s, FemaleYoungAdult))
    ensures Decode([LowerKeys[Rank(s)]], OtherElement) == Some(Shortcut(s, MaleYoungAdult))
  {
    ColumnsAgree(Rank(s));
  }
}
