/**
 * The entities every part of the counter shares: the ordered funnel stages,
 * the demographic tag (gender by age group) and a record holding one value
 * per stage.
 */
module Domain {

  /** The four funnel stages; the declaration order is the funnel order. */
  datatype Stage = PassingBy | Noticing | Consulting | Buying

  /** The stages in funnel order. */
  const Funnel: seq<Stage> := [PassingBy, Noticing, Consulting, Buying]

  /** Position of a stage in the funnel. */
  function Rank(s: Stage): (r: nat)
    ensures r < |Funnel| && Funnel[r] == s
  {
    match s
    case PassingBy => 0
    case Noticing => 1
    case Consulting => 2
    case Buying => 3
  }

  /** `a` comes at or before `b` in the funnel. */
  predicate AtOrBefore(a: Stage, b: Stage) {
    Rank(a) <= Rank(b)
  }

  datatype Gender = Male | Female

  datatype AgeGroup = Young | YoungAdult | Mature

  /** One demographic tag attached to a counted visitor. */
  datatype Tag = Tag(gender: Gender, ageGroup: AgeGroup)

  /** The tag used when nothing else is chosen: female, young adult. */
  const FemaleYoungAdult: Tag := Tag(Female, YoungAdult)

  /** One value per funnel stage (the source's objects keyed by stage name). */
  datatype PerStage<T> = PerStage(passingBy: T, noticing: T, consulting: T, buying: T) {

    function Get(s: Stage): T {
      match s
      case PassingBy => passingBy
      case Noticing => noticing
      case Consulting => consulting
      case Buying => buying
    }

    /** Replaces the value of one stage; every other stage keeps its value. */
    function Set(s: Stage, v: T): (r: PerStage<T>)
      ensures r.Get(s) == v
      ensures forall t :: t != s ==> r.Get(t) == Get(t)
    {
      match s
      case PassingBy => this.(passingBy := v)
      case Noticing => this.(noticing := v)
      case Consulting => this.(consulting := v)
      case Buying => this.(buying := v)
    }
  }

  /** The record holding `v` at every stage. */
  function Uniform<T>(v: T): (r: PerStage<T>)
    ensures forall s :: r.Get(s) == v
  {
    PerStage(v, v, v, v)
  }
}
