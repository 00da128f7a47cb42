/**
 * Per-face load statistics `LoadStatsFace`
 * (extensions/stats/load-stats-face.h, extensions/stats/load-stats-face.cc):
 * a pair of decayed counters, the number of Interests forwarded on behalf of
 * the face (`count`) and the number of them that timed out (`unsatisfied`).
 *
 * The source keeps this object by value inside a `std::map`, so updating it in
 * place and replacing it by its updated value are the same thing; the model
 * uses values.
 */
module LoadStatsFace {
  import opened LoadStats

  /** Smoothing factor of the unsatisfied counter: 1/8. */
  const UnsatisfiedAlpha: real := 0.125

  /**
   * Smoothing factor of the forwarded counter: 1/64. (The comment beside it in
   * the source says 1/32, which is the value of the commented-out line below it.)
   */
  const CountAlpha: real := 0.015625

  datatype LoadStatsFace = LoadStatsFace(count: LoadStats, unsatisfied: LoadStats)
  {
    /** `LoadStatsFace::Step`: one smoothing step of each counter, with its own factor. */
    function Step(): (r: LoadStatsFace)
      ensures StepsOf(r.count) == StepsOf(count) + [CountAlpha]
      ensures StepsOf(r.unsatisfied) == StepsOf(unsatisfied) + [UnsatisfiedAlpha]
      ensures IncrementsOf(r.count) == IncrementsOf(count)
      ensures IncrementsOf(r.unsatisfied) == IncrementsOf(unsatisfied)
      ensures r.count.Stepped? && r.count.before == count
      ensures r.unsatisfied.Stepped? && r.unsatisfied.before == unsatisfied
    {
      LoadStatsFace(Stepped(count, CountAlpha), Stepped(unsatisfied, UnsatisfiedAlpha))
    }

    /**
     * `LoadStatsFace::operator +=`: each counter of `load` is added into the
     * counter of the same kind; the two kinds are never mixed.
     */
    function Plus(load: LoadStatsFace): (r: LoadStatsFace)
      ensures r.count.Accumulated? && r.count.before == count && r.count.added == load.count
      ensures r.unsatisfied.Accumulated? && r.unsatisfied.before == unsatisfied
      ensures r.unsatisfied.added == load.unsatisfied
      ensures StepsOf(r.count) == StepsOf(count) && StepsOf(r.unsatisfied) == StepsOf(unsatisfied)
    {
      LoadStatsFace(Accumulated(count, load.count), Accumulated(unsatisfied, load.unsatisfied))
    }

    /** `count ()++`: one more forwarded Interest; `unsatisfied` is untouched. */
    function CountOne(): (r: LoadStatsFace)
      ensures IncrementsOf(r.count) == IncrementsOf(count) + 1
      ensures StepsOf(r.count) == StepsOf(count)
      ensures r.count.Incremented? && r.count.before == count
      ensures r.unsatisfied == unsatisfied
    {
      LoadStatsFace(Incremented(count), unsatisfied)
    }

    /** `unsatisfied ()++`: one more timed-out Interest; `count` is untouched. */
    function UnsatisfiedOne(): (r: LoadStatsFace)
      ensures IncrementsOf(r.unsatisfied) == IncrementsOf(unsatisfied) + 1
      ensures StepsOf(r.unsatisfied) == StepsOf(unsatisfied)
      ensures r.unsatisfied.Incremented? && r.unsatisfied.before == unsatisfied
      ensures r.count == count
    {
      LoadStatsFace(count, Incremented(unsatisfied))
    }

    /** `LoadStatsFace::IsZero`: both counters are zero. */
    predicate IsZero(zero: ZeroTest)
      ensures IsZero(zero) ==> zero(count) && zero(unsatisfied)
      ensures !IsZero(zero) ==> !zero(count) || !zero(unsatisfied)
    {
      zero(count) && zero(unsatisfied)
    }
  }

  /** A default-constructed `LoadStatsFace`, as `std::map::operator []` creates it. */
  const Fresh: LoadStatsFace := LoadStatsFace(Initial, Initial)

}
