/**
 * The decayed counter `LoadStats` (extensions/stats/load-stats.h).
 *
 * `load-stats.cc`, where the smoothing is done, is not part of this model;
 * only the declaration of the class is followed. The model therefore
 * records which operations were applied to a counter and in which order,
 * and nothing else: a counter is the term built from the operations
 * `Step (alpha)`, `operator ++` and `operator +=` starting from a
 * default-constructed counter. Whether a counter `IsZero` and what its
 * current value (`GetStats ().get<0> ()`) is are supplied to the rest of
 * the model as functions on these terms.
 */
module LoadStats {

  datatype LoadStats =
    | Initial                                        // LoadStats ()
    | Incremented(before: LoadStats)                 // operator ++ (int)
    | Stepped(before: LoadStats, alpha: real)        // Step (alpha)
    | Accumulated(before: LoadStats, added: LoadStats) // operator += (const LoadStats &)

  /** `LoadStats::IsZero`, whose definition is not part of the model. */
  type ZeroTest = LoadStats -> bool

  /** `GetStats ().get<0> ()`, the current smoothed value. */
  type Readout = LoadStats -> real

  /** The smoothing factors applied to a counter, oldest first. */
  function StepsOf(c: LoadStats): (r: seq<real>)
  {
    match c
    case Initial => []
    case Incremented(b) => StepsOf(b)
    case Stepped(b, alpha) => StepsOf(b) + [alpha]
    case Accumulated(b, _) => StepsOf(b)
  }

  /** The number of increments a counter received directly (not through +=). */
  function IncrementsOf(c: LoadStats): (r: nat)
  {
    match c
    case Initial => 0
    case Incremented(b) => IncrementsOf(b) + 1
    case Stepped(b, _) => IncrementsOf(b)
    case Accumulated(b, _) => IncrementsOf(b)
  }

}
