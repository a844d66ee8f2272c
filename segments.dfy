/**
 * The vocabulary shared by every part of the kernel: body codes, times,
 * position vectors, decoded segment records, lookup keys and the errors a
 * lookup or an evaluation can raise.
 */
module Segments {

  /** A NAIF body code. Code 0 is the solar-system barycenter, the root of the hierarchy. */
  type Code = int

  const Barycenter: Code := 0

  /** A time on the kernel's own time scale (TDB). The source uses floats; the model uses integers. */
  type Time = int

  /** A position vector; units are whatever the evaluator produces. */
  datatype Vec = Vec(x: real, y: real, z: real) {
    function Plus(o: Vec): Vec {
      Vec(x + o.x, y + o.y, z + o.z)
    }
  }

  const Zero: Vec := Vec(0.0, 0.0, 0.0)

  /**
   * One decoded segment: the position of `target` relative to `center` over
   * the half-open interval [start, end), read from the kernel file labelled
   * `file`. The polynomial coefficients are kept as opaque data; only the
   * evaluator looks at them.
   */
  datatype Segment = Segment(
    center: Code,
    target: Code,
    start: Time,
    end: Time,
    file: string,
    coefficients: seq<real>)
  {
    predicate Covers(t: Time) {
      start <= t < end
    }

    predicate Touches(c: Code) {
      center == c || target == c
    }
  }

  /**
   * The polynomial evaluator, left abstract: any function from a segment and
   * a time to a position. Every evaluation in the model is parameterised by one.
   */
  type Evaluator = (Segment, Time) -> Vec

  /** What `eph[...]` is indexed with: an integer code or a body name. */
  datatype Key = ByCode(code: Code) | ByName(name: string)

  datatype Error =
    /** The name is not in the name table at all. */
    | UnknownName(name: string)
    /** KeyError "... is missing <key> ...": the code is not among the kernel's codes. */
    | Missing(key: Key)
    /** KeyError naming the absent link from the barycenter to the requested target. */
    | NoBarycenterLink(key: Key)
    /** Two segments claim the same target with different centers. */
    | Ambiguous(target: Code)
    /** Two segments for the same (center, target) pair cover overlapping times. */
    | Overlap(center: Code, target: Code)
    /** A Stack was asked for a time none of its members covers. */
    | OutOfRange(time: Time, center: Code, target: Code)
}
