/**
 * What a kernel lookup hands back, and how it is evaluated: a single edge
 * (bare segment or Stack), or a VectorSum whose components run from the
 * barycenter outward and whose positions add up to the target's position.
 */
module VectorSums {
  import opened Wrappers
  import opened Segments
  import opened Stacks

  datatype Vector<K> =
    | Leg(edge: Edge<K>)
    | VectorSum(center: Code, target: Code, components: seq<Edge<K>>)

  /** The components form one path from `center` to `target`: each starts where the previous one ends. */
  predicate Chained<K>(center: Code, target: Code, comps: seq<Edge<K>>) {
    if comps == [] then center == target
    else
      && comps[0].Center() == center
      && comps[|comps| - 1].Target() == target
      && forall i, j :: 0 <= i < |comps| && 0 <= j < |comps| && j == i + 1 ==> comps[i].Target() == comps[j].Center()
  }

  function SumOf(vs: seq<Vec>): Vec {
    if vs == [] then Zero else vs[0].Plus(SumOf(vs[1..]))
  }

  /** The position of each component at `t`, in component order. */
  function PositionsAt<K>(comps: seq<Edge<K>>, ev: Evaluator, t: Time): (r: seq<Vec>)
    requires forall i :: 0 <= i < |comps| ==> EdgeAt(comps[i], ev, t).Ok?
    ensures |r| == |comps|
    ensures forall i :: 0 <= i < |comps| ==> EdgeAt(comps[i], ev, t) == Ok(r[i])
  {
    if comps == [] then [] else [EdgeAt(comps[0], ev, t).value] + PositionsAt(comps[1..], ev, t)
  }

  /**
   * A VectorSum at one time: every component is evaluated at `t` and the
   * positions are added. The first component that fails decides the error;
   * no partial sum is returned.
   */
  function ComponentsAt<K>(comps: seq<Edge<K>>, ev: Evaluator, t: Time): (r: Result<Vec, Error>)
    ensures r.Ok? <==> forall i :: 0 <= i < |comps| ==> EdgeAt(comps[i], ev, t).Ok?
    ensures r.Ok? ==> r.value == SumOf(PositionsAt(comps, ev, t))
    ensures r.Err? ==>
      exists i :: 0 <= i < |comps| && EdgeAt(comps[i], ev, t) == Err(r.error)
                  && forall j :: 0 <= j < i ==> EdgeAt(comps[j], ev, t).Ok?
  {
    if comps == [] then Ok(Zero)
    else
      match EdgeAt(comps[0], ev, t)
      case Err(e) => Err(e)
      case Ok(head) =>
        match ComponentsAt(comps[1..], ev, t)
        case Err(e) =>
          Err(e)
        case Ok(rest) =>
          assert forall i :: 1 <= i < |comps| ==> comps[1..][i - 1] == comps[i];
          Ok(head.Plus(rest))
  }

  /** The value of a lookup result at one time: an edge's own value, or the sum of a VectorSum's components. */
  function ValueAt<K>(v: Vector<K>, ev: Evaluator, t: Time): (r: Result<Vec, Error>)
    ensures v.Leg? ==> r == EdgeAt(v.edge, ev, t)
    ensures v.VectorSum? ==>
      (r.Ok? <==> forall i :: 0 <= i < |v.components| ==> EdgeAt(v.components[i], ev, t).Ok?)
    ensures v.VectorSum? && r.Ok? ==> r.value == SumOf(PositionsAt(v.components, ev, t))
  {
    match v
    case Leg(e) => EdgeAt(e, ev, t)
    case VectorSum(_, _, comps) => ComponentsAt(comps, ev, t)
  }

  /**
   * One edge at an ordered list of times: one position per time, in the
   * order given, or the error of the first time the edge cannot answer.
   */
  function EdgeValuesAt<K>(e: Edge<K>, ev: Evaluator, ts: seq<Time>): (r: Result<seq<Vec>, Error>)
    ensures r.Ok? <==> forall k :: 0 <= k < |ts| ==> EdgeAt(e, ev, ts[k]).Ok?
    ensures r.Ok? ==> |r.value| == |ts|
    ensures r.Ok? ==> forall k :: 0 <= k < |ts| ==> EdgeAt(e, ev, ts[k]) == Ok(r.value[k])
    ensures r.Err? ==>
      exists k :: 0 <= k < |ts| && EdgeAt(e, ev, ts[k]) == Err(r.error)
                  && forall j :: 0 <= j < k ==> EdgeAt(e, ev, ts[j]).Ok?
  {
    if ts == [] then Ok([])
    else
      var first := EdgeAt(e, ev, ts[0]);
      if first.Err? then Err(first.error)
      else
        var rest := EdgeValuesAt(e, ev, ts[1..]);
        assert forall k :: 1 <= k < |ts| ==> ts[1..][k - 1] == ts[k];
        if rest.Err? then
          var k :| 0 <= k < |ts[1..]| && EdgeAt(e, ev, ts[1..][k]) == Err(rest.error)
                   && forall j :: 0 <= j < k ==> EdgeAt(e, ev, ts[1..][j]).Ok?;
          assert EdgeAt(e, ev, ts[k + 1]) == Err(rest.error);
          Err(rest.error)
        else
          Ok([first.value] + rest.value)
  }

  /** Adds two equally long lists of positions element by element. */
  function AddEach(vs: seq<Vec>, ws: seq<Vec>): (r: seq<Vec>)
    requires |vs| == |ws|
    ensures |r| == |vs| && forall k :: 0 <= k < |vs| ==> r[k] == vs[k].Plus(ws[k])
  {
    seq(|vs|, k requires 0 <= k < |vs| => vs[k].Plus(ws[k]))
  }

  /**
   * A VectorSum at an ordered list of times: each component is evaluated at
   * all the times, in component order, and the positions are added time by
   * time. The first component that fails on any time decides the error.
   */
  function SumValuesAt<K>(comps: seq<Edge<K>>, ev: Evaluator, ts: seq<Time>): (r: Result<seq<Vec>, Error>)
    ensures r.Ok? <==> forall i :: 0 <= i < |comps| ==> EdgeValuesAt(comps[i], ev, ts).Ok?
    ensures r.Ok? ==> |r.value| == |ts|
    ensures r.Ok? ==> forall k :: 0 <= k < |ts| ==> ComponentsAt(comps, ev, ts[k]) == Ok(r.value[k])
  {
    if comps == [] then Ok(seq(|ts|, k => Zero))
    else
      AllComponentsOk(comps, ev, ts);
      match EdgeValuesAt(comps[0], ev, ts)
      case Err(e) => Err(e)
      case Ok(vs) =>
        match SumValuesAt(comps[1..], ev, ts)
        case Err(e) => Err(e)
        case Ok(ws) =>
          SumValuesPointwise(comps, ev, ts, vs, ws);
          Ok(AddEach(vs, ws))
  }

  lemma AllComponentsOk<K>(comps: seq<Edge<K>>, ev: Evaluator, ts: seq<Time>)
    requires comps != []
    ensures (forall i :: 0 <= i < |comps| ==> EdgeValuesAt(comps[i], ev, ts).Ok?) <==>
      EdgeValuesAt(comps[0], ev, ts).Ok? && forall i :: 0 <= i < |comps[1..]| ==> EdgeValuesAt(comps[1..][i], ev, ts).Ok?
  {
    assert forall i :: 1 <= i < |comps| ==> comps[1..][i - 1] == comps[i];
  }

  /** A VectorSum that fails on the list of times fails with its first failing component's error. */
  lemma {:induction false} SumValuesFailure<K>(comps: seq<Edge<K>>, ev: Evaluator, ts: seq<Time>)
    ensures SumValuesAt(comps, ev, ts).Err? ==>
      exists i :: 0 <= i < |comps| && EdgeValuesAt(comps[i], ev, ts) == Err(SumValuesAt(comps, ev, ts).error)
                  && forall j :: 0 <= j < i ==> EdgeValuesAt(comps[j], ev, ts).Ok?
  {
    if SumValuesAt(comps, ev, ts).Ok? {
    } else if EdgeValuesAt(comps[0], ev, ts).Ok? {
      var e := SumValuesAt(comps, ev, ts).error;
      assert SumValuesAt(comps[1..], ev, ts) == Err(e);
      SumValuesFailure(comps[1..], ev, ts);
      var i :| 0 <= i < |comps[1..]| && EdgeValuesAt(comps[1..][i], ev, ts) == Err(e)
               && forall j :: 0 <= j < i ==> EdgeValuesAt(comps[1..][j], ev, ts).Ok?;
      FirstFailingComponent(comps, ev, ts, e, i);
    } else {
      assert EdgeValuesAt(comps[0], ev, ts) == Err(SumValuesAt(comps, ev, ts).error);
    }
  }

  /** A first failure in the rest, after a first component that succeeds, is a first failure of the whole list. */
  lemma FirstFailingComponent<K>(comps: seq<Edge<K>>, ev: Evaluator, ts: seq<Time>, e: Error, i: nat)
    requires comps != [] && EdgeValuesAt(comps[0], ev, ts).Ok?
    requires i < |comps| - 1 && EdgeValuesAt(comps[1..][i], ev, ts) == Err(e)
    requires forall j :: 0 <= j < i ==> EdgeValuesAt(comps[1..][j], ev, ts).Ok?
    ensures EdgeValuesAt(comps[i + 1], ev, ts) == Err(e)
    ensures forall j :: 0 <= j < i + 1 ==> EdgeValuesAt(comps[j], ev, ts).Ok?
  {
    ShiftPast(comps, c => EdgeValuesAt(c, ev, ts).Ok?, i);
  }

  /** Facts about the elements of a tail, together with one about the head, cover a prefix of the whole list. */
  lemma ShiftPast<T>(xs: seq<T>, good: T -> bool, i: nat)
    requires xs != [] && good(xs[0]) && i < |xs| - 1
    requires forall j :: 0 <= j < i ==> good(xs[1..][j])
    ensures xs[1..][i] == xs[i + 1]
    ensures forall j :: 0 <= j < i + 1 ==> good(xs[j])
  {
    forall j | 0 <= j < i + 1 ensures good(xs[j]) {
      if j > 0 { assert xs[j] == xs[1..][j - 1]; }
    }
  }

  /** The first component's positions plus the rest's sum are the sum at each time. */
  lemma SumValuesPointwise<K>(comps: seq<Edge<K>>, ev: Evaluator, ts: seq<Time>, vs: seq<Vec>, ws: seq<Vec>)
    requires comps != [] && |vs| == |ts| && |ws| == |ts|
    requires forall k :: 0 <= k < |ts| ==> EdgeAt(comps[0], ev, ts[k]) == Ok(vs[k])
    requires forall k :: 0 <= k < |ts| ==> ComponentsAt(comps[1..], ev, ts[k]) == Ok(ws[k])
    ensures forall k :: 0 <= k < |ts| ==> ComponentsAt(comps, ev, ts[k]) == Ok(vs[k].Plus(ws[k]))
  {
  }

  /**
   * Evaluation at an ordered list of times: one position per time, in the
   * order given, each equal to the value at that single time. An edge fails
   * with its first unanswerable time; a VectorSum fails with its first
   * failing component.
   */
  function ValuesAt<K>(v: Vector<K>, ev: Evaluator, ts: seq<Time>): (r: Result<seq<Vec>, Error>)
    ensures r.Ok? <==> forall k :: 0 <= k < |ts| ==> ValueAt(v, ev, ts[k]).Ok?
    ensures r.Ok? ==> |r.value| == |ts|
    ensures r.Ok? ==> forall k :: 0 <= k < |ts| ==> ValueAt(v, ev, ts[k]) == Ok(r.value[k])
    ensures v.Leg? && r.Err? ==>
      exists k :: 0 <= k < |ts| && ValueAt(v, ev, ts[k]) == Err(r.error)
                  && forall j :: 0 <= j < k ==> ValueAt(v, ev, ts[j]).Ok?
    ensures v.VectorSum? && r.Err? ==>
      exists i :: 0 <= i < |v.components| && EdgeValuesAt(v.components[i], ev, ts) == Err(r.error)
                  && forall j :: 0 <= j < i ==> EdgeValuesAt(v.components[j], ev, ts).Ok?
  {
    match v
    case Leg(e) => EdgeValuesAt(e, ev, ts)
    case VectorSum(_, _, comps) =>
      var r := SumValuesAt(comps, ev, ts);
      SumValuesOk(comps, ev, ts);
      SumValuesFailure(comps, ev, ts);
      r
  }

  /** A VectorSum succeeds on all the times exactly when it succeeds at each time. */
  lemma SumValuesOk<K>(comps: seq<Edge<K>>, ev: Evaluator, ts: seq<Time>)
    ensures SumValuesAt(comps, ev, ts).Ok? <==> forall k :: 0 <= k < |ts| ==> ComponentsAt(comps, ev, ts[k]).Ok?
  {
    if !SumValuesAt(comps, ev, ts).Ok? {
      var i :| 0 <= i < |comps| && EdgeValuesAt(comps[i], ev, ts).Err?;
      var k :| 0 <= k < |ts| && EdgeAt(comps[i], ev, ts[k]).Err?;
      assert !ComponentsAt(comps, ev, ts[k]).Ok?;
    }
  }

  /**
   * A Stack queried at several times answers each time from the member that
   * covers it, keeping the input order; it succeeds exactly when every time
   * is covered by some member.
   */
  lemma StackRoutesEachTime<K>(e: Edge<K>, ev: Evaluator, ts: seq<Time>)
    requires e.Stack? && ValidEdge(e)
    ensures ValuesAt(Leg(e), ev, ts).Ok? <==>
      forall k :: 0 <= k < |ts| ==> exists i :: 0 <= i < |e.members| && e.members[i].Covers(ts[k])
    ensures ValuesAt(Leg(e), ev, ts).Ok? ==>
      forall k, i :: 0 <= k < |ts| && 0 <= i < |e.members| && e.members[i].Covers(ts[k]) ==>
        ValuesAt(Leg(e), ev, ts).value[k] == ev(e.members[i], ts[k])
    ensures ValuesAt(Leg(e), ev, ts).Err? ==>
      exists k :: 0 <= k < |ts| && ValuesAt(Leg(e), ev, ts).error == OutOfRange(ts[k], e.center, e.target)
  {
    var r := ValuesAt(Leg(e), ev, ts);
    if r.Ok? {
      forall k, i | 0 <= k < |ts| && 0 <= i < |e.members| && e.members[i].Covers(ts[k])
        ensures r.value[k] == ev(e.members[i], ts[k])
      {
        RouteFindsTheCoveringMember(e.members, ts[k], i);
      }
    }
  }
}
