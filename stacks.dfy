/**
 * Edges of the body hierarchy. An edge is either one bare segment or a Stack:
 * two or more segments for the same (center, target) pair over disjoint
 * times, which answers each query time from the member that covers it.
 */
module Stacks {
  import opened Wrappers
  import opened Segments

  /**
   * `Stack` keeps a back-reference `ephemeris` to the kernel it came from, so
   * that code holding only the Stack can still reach the kernel.
   */
  datatype Edge<K> =
    | Single(seg: Segment)
    | Stack(center: Code, target: Code, members: seq<Segment>, ephemeris: K)
  {
    function Center(): Code {
      if Single? then seg.center else center
    }

    function Target(): Code {
      if Single? then seg.target else target
    }
  }

  predicate StartSorted(m: seq<Segment>) {
    forall i, j :: 0 <= i < j < |m| ==> m[i].start <= m[j].start
  }

  /** No two members overlap: every earlier member ends before any later one starts. */
  predicate Disjoint(m: seq<Segment>) {
    forall i, j :: 0 <= i < j < |m| ==> m[i].end <= m[j].start
  }

  predicate SamePair(m: seq<Segment>, center: Code, target: Code) {
    forall i :: 0 <= i < |m| ==> m[i].center == center && m[i].target == target
  }

  /** What every Stack built by `MakeStack` satisfies. */
  predicate ValidEdge<K>(e: Edge<K>) {
    e.Stack? ==>
      && |e.members| >= 2
      && SamePair(e.members, e.center, e.target)
      && StartSorted(e.members)
      && Disjoint(e.members)
  }

  /** Inserts `s` into the start-sorted `m`, after every member that starts no later. */
  function Insert(s: Segment, m: seq<Segment>): (r: seq<Segment>)
    requires StartSorted(m)
    ensures StartSorted(r)
    ensures multiset(r) == multiset(m) + multiset{s}
    ensures |r| == |m| + 1
  {
    if m == [] then [s]
    else if s.start < m[0].start then [s] + m
    else
      var rest := Insert(s, m[1..]);
      assert m == [m[0]] + m[1..];
      HeadStartsFirst(m[0], s, m[1..], rest);
      [m[0]] + rest
  }

  /**
   * Putting `h` in front of `rest` keeps the order when `rest` holds the
   * members that followed `h` plus one that starts no earlier than `h`.
   */
  lemma HeadStartsFirst(h: Segment, s: Segment, tail: seq<Segment>, rest: seq<Segment>)
    requires StartSorted([h] + tail) && StartSorted(rest)
    requires h.start <= s.start
    requires multiset(rest) == multiset(tail) + multiset{s}
    ensures StartSorted([h] + rest)
  {
    forall k | 0 <= k < |rest| ensures h.start <= rest[k].start {
      assert rest[k] in multiset(rest);
      if rest[k] != s {
        assert rest[k] in multiset(tail);
        var j :| 0 <= j < |tail| && tail[j] == rest[k];
        assert ([h] + tail)[0] == h && ([h] + tail)[j + 1] == rest[k];
      }
    }
    forall i, j | 0 <= i < j < |[h] + rest| ensures ([h] + rest)[i].start <= ([h] + rest)[j].start {
      if i > 0 {
        assert ([h] + rest)[i] == rest[i - 1] && ([h] + rest)[j] == rest[j - 1];
      }
    }
  }

  /** The members of a group in non-decreasing order of start time. */
  function SortByStart(m: seq<Segment>): (r: seq<Segment>)
    ensures StartSorted(r)
    ensures multiset(r) == multiset(m)
    ensures |r| == |m|
  {
    if m == [] then []
    else
      assert m == m[..|m| - 1] + [m[|m| - 1]];
      Insert(m[|m| - 1], SortByStart(m[..|m| - 1]))
  }

  /** The first member covering `t`, if any. */
  function Route(m: seq<Segment>, t: Time): (r: Option<nat>)
    ensures r.Some? ==> r.value < |m| && m[r.value].Covers(t)
    ensures r.Some? ==> forall j :: 0 <= j < r.value ==> !m[j].Covers(t)
    ensures r.None? ==> forall j :: 0 <= j < |m| ==> !m[j].Covers(t)
  {
    if m == [] then None
    else if m[0].Covers(t) then Some(0)
    else match Route(m[1..], t)
      case None => None
      case Some(i) => Some(i + 1)
  }

  /** In a disjoint group, the member covering `t` is unique, so routing finds exactly it. */
  lemma RouteFindsTheCoveringMember(m: seq<Segment>, t: Time, i: nat)
    requires Disjoint(m)
    requires i < |m| && m[i].Covers(t)
    ensures Route(m, t) == Some(i)
  {
  }

  /**
   * Groups the segments of one (center, target) pair. One segment stays a
   * bare segment; two or more become a Stack sorted by start time, which
   * must not overlap.
   */
  function MakeStack<K>(group: seq<Segment>, center: Code, target: Code, ephemeris: K): (r: Result<Edge<K>, Error>)
    requires |group| >= 1
    requires SamePair(group, center, target)
    ensures |group| == 1 ==> r == Ok(Single(group[0]))
    ensures |group| >= 2 && r.Ok? ==>
      && r.value.Stack?
      && multiset(r.value.members) == multiset(group)
      && r.value.ephemeris == ephemeris
    ensures r.Ok? ==> ValidEdge(r.value) && r.value.Center() == center && r.value.Target() == target
    ensures r.Err? <==> |group| >= 2 && !Disjoint(SortByStart(group))
    ensures r.Err? ==> r.error == Overlap(center, target)
  {
    if |group| == 1 then Ok(Single(group[0]))
    else
      var members := SortByStart(group);
      SortedSamePair(group, members, center, target);
      if Disjoint(members) then Ok(Stack(center, target, members, ephemeris))
      else Err(Overlap(center, target))
  }

  lemma SortedSamePair(group: seq<Segment>, members: seq<Segment>, center: Code, target: Code)
    requires SamePair(group, center, target)
    requires multiset(members) == multiset(group)
    ensures SamePair(members, center, target)
  {
    forall i | 0 <= i < |members|
      ensures members[i].center == center && members[i].target == target
    {
      assert members[i] in multiset(members);
      assert members[i] in group;
    }
  }

  /**
   * Evaluates an edge at one time. A bare segment is evaluated directly; a
   * Stack answers from its covering member or fails with OutOfRange naming
   * the time and its pair.
   */
  function EdgeAt<K>(e: Edge<K>, ev: Evaluator, t: Time): (r: Result<Vec, Error>)
    ensures e.Single? ==> r == Ok(ev(e.seg, t))
    ensures e.Stack? ==>
      (r.Ok? <==> exists i :: 0 <= i < |e.members| && e.members[i].Covers(t))
    ensures e.Stack? && r.Ok? ==>
      exists i :: 0 <= i < |e.members| && e.members[i].Covers(t) && r.value == ev(e.members[i], t)
    ensures r.Err? ==> r.error == OutOfRange(t, e.Center(), e.Target())
  {
    match e
    case Single(s) => Ok(ev(s, t))
    case Stack(c, g, m, _) =>
      match Route(m, t)
      case None => Err(OutOfRange(t, c, g))
      case Some(i) => Ok(ev(m[i], t))
  }
}
