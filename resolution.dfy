/**
 * Resolving `eph[code_or_name]`: find the edge for each body, walk from the
 * target up through its centers to the barycenter, and return the edge on
 * its own when one hop suffices or a VectorSum of the hops, barycenter
 * first, when more are needed.
 */
module Resolution {
  import opened Wrappers
  import opened Segments
  import opened Stacks

  /** Every code some segment has as its target. */
  function Targets(segs: seq<Segment>): (r: set<Code>)
    ensures forall c :: c in r <==> exists i :: 0 <= i < |segs| && segs[i].target == c
  {
    set i | 0 <= i < |segs| :: segs[i].target
  }

  /** The segments whose target is `c`, in list order. */
  function Group(segs: seq<Segment>, c: Code): (r: seq<Segment>)
    ensures forall s :: s in r <==> s in segs && s.target == c
    ensures forall i :: 0 <= i < |r| ==> r[i].target == c
  {
    if segs == [] then []
    else (if segs[0].target == c then [segs[0]] else []) + Group(segs[1..], c)
  }

  /** Grouping keeps list order and repeats: the group of a joined list joins the groups of its parts. */
  lemma {:induction false} GroupAppend(a: seq<Segment>, b: seq<Segment>, c: Code)
    ensures Group(a + b, c) == Group(a, c) + Group(b, c)
    decreases |a|
  {
    if a == [] {
      assert a + b == b;
    } else {
      var x, rest := a[0], a[1..];
      var h: seq<Segment> := if x.target == c then [x] else [];
      assert a == [x] + rest && a + b == [x] + (rest + b);
      calc {
        Group(a + b, c);
        { GroupCons(x, rest + b, c); }
        h + Group(rest + b, c);
        { GroupAppend(rest, b, c); }
        h + (Group(rest, c) + Group(b, c));
        (h + Group(rest, c)) + Group(b, c);
        { GroupCons(x, rest, c); }
        Group(a, c) + Group(b, c);
      }
    }
  }

  /** The group of a list with one segment in front. */
  lemma GroupCons(x: Segment, rest: seq<Segment>, c: Code)
    ensures Group([x] + rest, c) == (if x.target == c then [x] else []) + Group(rest, c)
  {
    assert ([x] + rest)[0] == x && ([x] + rest)[1..] == rest;
  }

  /** One segment is in the group exactly when it targets the body. */
  lemma GroupSingle(x: Segment, c: Code)
    ensures Group([x], c) == if x.target == c then [x] else []
  {
    var none: seq<Segment> := [];
    assert [x][1..] == none;
  }

  predicate OneCenter(g: seq<Segment>) {
    forall i :: 0 <= i < |g| ==> g[i].center == g[0].center
  }

  /**
   * The edge that ends at body `c`, or none when no segment targets it.
   * Segments agreeing on (center, c) become one edge, a Stack when there are
   * several; segments that disagree on the center make the hierarchy
   * ambiguous.
   */
  function EdgeFor<K>(segs: seq<Segment>, c: Code, owner: K): (r: Result<Option<Edge<K>>, Error>)
    ensures r == Ok(None) <==> c !in Targets(segs)
    ensures r.Ok? && r.value.Some? ==> r.value.value.Target() == c
  {
    var g := Group(segs, c);
    GroupEmpty(segs, c);
    if g == [] then Ok(None)
    else if !OneCenter(g) then Err(Ambiguous(c))
    else
      assert |g| == 1 ==> g == [g[0]];
      match MakeStack(g, g[0].center, c, owner)
      case Err(e) => Err(e)
      case Ok(e) => Ok(Some(e))
  }

  /**
   * The edge for a body is unambiguous: every segment that targets it agrees
   * on its center. A lone segment is used as it is; several form a Stack
   * holding exactly those segments and referring back to `owner`. Segments
   * that disagree on the center are reported as Ambiguous, and a group that
   * overlaps in time as Overlap.
   */
  lemma EdgeForMeaning<K>(segs: seq<Segment>, c: Code, owner: K)
    ensures var r := EdgeFor(segs, c, owner);
      r == Err(Ambiguous(c)) <==>
        exists i, j :: 0 <= i < |segs| && 0 <= j < |segs| && segs[i].target == c && segs[j].target == c
                       && segs[i].center != segs[j].center
    ensures var r := EdgeFor(segs, c, owner);
      r.Err? ==> r.error == Ambiguous(c) || (r.error.Overlap? && r.error.target == c)
    ensures var r := EdgeFor(segs, c, owner);
      r.Ok? && r.value.Some? ==>
        var e := r.value.value;
        && ValidEdge(e)
        && (forall s :: s in segs && s.target == c ==> s.center == e.Center())
        && (e.Single? ==> Group(segs, c) == [e.seg])
        && (e.Stack? ==> multiset(e.members) == multiset(Group(segs, c)) && e.ephemeris == owner)
  {
    var g := Group(segs, c);
    if g != [] {
      GroupCenters(segs, c);
      assert |g| == 1 ==> g == [g[0]];
    }
  }

  lemma GroupEmpty(segs: seq<Segment>, c: Code)
    ensures Group(segs, c) == [] <==> c !in Targets(segs)
  {
    if c in Targets(segs) {
      var i :| 0 <= i < |segs| && segs[i].target == c;
      assert segs[i] in segs;
      assert segs[i] in Group(segs, c);
    }
  }

  lemma GroupCenters(segs: seq<Segment>, c: Code)
    requires Group(segs, c) != []
    ensures OneCenter(Group(segs, c)) <==>
      forall s :: s in segs && s.target == c ==> s.center == Group(segs, c)[0].center
    ensures !OneCenter(Group(segs, c)) <==>
      exists i, j :: 0 <= i < |segs| && 0 <= j < |segs| && segs[i].target == c && segs[j].target == c
                     && segs[i].center != segs[j].center
  {
    var g := Group(segs, c);
    assert g[0] in segs;
    if !OneCenter(g) {
      var k :| 0 <= k < |g| && g[k].center != g[0].center;
      assert g[k] in g;
      var i :| 0 <= i < |segs| && segs[i] == g[0];
      var j :| 0 <= j < |segs| && segs[j] == g[k];
    } else {
      forall s | s in segs && s.target == c ensures s.center == g[0].center {
        assert s in g;
      }
      forall i, j | 0 <= i < |segs| && 0 <= j < |segs| && segs[i].target == c && segs[j].target == c
        ensures segs[i].center == segs[j].center
      {
        assert segs[i] in segs && segs[j] in segs;
      }
    }
  }
}

module Lookups {
  import opened Wrappers
  import opened Segments
  import opened Stacks
  import opened VectorSums
  import opened Names
  import opened Views
  import opened Resolution

  /**
   * `chain` is the path from the barycenter down to `target`: its edges are
   * linked end to start, begin at code 0, end at `target`, pass through no
   * body twice and never through the barycenter again, and each edge is the
   * one the current segments give for its target.
   */
  ghost predicate RootPath<K>(segs: seq<Segment>, owner: K, target: Code, chain: seq<Edge<K>>) {
    && Chained(Barycenter, target, chain)
    && (forall i :: 0 <= i < |chain| ==> chain[i].Target() != Barycenter)
    && (forall i, j :: 0 <= i < j < |chain| ==> chain[i].Target() != chain[j].Target())
    && (forall i {:trigger IsEdgeOf(segs, owner, chain[i])} :: 0 <= i < |chain| ==> IsEdgeOf(segs, owner, chain[i]))
  }

  /** `e` is the edge the current segments give for its own target. */
  ghost predicate IsEdgeOf<K>(segs: seq<Segment>, owner: K, e: Edge<K>) {
    EdgeFor(segs, e.Target(), owner) == Ok(Some(e))
  }

  /**
   * Follows target -> center edges from `c` until the barycenter is reached.
   * A body with no edge, or a walk that comes back to a body already passed,
   * means no segment connects the barycenter to the requested target;
   * an ambiguous or overlapping edge on the way is reported as it is.
   */
  function Walk<K>(segs: seq<Segment>, owner: K, key: Key, c: Code, visited: set<Code>): (r: Result<seq<Edge<K>>, Error>)
    ensures r.Err? ==> r.error == NoBarycenterLink(key) || r.error.Ambiguous? || r.error.Overlap?
    decreases |Targets(segs) - visited|
  {
    if c == Barycenter then Ok([])
    else if c in visited then Err(NoBarycenterLink(key))
    else
      match EdgeFor(segs, c, owner)
      case Err(e) => Err(e)
      case Ok(None) => Err(NoBarycenterLink(key))
      case Ok(Some(e)) =>
        FewerUnvisited(Targets(segs), visited, c);
        match Walk(segs, owner, key, e.Center(), visited + {c})
        case Err(err) => Err(err)
        case Ok(path) => Ok(path + [e])
  }

  /** Whatever the walk returns is a root path to `c` that avoids the bodies already visited. */
  lemma {:induction false} WalkIsRootPath<K>(segs: seq<Segment>, owner: K, key: Key, c: Code, visited: set<Code>)
    requires Walk(segs, owner, key, c, visited).Ok?
    ensures RootPath(segs, owner, c, Walk(segs, owner, key, c, visited).value)
    ensures var chain := Walk(segs, owner, key, c, visited).value;
      forall i :: 0 <= i < |chain| ==> chain[i].Target() !in visited
    decreases |Targets(segs) - visited|
  {
    if c != Barycenter {
      var e := EdgeFor(segs, c, owner).value.value;
      FewerUnvisited(Targets(segs), visited, c);
      WalkIsRootPath(segs, owner, key, e.Center(), visited + {c});
      var path := Walk(segs, owner, key, e.Center(), visited + {c}).value;
      assert Walk(segs, owner, key, c, visited).value == path + [e];
      assert e.Target() == c && IsEdgeOf(segs, owner, e);
      RootPathExtend(segs, owner, path, e);
      forall i | 0 <= i < |path + [e]| ensures (path + [e])[i].Target() !in visited {
        if i < |path| { assert (path + [e])[i] == path[i]; }
      }
    }
  }

  lemma FewerUnvisited(all: set<Code>, visited: set<Code>, c: Code)
    requires c in all && c !in visited
    ensures |all - (visited + {c})| < |all - visited|
  {
    assert all - (visited + {c}) == (all - visited) - {c};
  }

  /** A root path to a body's center, followed by the body's own edge, is a root path to the body. */
  lemma RootPathExtend<K>(segs: seq<Segment>, owner: K, path: seq<Edge<K>>, e: Edge<K>)
    requires RootPath(segs, owner, e.Center(), path)
    requires e.Target() != Barycenter
    requires forall i :: 0 <= i < |path| ==> path[i].Target() != e.Target()
    requires IsEdgeOf(segs, owner, e)
    ensures RootPath(segs, owner, e.Target(), path + [e])
  {
    var chain := path + [e];
    assert forall i :: 0 <= i < |path| ==> chain[i] == path[i];
    assert chain[|path|] == e;
    ChainedSnoc(Barycenter, path, e);
    TargetsSnoc(path, e);
    forall i | 0 <= i < |chain| ensures IsEdgeOf(segs, owner, chain[i]) {
      if i < |path| {
        assert IsEdgeOf(segs, owner, path[i]);
      }
    }
  }

  /** Appending an edge to a new, non-barycenter body keeps the targets distinct and off the barycenter. */
  lemma TargetsSnoc<K>(path: seq<Edge<K>>, e: Edge<K>)
    requires e.Target() != Barycenter
    requires forall i :: 0 <= i < |path| ==> path[i].Target() != e.Target() && path[i].Target() != Barycenter
    requires forall i, j :: 0 <= i < j < |path| ==> path[i].Target() != path[j].Target()
    ensures forall i :: 0 <= i < |path + [e]| ==> (path + [e])[i].Target() != Barycenter
    ensures forall i, j :: 0 <= i < j < |path + [e]| ==> (path + [e])[i].Target() != (path + [e])[j].Target()
  {
    var chain := path + [e];
    assert forall i :: 0 <= i < |path| ==> chain[i] == path[i];
    assert chain[|path|] == e;
  }

  /** A chain ending where `e` starts, followed by `e`, ends where `e` ends. */
  lemma ChainedSnoc<K>(from: Code, path: seq<Edge<K>>, e: Edge<K>)
    requires Chained(from, e.Center(), path)
    ensures Chained(from, e.Target(), path + [e])
  {
    var chain := path + [e];
    assert forall i :: 0 <= i < |path| ==> chain[i] == path[i];
    assert chain[|path|] == e;
    forall i, j | 0 <= i < |chain| && 0 <= j < |chain| && j == i + 1
      ensures chain[i].Target() == chain[j].Center()
    {
      if j == |path| {
        assert path[|path| - 1].Target() == e.Center();
      } else {
        assert path[i].Target() == path[j].Center();
      }
    }
  }

  /** Dropping the last edge of a root path leaves a root path to that edge's center. */
  lemma RootPathPrefix<K>(segs: seq<Segment>, owner: K, target: Code, prefix: seq<Edge<K>>, e: Edge<K>)
    requires RootPath(segs, owner, target, prefix + [e])
    ensures e.Target() == target && target != Barycenter
    ensures IsEdgeOf(segs, owner, e)
    ensures RootPath(segs, owner, e.Center(), prefix)
    ensures forall i :: 0 <= i < |prefix| ==> prefix[i].Target() != target
  {
    var chain := prefix + [e];
    assert forall i :: 0 <= i < |prefix| ==> chain[i] == prefix[i];
    assert chain[|prefix|] == e;
    assert IsEdgeOf(segs, owner, chain[|prefix|]);
    assert Chained(Barycenter, e.Center(), prefix) by {
      if prefix != [] {
        assert chain[|prefix| - 1].Target() == chain[|prefix|].Center();
      }
    }
  }

  /** The walk finds every path to the barycenter that exists: a root path is the walk's answer. */
  lemma {:induction false} WalkFindsRootPath<K>(segs: seq<Segment>, owner: K, key: Key, c: Code, visited: set<Code>,
                                                chain: seq<Edge<K>>)
    requires RootPath(segs, owner, c, chain)
    requires forall i :: 0 <= i < |chain| ==> chain[i].Target() !in visited
    ensures Walk(segs, owner, key, c, visited) == Ok(chain)
    decreases |chain|
  {
    if chain != [] {
      var e := chain[|chain| - 1];
      var prefix := chain[..|chain| - 1];
      assert chain == prefix + [e];
      assert c !in visited && forall i :: 0 <= i < |prefix| ==> prefix[i].Target() !in visited + {c} by {
        assert forall i :: 0 <= i < |prefix| ==> prefix[i] == chain[i];
        RootPathPrefix(segs, owner, c, prefix, e);
      }
      RootPathPrefix(segs, owner, c, prefix, e);
      WalkFindsRootPath(segs, owner, key, e.Center(), visited + {c}, prefix);
      WalkStep(segs, owner, key, c, visited, prefix, e);
    }
  }

  lemma WalkStep<K>(segs: seq<Segment>, owner: K, key: Key, c: Code, visited: set<Code>, prefix: seq<Edge<K>>, e: Edge<K>)
    requires c != Barycenter && c !in visited
    requires EdgeFor(segs, c, owner) == Ok(Some(e))
    requires Walk(segs, owner, key, e.Center(), visited + {c}) == Ok(prefix)
    ensures Walk(segs, owner, key, c, visited) == Ok(prefix + [e])
  {
  }

  /** A body has at most one path to the barycenter. */
  lemma RootPathUnique<K>(segs: seq<Segment>, owner: K, c: Code, a: seq<Edge<K>>, b: seq<Edge<K>>)
    requires RootPath(segs, owner, c, a) && RootPath(segs, owner, c, b)
    ensures a == b
  {
    WalkFindsRootPath(segs, owner, ByCode(c), c, {}, a);
    WalkFindsRootPath(segs, owner, ByCode(c), c, {}, b);
  }

  /** The code a key names: an integer key is its own code, a name goes through the table. */
  function KeyCode(table: NameTable, key: Key): (r: Option<Code>)
    ensures key.ByCode? ==> r == Some(key.code)
    ensures key.ByName? ==> (r.None? <==> forall i :: 0 <= i < |table| ==> table[i].1 != Upper(key.name))
    ensures key.ByName? && r.Some? ==> (r.value, Upper(key.name)) in table
  {
    match key
    case ByCode(c) => Some(c)
    case ByName(n) => CodeOf(table, n)
  }

  /** A one-edge chain is returned bare; any other chain becomes a VectorSum from the barycenter. */
  function Assemble<K>(target: Code, chain: seq<Edge<K>>): (r: Vector<K>)
    ensures Hops(r) == chain
    ensures r.Leg? <==> |chain| == 1
    ensures r.VectorSum? ==> r.center == Barycenter && r.target == target
  {
    if |chain| == 1 then Leg(chain[0]) else VectorSum(Barycenter, target, chain)
  }

  /** The edges a lookup result consists of, barycenter first. */
  function Hops<K>(v: Vector<K>): seq<Edge<K>> {
    if v.Leg? then [v.edge] else v.components
  }

  /**
   * `eph[key]`. An unknown name, a code outside the kernel's codes, a broken
   * or ambiguous chain all fail; otherwise the chain from the barycenter to
   * the body is returned, bare when it is one edge long.
   */
  function Lookup<K>(segs: seq<Segment>, table: NameTable, owner: K, key: Key): (r: Result<Vector<K>, Error>)
    ensures KeyCode(table, key).None? ==> r == Err(UnknownName(key.name))
    ensures r == Err(Missing(key)) <==> KeyCode(table, key).Some? && KeyCode(table, key).value !in Codes(segs)
    ensures r.Ok? ==>
      && KeyCode(table, key).Some?
      && RootPath(segs, owner, KeyCode(table, key).value, Hops(r.value))
      && r.value == Assemble(KeyCode(table, key).value, Hops(r.value))
  {
    match KeyCode(table, key)
    case None => Err(UnknownName(key.name))
    case Some(c) =>
      if c !in Codes(segs) then Err(Missing(key))
      else
        match Walk(segs, owner, key, c, {})
        case Err(e) => Err(e)
        case Ok(chain) =>
          WalkIsRootPath(segs, owner, key, c, {});
          assert Hops(Assemble(c, chain)) == chain;
          Ok(Assemble(c, chain))
  }

  /** Whenever the body is connected to the barycenter, the lookup returns exactly that connection. */
  lemma LookupFindsRootPath<K>(segs: seq<Segment>, table: NameTable, owner: K, key: Key, chain: seq<Edge<K>>)
    requires KeyCode(table, key).Some? && KeyCode(table, key).value in Codes(segs)
    requires RootPath(segs, owner, KeyCode(table, key).value, chain)
    ensures Lookup(segs, table, owner, key) == Ok(Assemble(KeyCode(table, key).value, chain))
  {
    WalkFindsRootPath(segs, owner, key, KeyCode(table, key).value, {}, chain);
  }

  /**
   * A missing barycenter link is reported only when there really is no path:
   * no partial chain is ever returned in its place.
   */
  lemma LookupBrokenMeansNoPath<K>(segs: seq<Segment>, table: NameTable, owner: K, key: Key)
    requires Lookup(segs, table, owner, key) == Err(NoBarycenterLink(key))
    ensures KeyCode(table, key).Some? && KeyCode(table, key).value in Codes(segs)
    ensures forall chain :: !RootPath(segs, owner, KeyCode(table, key).value, chain)
  {
    forall chain | RootPath(segs, owner, KeyCode(table, key).value, chain)
      ensures false
    {
      LookupFindsRootPath(segs, table, owner, key, chain);
    }
  }

  /**
   * What a successful lookup hands back. A bare edge runs from the
   * barycenter straight to the body. A VectorSum runs from the barycenter to
   * the body through components whose endpoints chain together, never has
   * exactly one component, takes every bare segment from the current list
   * (so each keeps its own source file), and every Stack in it refers back
   * to the kernel it came from.
   */
  lemma LookupShape<K>(segs: seq<Segment>, table: NameTable, owner: K, key: Key)
    ensures Lookup(segs, table, owner, key).Ok? ==>
      var v := Lookup(segs, table, owner, key).value;
      var c := KeyCode(table, key).value;
      && (v.Leg? ==> v.edge.Center() == Barycenter && v.edge.Target() == c && ValidEdge(v.edge))
      && (v.VectorSum? ==>
            && v.center == Barycenter && v.target == c
            && |v.components| != 1
            && Chained(Barycenter, c, v.components))
    ensures Lookup(segs, table, owner, key).Ok? ==>
      var comps := Hops(Lookup(segs, table, owner, key).value);
      forall i :: 0 <= i < |comps| ==>
        && (comps[i].Single? ==> comps[i].seg in segs)
        && (comps[i].Stack? ==> comps[i].ephemeris == owner && ValidEdge(comps[i]))
  {
    if Lookup(segs, table, owner, key).Ok? {
      var chain := Hops(Lookup(segs, table, owner, key).value);
      forall i | 0 <= i < |chain|
        ensures chain[i].Single? ==> chain[i].seg in segs
        ensures chain[i].Stack? ==> chain[i].ephemeris == owner && ValidEdge(chain[i])
      {
        var e := chain[i];
        assert IsEdgeOf(segs, owner, chain[i]);
        EdgeForMeaning(segs, e.Target(), owner);
        if e.Single? {
          assert e.seg in Group(segs, e.Target());
        }
      }
    }
  }
}
