/**
 * The kernel object: it owns the segment list, which its user may replace
 * or extend at will, and recomputes its codes, names, files and lookups from
 * whatever the list holds at the moment of the call.
 */
module Kernel {
  import opened Wrappers
  import opened Segments
  import opened Names
  import Views
  import opened VectorSums
  import Lookups

  class SpiceKernel {
    var segments: seq<Segment>

    /** A kernel holding the segments decoded from its files, in file order. */
    constructor (segs: seq<Segment>)
      ensures segments == segs
    {
      segments := segs;
    }

    /** `eph.segments = [...]`: the list is replaced wholesale; nothing of the old list survives in the codes. */
    method Replace(segs: seq<Segment>)
      modifies this
      ensures segments == segs
      ensures forall c :: Contains(c) <==> exists i :: 0 <= i < |segs| && segs[i].Touches(c)
    {
      segments := segs;
    }

    /**
     * `eph.segments.extend(...)`: new segments go after the old ones. The
     * codes grow by exactly the new segments' codes, the files already
     * shown keep their place at the front of the file list, and the old repr
     * text, up to its closing bracket, starts the new one.
     */
    method Extend(more: seq<Segment>)
      modifies this
      ensures segments == old(segments) + more
      ensures Codes() == old(Codes()) + Views.Codes(more)
      ensures |old(Files())| <= |Files()| && Files()[..|old(Files())|] == old(Files())
      ensures old(Repr())[..|old(Repr())| - 1] <= Repr()
    {
      Views.CodesOfAppend(segments, more);
      Views.FilesOfAppend(segments, more);
      var shown, all := Files(), Views.Files(segments + more);
      assert all == shown + all[|shown|..];
      Views.ReprTextAppend(shown, all[|shown|..]);
      segments := segments + more;
    }

    /** `eph.codes`: every center and every target of the current segments. */
    function Codes(): (r: set<Code>)
      reads this
      ensures forall c :: c in r <==> exists i :: 0 <= i < |segments| && segments[i].Touches(c)
    {
      Views.Codes(segments)
    }

    /** `code in eph`: some current segment starts or ends at the code. */
    predicate Contains(c: Code)
      reads this
      ensures Contains(c) <==> exists i :: 0 <= i < |segments| && segments[i].Touches(c)
    {
      c in Codes()
    }

    /** `eph.names()`: the kernel's codes that have names, each with every name the table gives it. */
    function NameMap(table: NameTable): (r: map<Code, seq<string>>)
      reads this
      ensures forall c :: c in r <==> Contains(c) && c in TableCodes(table)
      ensures forall c, n :: c in r ==> (n in r[c] <==> (c, n) in table)
    {
      Views.NamesView(segments, table)
    }

    /** The source files in first-use order, as `repr(eph)` lists them. */
    function Files(): seq<string>
      reads this
    {
      Views.Files(segments)
    }

    /** `repr(eph)`: the class name in angle brackets, followed by the files when there are any. */
    function Repr(): (r: string)
      reads this
      ensures |r| >= 13 && r[..12] == "<SpiceKernel" && r[|r| - 1] == '>'
      ensures segments == [] <==> r == "<SpiceKernel>"
    {
      assert segments != [] ==> segments[0].file in Files();
      Views.ReprText(Files())
    }

    /** `str(eph)`, without its date lines. */
    function Summary(table: NameTable): seq<Views.Block>
      reads this
    {
      Views.Summary(segments, table)
    }

    /** `eph[key]`; every Stack it returns refers back to this kernel. */
    function Get(table: NameTable, key: Key): (r: Result<Vector<SpiceKernel>, Error>)
      reads this
      ensures r == Err(Missing(key)) <==> Lookups.KeyCode(table, key).Some? && !Contains(Lookups.KeyCode(table, key).value)
      ensures r.Ok? ==>
        forall i :: 0 <= i < |Lookups.Hops(r.value)| && Lookups.Hops(r.value)[i].Stack? ==> Lookups.Hops(r.value)[i].ephemeris == this
    {
      Lookups.LookupShape(segments, table, this, key);
      Lookups.Lookup(segments, table, this, key)
    }
  }
}
