/**
 * The body-name registry. The table itself is a library constant outside the
 * model, so every operation takes it as a parameter: an ordered list of
 * (code, name) pairs in which a code may carry several names and names are
 * upper-case.
 */
module Names {
  import opened Wrappers
  import opened Segments

  type NameTable = seq<(Code, string)>

  function UpperChar(c: char): char {
    if 'a' <= c <= 'z' then (c as int - 32) as char else c
  }

  /** ASCII upper-casing, the normalisation applied to a name before it is looked up. */
  function Upper(s: string): (r: string)
    ensures |r| == |s|
    ensures forall i :: 0 <= i < |s| ==> r[i] == UpperChar(s[i])
  {
    seq(|s|, i requires 0 <= i < |s| => UpperChar(s[i]))
  }

  /** Upper-casing twice changes nothing more than upper-casing once. */
  lemma UpperIdempotent(s: string)
    ensures Upper(Upper(s)) == Upper(s)
  {
    assert forall i :: 0 <= i < |s| ==> UpperChar(UpperChar(s[i])) == UpperChar(s[i]);
  }

  /** Every code the table has at least one name for. */
  function TableCodes(table: NameTable): (r: set<Code>)
    ensures forall c :: c in r <==> exists i :: 0 <= i < |table| && table[i].0 == c
  {
    set i | 0 <= i < |table| :: table[i].0
  }

  /** The names the table lists for `c`, in table order. */
  function NamesOf(table: NameTable, c: Code): (r: seq<string>)
    ensures forall n :: n in r <==> (c, n) in table
    ensures r == [] <==> c !in TableCodes(table)
  {
    if table == [] then []
    else (if table[0].0 == c then [table[0].1] else []) + NamesOf(table[1..], c)
  }

  /**
   * The code of an exact (already upper-case) name. The reverse map is built
   * from the pairs in order, so when two codes share a name the later pair
   * wins.
   */
  function CodeOfExact(table: NameTable, n: string): (r: Option<Code>)
    ensures r.None? <==> forall i :: 0 <= i < |table| ==> table[i].1 != n
    ensures r.Some? ==>
      exists i :: 0 <= i < |table| && table[i] == (r.value, n)
                  && forall j :: i < j < |table| ==> table[j].1 != n
  {
    if table == [] then None
    else if table[|table| - 1].1 == n then Some(table[|table| - 1].0)
    else CodeOfExact(table[..|table| - 1], n)
  }

  /** Name lookup ignores case: the query is upper-cased first. */
  function CodeOf(table: NameTable, name: string): (r: Option<Code>)
    ensures r.None? <==> forall i :: 0 <= i < |table| ==> table[i].1 != Upper(name)
    ensures r.Some? ==>
      exists i :: 0 <= i < |table| && table[i] == (r.value, Upper(name))
                  && forall j :: i < j < |table| ==> table[j].1 != Upper(name)
  {
    CodeOfExact(table, Upper(name))
  }

  /**
   * A name already in upper case, as every table name is, finds exactly what
   * an exact lookup finds; and upper-casing a query first changes nothing.
   */
  lemma CodeOfUpperCase(table: NameTable, n: string)
    ensures Upper(n) == n ==> CodeOf(table, n) == CodeOfExact(table, n)
    ensures CodeOf(table, Upper(n)) == CodeOf(table, n)
  {
    UpperIdempotent(n);
  }

  /** Two spellings that differ only in letter case find the same code. */
  lemma {:induction false} CodeOfIgnoresCase(table: NameTable, a: string, b: string)
    requires |a| == |b|
    requires forall i :: 0 <= i < |a| ==> UpperChar(a[i]) == UpperChar(b[i])
    ensures CodeOf(table, a) == CodeOf(table, b)
  {
    assert Upper(a) == Upper(b);
  }

  /** The name shown for a code in summaries: the last name the table lists for it. */
  function DisplayName(table: NameTable, c: Code): (r: Option<string>)
    ensures r.Some? <==> c in TableCodes(table)
    ensures r.Some? ==>
      exists i :: 0 <= i < |table| && table[i] == (c, r.value)
                  && forall j :: i < j < |table| ==> table[j].0 != c
  {
    var ns := NamesOf(table, c);
    if ns == [] then None
    else
      LastNameIsLastPair(table, c);
      Some(ns[|ns| - 1])
  }

  /** The last name listed for a code comes from the code's last pair in the table. */
  lemma LastNameIsLastPair(table: NameTable, c: Code)
    requires NamesOf(table, c) != []
    ensures var ns := NamesOf(table, c);
      exists i :: 0 <= i < |table| && table[i] == (c, ns[|ns| - 1])
                  && forall j :: i < j < |table| ==> table[j].0 != c
  {
    var i := LastPair(table, c);
  }

  lemma {:induction false} LastPair(table: NameTable, c: Code) returns (i: nat)
    requires NamesOf(table, c) != []
    ensures i < |table| && table[i] == (c, NamesOf(table, c)[|NamesOf(table, c)| - 1])
    ensures forall j :: i < j < |table| ==> table[j].0 != c
  {
    var ns := NamesOf(table, c);
    var tail := table[1..];
    var rest := NamesOf(tail, c);
    assert ns == (if table[0].0 == c then [table[0].1] else []) + rest;
    if rest != [] {
      var k := LastPair(tail, c);
      i := k + 1;
      assert ns[|ns| - 1] == rest[|rest| - 1];
      assert table[i] == tail[k];
      forall j | i < j < |table| ensures table[j].0 != c {
        assert table[j] == tail[j - 1];
      }
    } else {
      i := 0;
      assert c !in TableCodes(tail);
      forall j | 0 < j < |table| ensures table[j].0 != c {
        assert table[j] == tail[j - 1];
      }
    }
  }

  /** The pairs `(c, n)` for each name `n` of `names`, in order. */
  function Entries(c: Code, names: seq<string>): (r: NameTable)
    ensures |r| == |names| && forall i :: 0 <= i < |r| ==> r[i] == (c, names[i])
  {
    if names == [] then [] else [(c, names[0])] + Entries(c, names[1..])
  }

  /** The names of a joined table: those of the first part, then those of the second. */
  lemma {:induction false} NamesOfConcat(a: NameTable, b: NameTable, c: Code)
    ensures NamesOf(a + b, c) == NamesOf(a, c) + NamesOf(b, c)
    decreases |a|
  {
    if a == [] {
      assert a + b == b;
    } else {
      var h: seq<string> := if a[0].0 == c then [a[0].1] else [];
      var ab := a + b;
      assert ab[0] == a[0] && ab[1..] == a[1..] + b;
      calc {
        NamesOf(ab, c);
        h + NamesOf(a[1..] + b, c);
        { NamesOfConcat(a[1..], b, c); }
        h + (NamesOf(a[1..], c) + NamesOf(b, c));
        (h + NamesOf(a[1..], c)) + NamesOf(b, c);
        NamesOf(a, c) + NamesOf(b, c);
      }
    }
  }

  /** A run of pairs for one code gives that code exactly its names. */
  lemma {:induction false} NamesOfEntries(k: Code, names: seq<string>, c: Code)
    ensures NamesOf(Entries(k, names), c) == if c == k then names else []
    decreases |names|
  {
    if names != [] {
      var e := Entries(k, names);
      var h: seq<string> := if c == k then [names[0]] else [];
      assert e[0] == (k, names[0]) && e[1..] == Entries(k, names[1..]);
      calc {
        NamesOf(e, c);
        h + NamesOf(Entries(k, names[1..]), c);
        { NamesOfEntries(k, names[1..], c); }
        h + (if c == k then names[1..] else []);
      }
      if c == k { assert names == [names[0]] + names[1..]; }
    }
  }

  /** Reverse lookup on a concatenation: the later part wins. */
  lemma {:induction false} CodeOfExactConcat(a: NameTable, b: NameTable, n: string)
    ensures CodeOfExact(a + b, n) == if CodeOfExact(b, n).Some? then CodeOfExact(b, n) else CodeOfExact(a, n)
    decreases |b|
  {
    if b == [] {
      assert a + b == a;
    } else {
      var ab := a + b;
      var b' := b[..|b| - 1];
      var last := b[|b| - 1];
      assert ab[|ab| - 1] == last && ab[..|ab| - 1] == a + b';
      if last.1 != n {
        calc {
          CodeOfExact(ab, n);
          CodeOfExact(a + b', n);
          { CodeOfExactConcat(a, b', n); }
          if CodeOfExact(b', n).Some? then CodeOfExact(b', n) else CodeOfExact(a, n);
        }
        assert CodeOfExact(b, n) == CodeOfExact(b', n);
      }
    }
  }

  /** Reverse lookup in a run of pairs for one code. */
  lemma CodeOfExactEntries(k: Code, names: seq<string>, n: string)
    ensures CodeOfExact(Entries(k, names), n) == if n in names then Some(k) else None
  {
    var e := Entries(k, names);
    if n in names {
      var i :| 0 <= i < |names| && names[i] == n;
      assert e[i].1 == n;
    }
  }
}
