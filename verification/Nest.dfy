/** The paths of a partial update as a document, for the rules that are written against documents. */
module Nest {
  import opened Options
  import opened Bson
  import Strings

  /** One `$set` entry: a dotted path and the value to set. */
  type Entry = (string, Tree)

  function Path(e: Entry): (p: seq<string>)
    ensures p != []
  {
    Strings.Split(e.0, '.')
  }

  /** Positions in lists, positional operators and empty names cannot be followed without the stored list. */
  predicate Followed(path: seq<string>, isDigit: char -> bool)
  {
    forall part | part in path :: !("$" <= part) && !(forall c | c in part :: isDigit(c))
  }

  predicate Kept(e: Entry, isDigit: char -> bool) { Followed(Path(e), isDigit) }

  function Insert(fields: map<string, Tree>, path: seq<string>, value: Tree): map<string, Tree>
    requires path != []
    decreases |path|
  {
    if |path| == 1 then fields[path[0] := value]
    else
      var inner := if path[0] in fields && fields[path[0]].Doc? then fields[path[0]].fields else map[];
      fields[path[0] := Doc(Insert(inner, path[1..], value))]
  }

  function Nested(entries: seq<Entry>, isDigit: char -> bool): map<string, Tree>
  {
    if entries == [] then map[]
    else
      var before := Nested(entries[..|entries| - 1], isDigit);
      var e := entries[|entries| - 1];
      if Kept(e, isDigit) then Insert(before, Path(e), e.1) else before
  }

  // ----- What the built document holds -----

  /** No kept path leads through another. */
  ghost predicate PrefixFree(entries: seq<Entry>, isDigit: char -> bool)
  {
    forall d, e | d in entries && e in entries && Kept(d, isDigit) && Kept(e, isDigit) && Path(d) <= Path(e) :: d == e
  }

  lemma {:induction false} InsertAt(fields: map<string, Tree>, path: seq<string>, value: Tree, q: seq<string>)
    requires path != []
    ensures var t := Doc(Insert(fields, path, value));
            && (path <= q ==> At(t, q) == At(value, q[|path|..]))
            && (q <= path && q != path ==> IsDoc(At(t, q)))
            && (!(path <= q) && !(q <= path) ==> At(t, q) == At(Doc(fields), q))
    decreases |path|
  {
    if q != [] {
      if |path| == 1 {
        if path <= q { assert q[|path|..] == q[1..]; }
      } else if q[0] == path[0] {
        var inner := if path[0] in fields && fields[path[0]].Doc? then fields[path[0]].fields else map[];
        InsertAt(inner, path[1..], value, q[1..]);
        SameFirst(path, q);
      }
    }
  }

  lemma SameFirst(p: seq<string>, q: seq<string>)
    requires p != [] && q != [] && p[0] == q[0]
    ensures p <= q <==> p[1..] <= q[1..]
    ensures q <= p <==> q[1..] <= p[1..]
    ensures p == q <==> p[1..] == q[1..]
    ensures p <= q ==> q[1..][|p[1..]|..] == q[|p|..]
  {
    assert p == [p[0]] + p[1..] && q == [q[0]] + q[1..];
  }

  /**
   For prefix-free paths the document holds, wherever one looks: the value set there or the part of a set
   value that lies there, a document on the way to a set value, and nothing anywhere else.
   */
  lemma {:induction false} NestedAt(entries: seq<Entry>, isDigit: char -> bool, q: seq<string>)
    requires PrefixFree(entries, isDigit)
    ensures var t := Doc(Nested(entries, isDigit));
            && (forall e | e in entries && Kept(e, isDigit) && Path(e) <= q :: At(t, q) == At(e.1, q[|Path(e)|..]))
            && ((forall e | e in entries && Kept(e, isDigit) :: !(Path(e) <= q)) ==>
                  if q == [] || exists e :: e in entries && Kept(e, isDigit) && q <= Path(e)
                  then IsDoc(At(t, q)) else At(t, q).None?)
    decreases |entries|
  {
    if entries != [] {
      var init := entries[..|entries| - 1];
      var last := entries[|entries| - 1];
      assert forall e :: e in entries <==> e in init || e == last;
      NestedAt(init, isDigit, q);
      if Kept(last, isDigit) {
        var p := Path(last);
        InsertAt(Nested(init, isDigit), p, last.1, q);
        if p <= q {
          forall e | e in entries && Kept(e, isDigit) && Path(e) <= q ensures e == last {
            assert Path(e) <= p || p <= Path(e);
          }
        } else if q <= p {
          forall e | e in entries && Kept(e, isDigit) && Path(e) <= q ensures e == last {
            assert Path(e) <= p;
          }
        }
      }
    }
  }

  /** A part of a path that is a position in a list, a positional operator or empty. */
  ghost predicate IsPosition(part: string, isDigit: char -> bool)
  {
    part == "" || part[0] == '$' || forall i | 0 <= i < |part| :: isDigit(part[i])
  }

  /** The next entry is left out when its path has such a part, and otherwise its value is found at its path. */
  lemma NextEntry(entries: seq<Entry>, name: string, value: Tree, isDigit: char -> bool)
    ensures var path := Strings.Split(name, '.');
            if exists part | part in path :: IsPosition(part, isDigit)
            then Nested(entries + [(name, value)], isDigit) == Nested(entries, isDigit)
            else At(Doc(Nested(entries + [(name, value)], isDigit)), path) == Some(value)
  {
    var e: Entry := (name, value);
    assert (entries + [e])[..|entries|] == entries;
    forall part: string ensures IsPosition(part, isDigit) <==> "$" <= part || forall c | c in part :: isDigit(c) {
      PositionIs(part, isDigit);
    }
    if Kept(e, isDigit) {
      InsertAt(Nested(entries, isDigit), Path(e), value, Path(e));
      assert Path(e)[|Path(e)|..] == [];
    }
  }

  lemma PositionIs(part: string, isDigit: char -> bool)
    ensures IsPosition(part, isDigit) <==> "$" <= part || forall c | c in part :: isDigit(c)
  {
    if part != "" && part[0] == '$' { assert "$" <= part; }
    assert forall i | 0 <= i < |part| :: part[i] in part;
  }

  // ----- Round trip -----

  /** Everything in the tree that is not a document, with the path to it. */
  ghost function Leaves(t: Tree): set<(seq<string>, Tree)>
    decreases t
  {
    if t.Doc? then set n, l | n in t.fields && l in Leaves(t.fields[n]) :: ([n] + l.0, l.1) else {([], t)}
  }

  lemma {:induction false} LeavesAre(t: Tree, q: seq<string>, v: Tree)
    ensures (q, v) in Leaves(t) <==> At(t, q) == Some(v) && !v.Doc?
    decreases t
  {
    if t.Doc? {
      if q != [] && q[0] in t.fields {
        LeavesAre(t.fields[q[0]], q[1..], v);
        assert [q[0]] + q[1..] == q;
        if (q[1..], v) in Leaves(t.fields[q[0]]) {
          assert ([q[0]] + (q[1..], v).0, v) in Leaves(t);
        }
      }
      if (q, v) in Leaves(t) {
        var n, l :| n in t.fields && l in Leaves(t.fields[n]) && (q, v) == ([n] + l.0, l.1);
        assert q[1..] == l.0;
      }
    }
  }

  /** The document as dotted paths again. */
  ghost function Flattened(root: map<string, Tree>): set<Entry>
  {
    set l | l in Leaves(Doc(root)) && l.0 != [] :: (Strings.Join(l.0, '.'), l.1)
  }

  ghost function KeptEntries(entries: seq<Entry>, isDigit: char -> bool): set<Entry>
  {
    set e | e in entries && Kept(e, isDigit)
  }

  /**
   Entries with distinct paths whose values are not documents come back exactly when no kept path leads
   through another.
   */
  lemma RoundTripIff(entries: seq<Entry>, isDigit: char -> bool)
    requires forall e | e in entries :: !e.1.Doc?
    requires forall d, e | d in entries && e in entries && d.0 == e.0 :: d == e
    ensures Flattened(Nested(entries, isDigit)) == KeptEntries(entries, isDigit) <==> PrefixFree(entries, isDigit)
  {
    if PrefixFree(entries, isDigit) {
      PrefixFreeComesBack(entries, isDigit);
    }
    if Flattened(Nested(entries, isDigit)) == KeptEntries(entries, isDigit) {
      ComesBackPrefixFree(entries, isDigit);
    }
  }

  /** A path that leads through another takes its place: the value set first does not come back. */
  lemma LaterPathTakesThePlace(isDigit: char -> bool)
    requires !isDigit('a') && !isDigit('b')
    ensures var d, e := ("a", Leaf("1")), ("a.b", Leaf("2"));
            && Kept(d, isDigit) && Kept(e, isDigit)
            && Nested([d, e], isDigit) == map["a" := Doc(map["b" := Leaf("2")])]
            && Flattened(Nested([d, e], isDigit)) != KeptEntries([d, e], isDigit)
  {
    var d, e := ("a", Leaf("1")), ("a.b", Leaf("2"));
    PathsOfTwo();
    assert 'a' in "a" && 'b' in "b" && Kept(d, isDigit) && Kept(e, isDigit);
    NestedTwo(d, e, isDigit);
    SecondInsert(Leaf("1"), Leaf("2"));
    NotPrefixFree(d, e, isDigit);
    RoundTripIff([d, e], isDigit);
  }

  lemma PathsOfTwo()
    ensures Path(("a", Leaf("1"))) == ["a"] && Path(("a.b", Leaf("2"))) == ["a", "b"]
  {
    assert "a.b" == "a" + ['.'] + "b";
    Strings.SplitWithout("a", '.');
    Strings.SplitWithout("b", '.');
    Strings.SplitAppend("a", "b", '.');
  }

  lemma NestedTwo(d: Entry, e: Entry, isDigit: char -> bool)
    requires Kept(d, isDigit) && Kept(e, isDigit)
    ensures Nested([d, e], isDigit) == Insert(Insert(map[], Path(d), d.1), Path(e), e.1)
  {
    var none: seq<Entry> := [];
    var one, two := [d], [d, e];
    assert one[..0] == none && two[..1] == one;
    assert Nested(none, isDigit) == map[];
    assert Nested(one, isDigit) == Insert(map[], Path(d), d.1);
    assert two[|two| - 1] == e;
  }

  lemma SecondInsert(first: Tree, second: Tree)
    requires !first.Doc?
    ensures Insert(Insert(map[], ["a"], first), ["a", "b"], second) == map["a" := Doc(map["b" := second])]
  {
    assert ["a", "b"][1..] == ["b"];
    assert Insert(map[], ["b"], second) == map["b" := second];
    assert Insert(map[], ["a"], first) == map["a" := first];
  }

  lemma NotPrefixFree(d: Entry, e: Entry, isDigit: char -> bool)
    requires Kept(d, isDigit) && Kept(e, isDigit) && Path(d) <= Path(e) && d != e
    ensures !PrefixFree([d, e], isDigit)
  {
    assert d in [d, e] && e in [d, e];
  }

  lemma PrefixFreeComesBack(entries: seq<Entry>, isDigit: char -> bool)
    requires PrefixFree(entries, isDigit) && forall e | e in entries :: !e.1.Doc?
    ensures Flattened(Nested(entries, isDigit)) == KeptEntries(entries, isDigit)
  {
    var root := Nested(entries, isDigit);
    forall e | e in KeptEntries(entries, isDigit) ensures e in Flattened(root) {
      NestedAt(entries, isDigit, Path(e));
      assert At(e.1, Path(e)[|Path(e)|..]) == Some(e.1);
      LeavesAre(Doc(root), Path(e), e.1);
      Strings.JoinSplit(e.0, '.');
      assert e == (Strings.Join((Path(e), e.1).0, '.'), (Path(e), e.1).1);
    }
    forall f | f in Flattened(root) ensures f in KeptEntries(entries, isDigit) {
      var l :| l in Leaves(Doc(root)) && l.0 != [] && f == (Strings.Join(l.0, '.'), l.1);
      LeavesAre(Doc(root), l.0, l.1);
      FoundIsKept(entries, isDigit, l.0, l.1);
    }
  }

  lemma ComesBackPrefixFree(entries: seq<Entry>, isDigit: char -> bool)
    requires forall e | e in entries :: !e.1.Doc?
    requires forall d, e | d in entries && e in entries && d.0 == e.0 :: d == e
    requires Flattened(Nested(entries, isDigit)) == KeptEntries(entries, isDigit)
    ensures PrefixFree(entries, isDigit)
  {
    forall d, e | d in entries && e in entries && Kept(d, isDigit) && Kept(e, isDigit) && Path(d) <= Path(e)
      ensures d == e
    {
      assert d in KeptEntries(entries, isDigit) && e in KeptEntries(entries, isDigit);
      FlattenedAt(entries, isDigit, d);
      FlattenedAt(entries, isDigit, e);
      LeafEndsPath(Doc(Nested(entries, isDigit)), Path(d), Path(e));
      SamePathSameName(d, e);
    }
  }

  lemma LeafEndsPath(t: Tree, p: seq<string>, q: seq<string>)
    requires p <= q && At(t, p).Some? && !At(t, p).value.Doc? && At(t, q).Some?
    ensures p == q
  {
    var rest := q[|p|..];
    assert p + rest == q;
    AtAppend(t, p, rest);
  }

  lemma SamePathSameName(d: Entry, e: Entry)
    requires Path(d) == Path(e)
    ensures d.0 == e.0
  {
    Strings.JoinSplit(d.0, '.');
    Strings.JoinSplit(e.0, '.');
  }

  lemma FoundIsKept(entries: seq<Entry>, isDigit: char -> bool, q: seq<string>, v: Tree)
    requires PrefixFree(entries, isDigit) && q != []
    requires forall e | e in entries :: !e.1.Doc?
    requires At(Doc(Nested(entries, isDigit)), q) == Some(v) && !v.Doc?
    ensures exists e :: e in entries && Kept(e, isDigit) && Path(e) == q && e == (Strings.Join(q, '.'), v)
  {
    NestedAt(entries, isDigit, q);
    var e :| e in entries && Kept(e, isDigit) && Path(e) <= q;
    assert At(e.1, q[|Path(e)|..]) == Some(v);
    assert q[|Path(e)|..] == [] && At(e.1, []) == Some(e.1);
    assert Path(e) == q;
    Strings.JoinSplit(e.0, '.');
  }

  lemma FlattenedAt(entries: seq<Entry>, isDigit: char -> bool, e: Entry)
    requires forall d | d in entries :: !d.1.Doc?
    requires e in Flattened(Nested(entries, isDigit))
    ensures At(Doc(Nested(entries, isDigit)), Path(e)) == Some(e.1) && !e.1.Doc?
  {
    var root := Nested(entries, isDigit);
    var l :| l in Leaves(Doc(root)) && l.0 != [] && e == (Strings.Join(l.0, '.'), l.1);
    LeavesAre(Doc(root), l.0, l.1);
    NamesHaveNoDots(entries, isDigit, l.0);
    Strings.SplitJoin(l.0, '.');
  }

  lemma {:induction false} NamesHaveNoDots(entries: seq<Entry>, isDigit: char -> bool, q: seq<string>)
    requires forall d | d in entries :: !d.1.Doc?
    requires At(Doc(Nested(entries, isDigit)), q).Some?
    ensures forall part | part in q :: '.' !in part
    decreases |entries|
  {
    if entries != [] {
      var init := entries[..|entries| - 1];
      var last := entries[|entries| - 1];
      if Kept(last, isDigit) {
        InsertAt(Nested(init, isDigit), Path(last), last.1, q);
        Strings.SplitParts(last.0, '.');
      }
      if Kept(last, isDigit) && Path(last) <= q {
        assert q[|Path(last)|..] == [];
        assert q == Path(last);
      } else if !(Kept(last, isDigit) && q <= Path(last)) {
        NamesHaveNoDots(init, isDigit, q);
      }
    }
  }

  /** The order in which the entries of an update are listed does not matter. */
  lemma {:induction false} OrderDoesNotMatter(a: seq<Entry>, b: seq<Entry>, isDigit: char -> bool)
    requires PrefixFree(a, isDigit)
    requires forall e :: e in a <==> e in b
    ensures Nested(a, isDigit) == Nested(b, isDigit)
  {
    forall q: seq<string>
      ensures var s, t := Doc(Nested(a, isDigit)), Doc(Nested(b, isDigit));
              (IsDoc(At(s, q)) <==> IsDoc(At(t, q))) && (!IsDoc(At(s, q)) ==> At(s, q) == At(t, q))
    {
      NestedAt(a, isDigit, q);
      NestedAt(b, isDigit, q);
    }
    SameLeavesSameTree(Doc(Nested(a, isDigit)), Doc(Nested(b, isDigit)));
  }
}
