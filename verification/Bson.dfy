/** Documents as trees, and the classes they are read into. */
module Bson {

  import opened Options

  /** A BSON value. Documents are maps: the order of their properties plays no part here. */
  datatype Tree =
    | Null
    | Leaf(text: string)
    | Arr(items: seq<Tree>)
    | Doc(fields: map<string, Tree>)
  {
    /** The property, or null where it is missing: `GetValue(name, BsonNull.Value)`. */
    function Get(name: string): Tree
      requires Doc?
    {
      if name in fields then fields[name] else Null
    }
  }

  /** What is found by walking down documents only; arrays are values here. */
  function At(t: Tree, path: seq<string>): Option<Tree>
    decreases |path|
  {
    if path == [] then Some(t)
    else if t.Doc? && path[0] in t.fields then At(t.fields[path[0]], path[1..])
    else None
  }

  lemma {:induction false} AtAppend(t: Tree, p: seq<string>, q: seq<string>)
    ensures At(t, p + q) == if At(t, p).Some? then At(At(t, p).value, q) else None
    decreases |p|
  {
    if p == [] {
      assert p + q == q;
    } else {
      assert (p + q)[0] == p[0] && (p + q)[1..] == p[1..] + q;
      if t.Doc? && p[0] in t.fields {
        AtAppend(t.fields[p[0]], p[1..], q);
      }
    }
  }

  ghost predicate IsDoc(t: Option<Tree>) { t.Some? && t.value.Doc? }

  /** Trees that agree on where documents are, and on everything else they hold, are equal. */
  lemma {:induction false} SameLeavesSameTree(a: Tree, b: Tree)
    requires forall p: seq<string> :: IsDoc(At(a, p)) <==> IsDoc(At(b, p))
    requires forall p: seq<string> :: !IsDoc(At(a, p)) ==> At(a, p) == At(b, p)
    ensures a == b
    decreases a
  {
    assert IsDoc(At(a, [])) <==> IsDoc(At(b, []));
    if a.Doc? {
      forall n ensures n in a.fields <==> n in b.fields {
        assert (IsDoc(At(a, [n])) <==> IsDoc(At(b, [n]))) && (!IsDoc(At(a, [n])) ==> At(a, [n]) == At(b, [n]));
        assert At(a, [n]) == if n in a.fields then At(a.fields[n], []) else None;
        assert At(b, [n]) == if n in b.fields then At(b.fields[n], []) else None;
      }
      forall n | n in a.fields ensures a.fields[n] == b.fields[n] {
        forall p: seq<string>
          ensures At(a.fields[n], p) == At(a, [n] + p) && At(b.fields[n], p) == At(b, [n] + p)
        {
          assert ([n] + p)[1..] == p;
        }
        SameLeavesSameTree(a.fields[n], b.fields[n]);
      }
      assert a.fields == b.fields;
    } else {
      assert At(a, []) == At(b, []);
    }
  }

  /** How a class reads a document: its members, each with the value a new instance holds. */
  datatype Shape = Free | List(element: Shape) | Record(members: map<string, Member>)
  datatype Member = Member(initial: Tree, shape: Shape)

  /** Deserializing into the class and serializing again: what is there stays, missing members are filled in. */
  function Filled(t: Tree, s: Shape): (r: Tree)
    ensures r.Doc? == t.Doc? && r.Arr? == t.Arr? && r.Null? == t.Null?
    decreases t
  {
    match (t, s)
    case (Doc(f), Record(m)) =>
      Doc(map n | n in f.Keys + m.Keys :: if n in f then Filled(f[n], MemberShape(s, n)) else m[n].initial)
    case (Arr(xs), List(e)) => Arr(seq(|xs|, i requires 0 <= i < |xs| => Filled(xs[i], e)))
    case _ => t
  }

  function MemberShape(s: Shape, name: string): Shape
  {
    if s.Record? && name in s.members then s.members[name].shape else Free
  }

  /** A new instance serializes to a document that already carries every member. */
  ghost predicate WellShaped(s: Shape)
  {
    match s
    case Free => true
    case List(e) => WellShaped(e)
    case Record(m) => forall n | n in m :: WellShaped(m[n].shape) && Filled(m[n].initial, m[n].shape) == m[n].initial
  }

  /** The serialized form of some instance of the class. */
  ghost predicate Serialized(t: Tree, s: Shape) { Filled(t, s) == t }

  lemma {:induction false} FilledIsSerialized(t: Tree, s: Shape)
    requires WellShaped(s)
    ensures Serialized(Filled(t, s), s)
    decreases t
  {
    match (t, s)
    case (Doc(f), Record(m)) =>
      forall n | n in f ensures Serialized(Filled(f[n], MemberShape(s, n)), MemberShape(s, n)) {
        FilledIsSerialized(f[n], MemberShape(s, n));
      }
    case (Arr(xs), List(e)) =>
      forall i | 0 <= i < |xs| ensures Serialized(Filled(xs[i], e), e) {
        FilledIsSerialized(xs[i], e);
      }
    case _ =>
  }
}
