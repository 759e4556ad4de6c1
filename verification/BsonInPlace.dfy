/** The driver's mutable documents and arrays: objects that hold objects, over the trees of module Bson. */
module BsonInPlace {
  import opened Bson

  datatype BsonValue =
    | BsonNull
    | BsonScalar(text: string)
    | BsonDoc(document: BsonDocument)
    | BsonArr(list: BsonArray)

  /** The objects a value is made of. */
  ghost function Footprint(v: BsonValue): set<object>
    reads if v.BsonDoc? then {v.document as object} else if v.BsonArr? then {v.list} else {}
  {
    if v.BsonDoc? then v.document.Repr else if v.BsonArr? then v.list.Repr else {}
  }

  /** The value holds the tree. */
  ghost predicate Holds(v: BsonValue, t: Tree)
    reads Footprint(v), if v.BsonDoc? then {v.document as object} else if v.BsonArr? then {v.list} else {}
    decreases Footprint(v), 1
  {
    match v
    case BsonNull => t == Null
    case BsonScalar(text) => t == Leaf(text)
    case BsonDoc(d) => d in d.Repr && d.Valid() && t == Doc(d.tree)
    case BsonArr(a) => a in a.Repr && a.Valid() && t == Arr(a.trees)
  }

  class BsonDocument {
    var elements: map<string, BsonValue>
    ghost var tree: map<string, Tree>
    ghost var Repr: set<object>

    /** No object is reached in two ways, and none contains itself. */
    ghost predicate Valid()
      reads this, Repr
      decreases Repr, 0
    {
      && this in Repr
      && elements.Keys == tree.Keys
      && (forall n | n in elements :: In(elements[n], Repr) && Footprint(elements[n]) <= Repr - {this})
      && (forall n | n in elements :: Holds(elements[n], tree[n]))
      && (forall m, n {:trigger Footprint(elements[m]), Footprint(elements[n])}
            | m in elements && n in elements && m != n :: Footprint(elements[m]) !! Footprint(elements[n]))
    }

    constructor ()
      ensures Valid() && fresh(Repr) && tree == map[]
    {
      elements, tree, Repr := map[], map[], {this};
    }

    /** The objects of one property. */
    ghost function Owned(name: string): set<object>
      requires Valid()
      reads this, Repr
    {
      if name in elements then Footprint(elements[name]) else {}
    }

    /**
     A document stays well formed when one property gets a value whose objects belong to no other property,
     and no object of another property changes.
     */
    twostate lemma OnePropertyChanged(name: string)
      requires old(Valid()) && name in elements
      requires elements == old(elements)[name := elements[name]]
      requires name in tree && tree == old(tree)[name := tree[name]]
      requires Holds(elements[name], tree[name])
      requires this !in Footprint(elements[name])
      requires Repr == old(Repr) + Footprint(elements[name])
      requires Footprint(elements[name]) !! old(Repr) - {this} - old(Owned(name))
      requires forall o | o in old(Repr) && o != this && o !in old(Owned(name)) :: unchanged(o)
      ensures Valid()
      ensures forall n | n != name :: Owned(n) == old(Owned(n))
    {
      OthersStay(name);
    }

    twostate lemma OthersStay(name: string)
      requires old(Valid()) && elements.Keys == old(elements.Keys) + {name} && tree.Keys == old(tree.Keys) + {name}
      requires forall n | n in old(elements) && n != name :: elements[n] == old(elements)[n] && tree[n] == old(tree)[n]
      requires forall o | o in old(Repr) && o != this && o !in old(Owned(name)) :: unchanged(o)
      ensures forall n | n in elements && n != name ::
                && Footprint(elements[n]) == old(Footprint(elements[n])) && Holds(elements[n], tree[n])
                && Footprint(elements[n]) <= old(Repr) - {this} - old(Owned(name)) && In(elements[n], old(Repr))
    {
      forall n | n in elements && n != name
        ensures Footprint(elements[n]) == old(Footprint(elements[n])) && Holds(elements[n], tree[n])
        ensures Footprint(elements[n]) <= old(Repr) - {this} - old(Owned(name)) && In(elements[n], old(Repr))
      {
        assert old(Holds(elements[n], tree[n]));
        if name in old(elements) {
          assert old(Footprint(elements[n])) !! old(Footprint(elements[name]));
        }
      }
    }
  }

  /** The value's own object, if it has one, is in the region. */
  ghost predicate In(v: BsonValue, region: set<object>)
  {
    (v.BsonDoc? ==> v.document in region) && (v.BsonArr? ==> v.list in region)
  }

  class BsonArray {
    var values: seq<BsonValue>
    ghost var trees: seq<Tree>
    ghost var Repr: set<object>

    ghost predicate Valid()
      reads this, Repr
      decreases Repr, 0
    {
      && this in Repr
      && |values| == |trees|
      && (forall i | 0 <= i < |values| :: In(values[i], Repr) && Footprint(values[i]) <= Repr - {this})
      && (forall i | 0 <= i < |values| :: Holds(values[i], trees[i]))
      && (forall i, j {:trigger Footprint(values[i]), Footprint(values[j])}
            | 0 <= i < j < |values| :: Footprint(values[i]) !! Footprint(values[j]))
    }

    constructor ()
      ensures Valid() && fresh(Repr) && trees == []
    {
      values, trees, Repr := [], [], {this};
    }
  }

  /** `document[name] = value`: the value's own objects become part of the document. */
  method SetElement(document: BsonDocument, name: string, value: BsonValue, ghost t: Tree)
    requires document.Valid() && Holds(value, t) && Footprint(value) !! document.Repr
    modifies document
    ensures document.Valid() && document.Repr == old(document.Repr) + Footprint(value)
    ensures document.tree == old(document.tree)[name := t] && document.elements == old(document.elements)[name := value]
    ensures forall m | m != name :: document.Owned(m) == old(document.Owned(m))
  {
    document.elements := document.elements[name := value];
    document.tree := document.tree[name := t];
    document.Repr := document.Repr + Footprint(value);
    document.OnePropertyChanged(name);
  }

  /** `document.Remove(name)`. */
  method Remove(document: BsonDocument, name: string)
    requires document.Valid()
    modifies document
    ensures document.Valid() && document.Repr == old(document.Repr)
    ensures document.tree == old(document.tree) - {name}
  {
    document.elements := document.elements - {name};
    document.tree := document.tree - {name};
  }

  // ----- Between values and objects -----

  function ToDictionary(document: BsonDocument): (r: map<string, Tree>)
    requires document.Valid()
    reads document, document.Repr
    ensures r == document.tree
    decreases document.Repr, 0
  {
    map n | n in document.elements :: ToTree(document.elements[n], document.tree[n])
  }

  function ToTree(v: BsonValue, ghost t: Tree): (r: Tree)
    requires Holds(v, t)
    reads Footprint(v), if v.BsonDoc? then {v.document as object} else if v.BsonArr? then {v.list} else {}
    ensures r == t
    decreases Footprint(v), 1
  {
    match v
    case BsonNull => Null
    case BsonScalar(text) => Leaf(text)
    case BsonDoc(d) => Doc(ToDictionary(d))
    case BsonArr(a) =>
      assert a.Valid();
      Arr(seq(|a.values|, i requires 0 <= i < |a.values| && a.Valid() reads a, a.Repr =>
        ToTree(a.values[i], a.trees[i])))
  }

  function GetValue(document: BsonDocument, name: string): (r: Tree)
    requires document.Valid()
    reads document, document.Repr
    ensures r == Doc(document.tree).Get(name)
  {
    if name in document.elements then ToTree(document.elements[name], document.tree[name]) else Null
  }

  method ToBsonValue(t: Tree) returns (v: BsonValue)
    ensures Holds(v, t) && fresh(Footprint(v))
    decreases t, 1
  {
    match t
    case Null => v := BsonNull;
    case Leaf(text) => v := BsonScalar(text);
    case Doc(_) => var d := ToBsonDocument(t); v := BsonDoc(d);
    case Arr(_) => var a := ToBsonArray(t); v := BsonArr(a);
  }

  lemma OneLess(fields: map<string, Tree>, todo: set<string>, name: string)
    requires name in todo && todo <= fields.Keys
    ensures fields - (todo - {name}) == (fields - todo)[name := fields[name]]
  {
  }

  /** `entity.ToBsonDocument()`, and `DeepClone` of such a document. */
  method ToBsonDocument(t: Tree) returns (d: BsonDocument)
    requires t.Doc?
    ensures d.Valid() && fresh(d.Repr) && Doc(d.tree) == t
    decreases t, 0
  {
    d := new BsonDocument();
    var todo := t.fields.Keys;
    while todo != {}
      invariant d.Valid() && fresh(d.Repr)
      invariant todo <= t.fields.Keys && d.tree == t.fields - todo
      decreases |todo|
    {
      var name :| name in todo;
      var value := ToBsonValue(t.fields[name]);
      SetElement(d, name, value, t.fields[name]);
      OneLess(t.fields, todo, name);
      todo := todo - {name};
    }
  }

  method ToBsonArray(t: Tree) returns (a: BsonArray)
    requires t.Arr?
    ensures a.Valid() && fresh(a.Repr) && Arr(a.trees) == t
    decreases t, 0
  {
    a := new BsonArray();
    for i := 0 to |t.items|
      invariant a.Valid() && fresh(a.Repr)
      invariant a.trees == t.items[..i]
    {
      var value := ToBsonValue(t.items[i]);
      Add(a, value, t.items[i]);
    }
  }

  method Add(list: BsonArray, value: BsonValue, ghost t: Tree)
    requires list.Valid() && Holds(value, t) && Footprint(value) !! list.Repr
    modifies list
    ensures list.Valid() && list.Repr == old(list.Repr) + Footprint(value)
    ensures list.trees == old(list.trees) + [t]
  {
    ghost var before := list.values;
    list.values := list.values + [value];
    list.trees := list.trees + [t];
    list.Repr := list.Repr + Footprint(value);
    assert forall i | 0 <= i < |before| :: old(Holds(before[i], list.trees[i]));
  }
}
