/** Building the document of a partial update in place, proved against module Nest. */
module NestInPlace {
  import opened Bson
  import opened BsonInPlace
  import Nest

  /** The document in a property, made there when it holds none. */
  method DocumentIn(container: BsonDocument, name: string) returns (nested: BsonDocument)
    requires container.Valid()
    modifies container
    ensures container.Valid() && fresh(container.Repr - old(container.Repr))
    ensures name in container.elements && container.elements[name] == BsonDoc(nested)
    ensures nested.Valid() && nested.Repr <= container.Repr - {container}
    ensures var before := old(container.tree);
            container.tree == before[name := if name in before && before[name].Doc? then before[name] else Doc(map[])]
    ensures Doc(nested.tree) == container.tree[name]
  {
    if name in container.elements && container.elements[name].BsonDoc? {
      nested := container.elements[name].document;
      assert Holds(container.elements[name], container.tree[name]);
      assert container.tree == container.tree[name := container.tree[name]];
    } else {
      if name in container.elements { assert Holds(container.elements[name], container.tree[name]); }
      nested := new BsonDocument();
      SetElement(container, name, BsonDoc(nested), Doc(map[]));
    }
  }

  lemma InsertInside(fields: map<string, Tree>, path: seq<string>, value: Tree)
    requires |path| > 1
    ensures var there := if path[0] in fields && fields[path[0]].Doc? then fields[path[0]] else Doc(map[]);
            Nest.Insert(fields, path, value)
            == fields[path[0] := there][path[0] := Doc(Nest.Insert(there.fields, path[1..], value))]
  {
  }

  /** The walk down to the container of the last part of a path. */
  method SetPath(container: BsonDocument, path: seq<string>, value: Tree)
    requires container.Valid() && path != []
    modifies container.Repr
    ensures container.Valid() && fresh(container.Repr - old(container.Repr))
    ensures container.tree == Nest.Insert(old(container.tree), path, value)
    decreases |path|, 1
  {
    if |path| == 1 {
      var leaf := ToBsonValue(value);
      SetElement(container, path[0], leaf, value);
    } else {
      InsertInside(container.tree, path, value);
      var nested := DocumentIn(container, path[0]);
      SetInside(container, nested, path, value);
    }
  }

  method SetInside(container: BsonDocument, nested: BsonDocument, path: seq<string>, value: Tree)
    requires container.Valid() && |path| > 1
    requires path[0] in container.elements && container.elements[path[0]] == BsonDoc(nested)
    modifies container.Repr
    ensures container.Valid() && fresh(container.Repr - old(container.Repr))
    ensures container.tree == old(container.tree)[path[0] := Doc(Nest.Insert(old(nested.tree), path[1..], value))]
    decreases |path|, 0
  {
    assert Holds(container.elements[path[0]], container.tree[path[0]]);
    SetPath(nested, path[1..], value);
    container.tree := container.tree[path[0] := Doc(nested.tree)];
    container.Repr := container.Repr + nested.Repr;
    container.OnePropertyChanged(path[0]);
  }

  method NestEntries(entries: seq<Nest.Entry>, isDigit: char -> bool) returns (root: BsonDocument)
    ensures root.Valid() && fresh(root.Repr)
    ensures root.tree == Nest.Nested(entries, isDigit)
  {
    root := new BsonDocument();
    for i := 0 to |entries|
      invariant root.Valid() && fresh(root.Repr)
      invariant root.tree == Nest.Nested(entries[..i], isDigit)
    {
      assert entries[..i + 1][..i] == entries[..i];
      if Nest.Followed(Nest.Path(entries[i]), isDigit) {
        SetPath(root, Nest.Path(entries[i]), entries[i].1);
      }
    }
    assert entries[..|entries|] == entries;
  }
}
