/**
 The column mask working in place on the driver's documents and arrays. Each method is proved against the
 functions of module ColumnMask, over the trees the objects hold.
 */
module ColumnMaskInPlace {
  import opened Bson
  import opened BsonInPlace
  import opened ColumnMask
  import Lens = ColumnMask

  // ----- Taking out -----

  /** A document part of whose properties, those not in `todo`, have been masked. */
  ghost function Swept(before: map<string, Tree>, row: map<string, Tree>, todo: set<string>): map<string, Tree>
  {
    map n | n in before && (n in todo || !Cleared(before[n], row, n)) ::
      if n in todo then before[n] else Masked(before[n], Entry(row, n))
  }

  ghost predicate SweptAny(before: map<string, Tree>, row: map<string, Tree>, todo: set<string>)
  {
    exists n | n in before && n !in todo :: Cleared(before[n], row, n) || TakesOut(before[n], Entry(row, n))
  }

  ghost function PropertyMasked(tree: map<string, Tree>, name: string, row: map<string, Tree>): map<string, Tree>
    requires name in tree
  {
    if Cleared(tree[name], row, name) then tree - {name} else tree[name := Masked(tree[name], Entry(row, name))]
  }

  lemma {:induction false} SweptStep(before: map<string, Tree>, row: map<string, Tree>, todo: set<string>, name: string)
    requires todo <= before.Keys && name in todo
    ensures name in Swept(before, row, todo) && Swept(before, row, todo)[name] == before[name]
    ensures PropertyMasked(Swept(before, row, todo), name, row) == Swept(before, row, todo - {name})
    ensures SweptAny(before, row, todo - {name})
            <==> SweptAny(before, row, todo) || Cleared(before[name], row, name)
                 || TakesOut(before[name], Entry(row, name))
  {
  }

  lemma {:induction false} SweptEnds(before: map<string, Tree>, row: map<string, Tree>, todo: set<string>)
    requires todo == set n | n in before && before[n] != Null
    ensures Swept(before, row, todo) == before && !SweptAny(before, row, todo)
    ensures Doc(Swept(before, row, {})) == Masked(Doc(before), Doc(row))
    ensures SweptAny(before, row, {}) == TakesOut(Doc(before), Doc(row))
  {
  }

  /** Takes out of `document` what the mask cleared in `row`; true when anything was. */
  method RemoveHidden(document: BsonDocument, row: map<string, Tree>) returns (changed: bool)
    requires document.Valid()
    modifies document.Repr
    ensures document.Valid() && document.Repr == old(document.Repr)
    ensures Doc(document.tree) == Masked(Doc(old(document.tree)), Doc(row))
    ensures changed == TakesOut(Doc(old(document.tree)), Doc(row))
    decreases document.Repr, 2
  {
    changed := false;
    ghost var before := document.tree;
    var todo := set n | n in document.elements && !document.elements[n].BsonNull?;
    SweptEnds(before, row, todo);
    while todo != {}
      invariant document.Valid() && document.Repr == old(document.Repr)
      invariant todo <= before.Keys && forall n | n in todo :: before[n] != Null
      invariant document.tree == Swept(before, row, todo)
      invariant changed <==> SweptAny(before, row, todo)
      decreases |todo|
    {
      var name :| name in todo;
      SweptStep(before, row, todo, name);
      var took := RemoveHiddenProperty(document, name, row);
      changed := changed || took;
      todo := todo - {name};
    }
  }

  /** One property: taken out when the mask cleared it, otherwise checked inside. */
  method RemoveHiddenProperty(document: BsonDocument, name: string, row: map<string, Tree>) returns (changed: bool)
    requires document.Valid() && name in document.tree && document.tree[name] != Null
    modifies document.Repr
    ensures document.Valid() && document.Repr == old(document.Repr)
    ensures document.tree == PropertyMasked(old(document.tree), name, row)
    ensures changed == (Cleared(old(document.tree)[name], row, name)
                        || TakesOut(old(document.tree)[name], Entry(row, name)))
    decreases document.Repr, 1
  {
    if name !in row || row[name] == Null {
      Remove(document, name);
      return true;
    }
    changed := false;
    ghost var t := document.tree[name];
    assert Holds(document.elements[name], t);
    match document.elements[name] {
      case BsonDoc(nested) =>
        if row[name].Doc? {
          changed := RemoveHidden(nested, row[name].fields);
          t := Doc(nested.tree);
        }
      case BsonArr(list) =>
        assert list.Valid();
        if row[name].Arr? && |row[name].items| == |list.values| {
          changed := RemoveHiddenInArray(list, row[name].items);
          t := Arr(list.trees);
        }
      case _ =>
    }
    assert t == Masked(old(document.tree)[name], row[name]);
    assert changed == TakesOut(old(document.tree)[name], row[name]);
    document.tree := document.tree[name := t];
    document.OnePropertyChanged(name);
  }

  /** The documents of an array, paired by position with the masked items. */
  method RemoveHiddenInArray(list: BsonArray, items: seq<Tree>) returns (changed: bool)
    requires list.Valid() && |items| == |list.trees|
    modifies list.Repr
    ensures list.Valid() && list.Repr == old(list.Repr)
    ensures Arr(list.trees) == Masked(Arr(old(list.trees)), Arr(items))
    ensures changed == TakesOut(Arr(old(list.trees)), Arr(items))
    decreases list.Repr, 2
  {
    changed := false;
    ghost var before := list.trees;
    for i := 0 to |list.values|
      invariant list.Valid() && list.Repr == old(list.Repr) && list.values == old(list.values)
      invariant |list.trees| == |before|
      invariant forall k | 0 <= k < i :: list.trees[k] == MaskedItem(before[k], items[k])
      invariant forall k | i <= k < |before| :: list.trees[k] == before[k]
      invariant changed <==> exists k | 0 <= k < i :: before[k].Doc? && items[k].Doc? && TakesOut(before[k], items[k])
    {
      if list.values[i].BsonDoc? && items[i].Doc? {
        var took := MaskItem(list, i, list.values[i].document, items[i].fields);
        changed := changed || took;
      }
    }
  }

  method MaskItem(list: BsonArray, i: nat, item: BsonDocument, row: map<string, Tree>) returns (changed: bool)
    requires list.Valid() && i < |list.values| && list.values[i] == BsonDoc(item)
    modifies list.Repr
    ensures list.Valid() && list.Repr == old(list.Repr) && list.values == old(list.values)
    ensures list.trees == old(list.trees)[i := Masked(old(list.trees)[i], Doc(row))]
    ensures changed == TakesOut(old(list.trees)[i], Doc(row))
    decreases list.Repr, 0
  {
    assert forall k | 0 <= k < |list.values| && k != i :: Footprint(list.values[k]) !! Footprint(list.values[i]);
    changed := RemoveHidden(item, row);
    list.trees := list.trees[i := Doc(item.tree)];
  }

  // ----- Putting back -----

  /** A document some of whose properties, those not in `todo`, have been settled. */
  ghost function Settled(before: Tree, stored: Tree, view: Tree, shown: Tree, todo: set<string>): map<string, Tree>
    requires before.Doc? && stored.Doc? && view.Doc? && shown.Doc?
  {
    map n | n in before.fields.Keys + stored.fields.Keys
            && (n in before.fields || (n !in todo && PutsBack(before, stored, view, shown, n))) ::
      if n in todo then before.fields[n] else RestoredProperty(before, stored, view, shown, n)
  }

  /** The properties once one of them has been settled. */
  ghost function After(u: Tree, s: Tree, v: Tree, h: Tree, name: string): map<string, Tree>
    requires u.Doc? && s.Doc? && v.Doc? && h.Doc?
  {
    if name in u.fields || PutsBack(u, s, v, h, name)
    then u.fields[name := RestoredProperty(u, s, v, h, name)] else u.fields
  }

  ghost predicate SettledAny(before: Tree, stored: Tree, view: Tree, shown: Tree, todo: set<string>)
    requires before.Doc? && stored.Doc? && view.Doc? && shown.Doc?
  {
    exists n | n in stored.fields && n !in todo :: PutsBackIn(before, stored, view, shown, n)
  }

  lemma {:induction false} SettledStarts(before: Tree, stored: Tree, view: Tree, shown: Tree)
    requires before.Doc? && stored.Doc? && view.Doc? && shown.Doc?
    ensures Settled(before, stored, view, shown, stored.fields.Keys) == before.fields
    ensures !SettledAny(before, stored, view, shown, stored.fields.Keys)
  {
    var all := Settled(before, stored, view, shown, stored.fields.Keys);
    assert all.Keys == before.fields.Keys;
    assert forall n | n in before.fields :: all[n] == before.fields[n];
  }

  lemma {:induction false} SettledEnds(before: Tree, stored: Tree, view: Tree, shown: Tree)
    requires before.Doc? && stored.Doc? && view.Doc? && shown.Doc?
    ensures Doc(Settled(before, stored, view, shown, {})) == Restored(before, stored, view, shown)
    ensures SettledAny(before, stored, view, shown, {}) == PutsBackAny(before, stored, view, shown)
  {
    var all := Settled(before, stored, view, shown, {});
    var r := Restored(before, stored, view, shown);
    assert all.Keys == r.fields.Keys;
    assert forall n | n in all :: all[n] == r.fields[n];
  }

  lemma {:induction false} SettledStep(
    before: Tree, stored: Tree, view: Tree, shown: Tree, todo: set<string>, name: string)
    requires before.Doc? && stored.Doc? && view.Doc? && shown.Doc?
    requires todo <= stored.fields.Keys && name in todo
    ensures var now := Doc(Settled(before, stored, view, shown, todo));
            && Settled(before, stored, view, shown, todo - {name}) == After(now, stored, view, shown, name)
            && PutsBackIn(now, stored, view, shown, name) == PutsBackIn(before, stored, view, shown, name)
    ensures SettledAny(before, stored, view, shown, todo - {name})
            <==> SettledAny(before, stored, view, shown, todo) || PutsBackIn(before, stored, view, shown, name)
  {
  }

  /**
   Between two steps of putting back: what is still to be settled in the update is its own, and what is
   still to be taken from the stored document is not yet part of the update.
   */
  ghost predicate Apart(update: BsonDocument, stored: BsonDocument, todo: set<string>, own: set<object>)
    reads update, update.Repr, stored, stored.Repr
  {
    && update.Valid() && stored.Valid()
    && todo <= stored.elements.Keys
    && update in own && own !! stored.Repr && update.Repr <= own + stored.Repr
    && (forall n | n in todo :: Footprint(stored.elements[n]) !! update.Repr)
    && (forall n | n in todo :: update.Owned(n) <= own)
  }

  /** The three documents that are only read share nothing with the objects that may be written. */
  ghost predicate Readable(stored: BsonDocument, view: BsonDocument, shown: BsonDocument, own: set<object>)
    reads stored, stored.Repr, view, view.Repr, shown, shown.Repr
  {
    stored.Valid() && view.Valid() && shown.Valid() && own !! stored.Repr + view.Repr + shown.Repr
  }

  /** Puts back, property by property, what the mask took out of `view`; true when anything was. */
  method Restore(update: BsonDocument, stored: BsonDocument, view: BsonDocument, shown: BsonDocument)
    returns (changed: bool)
    requires update.Valid() && stored.Valid() && view.Valid() && shown.Valid()
    requires update.Repr !! stored.Repr + view.Repr + shown.Repr
    modifies update.Repr
    ensures update.Valid() && update.Repr <= old(update.Repr) + stored.Repr
    ensures Doc(update.tree) == Restored(Doc(old(update.tree)), Doc(stored.tree), Doc(view.tree), Doc(shown.tree))
    ensures changed == PutsBackAny(Doc(old(update.tree)), Doc(stored.tree), Doc(view.tree), Doc(shown.tree))
    decreases stored.Repr, 3
  {
    changed := false;
    ghost var own := update.Repr;
    ghost var u, s, v, h := Doc(update.tree), Doc(stored.tree), Doc(view.tree), Doc(shown.tree);
    SettledStarts(u, s, v, h);
    SettledEnds(u, s, v, h);
    var todo := stored.elements.Keys;
    while todo != {}
      invariant Apart(update, stored, todo, own) && Readable(stored, view, shown, own)
      invariant unchanged(stored) && unchanged(view) && unchanged(shown)
      invariant update.tree == Settled(u, s, v, h, todo)
      invariant changed <==> SettledAny(u, s, v, h, todo)
      decreases |todo|
    {
      var name :| name in todo;
      SettledStep(u, s, v, h, todo, name);
      var put := RestoreNext(update, stored, view, shown, name, todo, own);
      changed := changed || put;
      todo := todo - {name};
    }
  }

  method RestoreNext(update: BsonDocument, stored: BsonDocument, view: BsonDocument, shown: BsonDocument, name: string,
                     ghost todo: set<string>, ghost own: set<object>) returns (changed: bool)
    requires Apart(update, stored, todo, own) && Readable(stored, view, shown, own) && name in todo
    modifies own
    ensures Apart(update, stored, todo - {name}, own) && Readable(stored, view, shown, own)
    ensures unchanged(stored) && unchanged(view) && unchanged(shown)
    ensures update.tree == After(Doc(old(update.tree)), Doc(stored.tree), Doc(view.tree), Doc(shown.tree), name)
    ensures changed == PutsBackIn(Doc(old(update.tree)), Doc(stored.tree), Doc(view.tree), Doc(shown.tree), name)
    decreases stored.Repr, 2
  {
    changed := RestoreProperty(update, stored, view, shown, name);
    forall n | n in todo - {name}
      ensures update.Owned(n) <= own && Footprint(stored.elements[n]) !! update.Repr
    {
      assert Footprint(stored.elements[n]) !! Footprint(stored.elements[name]);
    }
  }

  method RestoreProperty(
    update: BsonDocument, stored: BsonDocument, view: BsonDocument, shown: BsonDocument, name: string)
      returns (changed: bool)
    requires update.Valid() && stored.Valid() && view.Valid() && shown.Valid()
    requires name in stored.elements
    requires Footprint(stored.elements[name]) !! update.Repr
    requires {update} + update.Owned(name) !! stored.Repr + view.Repr + shown.Repr
    modifies {update} + update.Owned(name)
    ensures update.Valid() && update.Repr <= old(update.Repr) + Footprint(stored.elements[name])
    ensures forall m | m != name :: update.Owned(m) == old(update.Owned(m))
    ensures update.tree == After(Doc(old(update.tree)), Doc(stored.tree), Doc(view.tree), Doc(shown.tree), name)
    ensures changed == PutsBackIn(Doc(old(update.tree)), Doc(stored.tree), Doc(view.tree), Doc(shown.tree), name)
    decreases stored.Repr, 1
  {
    var element := stored.elements[name];
    assert Holds(element, stored.tree[name]);
    if name !in view.elements {
      changed := RestoreHidden(update, stored, view, shown, name);
    } else if name in update.elements && name in shown.elements {
      ghost var v, h := view.tree[name], shown.tree[name];
      assert Holds(view.elements[name], v) && Holds(shown.elements[name], h);
      VisibleProperty(Doc(update.tree), Doc(stored.tree), Doc(view.tree), Doc(shown.tree), name);
      changed := RestoreVisible(
        update, name, element, view.elements[name], shown.elements[name], stored.tree[name], v, h);
    } else {
      OtherProperty(Doc(update.tree), Doc(stored.tree), Doc(view.tree), Doc(shown.tree), name);
      changed := false;
    }
  }

  /** A property hidden from the caller: put back when they sent nothing for it, or what they were shown. */
  method RestoreHidden(
    update: BsonDocument, stored: BsonDocument, view: BsonDocument, shown: BsonDocument, name: string)
      returns (changed: bool)
    requires update.Valid() && stored.Valid() && view.Valid() && shown.Valid()
    requires name in stored.elements && name !in view.elements
    requires Footprint(stored.elements[name]) !! update.Repr
    requires update !in stored.Repr + view.Repr + shown.Repr
    modifies update
    ensures update.Valid() && update.Repr <= old(update.Repr) + Footprint(stored.elements[name])
    ensures forall m | m != name :: update.Owned(m) == old(update.Owned(m))
    ensures update.tree == After(Doc(old(update.tree)), Doc(stored.tree), Doc(view.tree), Doc(shown.tree), name)
    ensures changed == PutsBackIn(Doc(old(update.tree)), Doc(stored.tree), Doc(view.tree), Doc(shown.tree), name)
  {
    changed := false;
    assert Holds(stored.elements[name], stored.tree[name]);
    OtherProperty(Doc(update.tree), Doc(stored.tree), Doc(view.tree), Doc(shown.tree), name);
    if !stored.elements[name].BsonNull? {
      var sent := GetValue(update, name);
      if sent == Null || sent == GetValue(shown, name) {
        SetElement(update, name, stored.elements[name], stored.tree[name]);
        changed := true;
      }
    }
  }

  /** A property the caller could not see, or that is not there in the update or in what was shown. */
  lemma {:induction false} OtherProperty(u: Tree, s: Tree, v: Tree, h: Tree, name: string)
    requires u.Doc? && s.Doc? && v.Doc? && h.Doc? && name in s.fields
    ensures PutsBack(u, s, v, h, name) ==>
              After(u, s, v, h, name) == u.fields[name := s.fields[name]] && PutsBackIn(u, s, v, h, name)
    ensures !PutsBack(u, s, v, h, name) && (name !in v.fields || name !in u.fields || name !in h.fields) ==>
              After(u, s, v, h, name) == u.fields && !PutsBackIn(u, s, v, h, name)
  {
  }

  lemma {:induction false} VisibleProperty(u: Tree, s: Tree, v: Tree, h: Tree, name: string)
    requires u.Doc? && s.Doc? && v.Doc? && h.Doc?
    requires name in u.fields && name in s.fields && name in v.fields && name in h.fields
    ensures After(u, s, v, h, name)
            == u.fields[name := Inside(u.fields[name], s.fields[name], v.fields[name], h.fields[name])]
    ensures PutsBackIn(u, s, v, h, name) <==>
              FourDocuments(u.fields[name], s.fields[name], v.fields[name], h.fields[name])
              && PutsBackAny(u.fields[name], s.fields[name], v.fields[name], h.fields[name])
  {
  }

  /** A property the caller could see keeps the caller's value, with hidden values put back inside it. */
  method RestoreVisible(update: BsonDocument, name: string, stored: BsonValue, view: BsonValue, shown: BsonValue,
                        ghost s: Tree, ghost v: Tree, ghost h: Tree) returns (changed: bool)
    requires update.Valid() && name in update.elements
    requires Holds(stored, s) && Holds(view, v) && Holds(shown, h)
    requires Footprint(stored) !! update.Repr && update.Owned(name) !! Footprint(view) + Footprint(shown)
    modifies {update} + update.Owned(name)
    ensures update.Valid() && update.Repr <= old(update.Repr) + old(Footprint(stored))
    ensures forall m | m != name :: update.Owned(m) == old(update.Owned(m))
    ensures var u := old(update.tree)[name];
            && update.tree == old(update.tree)[name := Inside(u, s, v, h)]
            && changed == (FourDocuments(u, s, v, h) && PutsBackAny(u, s, v, h))
    decreases Footprint(stored), 5
  {
    ghost var u := update.tree[name];
    var mine := update.elements[name];
    assert Holds(mine, u) && Footprint(mine) <= update.Repr - {update};
    changed := RestoreInside(mine, stored, view, shown, u, s, v, h);
    update.tree := update.tree[name := Inside(u, s, v, h)];
    update.Repr := update.Repr + Footprint(mine);
    update.OnePropertyChanged(name);
  }

  ghost function Inside(u: Tree, s: Tree, v: Tree, h: Tree): Tree
  {
    if FourDocuments(u, s, v, h) then Restored(u, s, v, h) else u
  }

  predicate FourDocuments(u: Tree, s: Tree, v: Tree, h: Tree) { u.Doc? && s.Doc? && v.Doc? && h.Doc? }

  method RestoreInside(update: BsonValue, stored: BsonValue, view: BsonValue, shown: BsonValue,
                       ghost u: Tree, ghost s: Tree, ghost v: Tree, ghost h: Tree) returns (changed: bool)
    requires Holds(update, u) && Holds(stored, s) && Holds(view, v) && Holds(shown, h)
    requires Footprint(update) !! Footprint(stored) + Footprint(view) + Footprint(shown)
    modifies Footprint(update)
    ensures Holds(update, Inside(u, s, v, h))
    ensures Footprint(update) <= old(Footprint(update) + Footprint(stored))
    ensures changed == (FourDocuments(u, s, v, h) && PutsBackAny(u, s, v, h))
    decreases Footprint(stored), 4
  {
    match (update, stored, view, shown)
    case (BsonDoc(nestedUpdate), BsonDoc(nested), BsonDoc(nestedView), BsonDoc(nestedShown)) =>
      changed := Restore(nestedUpdate, nested, nestedView, nestedShown);
    case _ => changed := false;
  }

  // ----- The typed entry points -----

  /** `ColumnMask.Apply`, on the serialized entity. */
  method Apply(entity: Tree, mask: Mask, shape: Shape) returns (seen: Tree)
    requires entity.Doc?
    ensures seen == Lens.Apply(entity, mask, shape)
  {
    var document := ToBsonDocument(entity);
    var row := mask(ToDictionary(document));
    var took := RemoveHidden(document, row);
    seen := if took then Filled(Doc(ToDictionary(document)), shape) else entity;
  }

  /** `ColumnMask.KeepHidden`, on serialized entities. */
  method KeepHidden(incoming: Tree, stored: Tree, mask: Mask, shape: Shape) returns (saved: Tree)
    requires incoming.Doc? && stored.Doc?
    ensures saved == Lens.KeepHidden(incoming, stored, mask, shape)
  {
    var storedDocument := ToBsonDocument(stored);
    var view := ToBsonDocument(stored);
    var took := RemoveHidden(view, mask(ToDictionary(storedDocument)));
    if !took {
      return incoming;
    }
    saved := SaveOver(incoming, storedDocument, view, shape);
  }

  method SaveOver(incoming: Tree, stored: BsonDocument, view: BsonDocument, shape: Shape) returns (saved: Tree)
    requires incoming.Doc? && stored.Valid() && view.Valid()
    ensures var s, v := Doc(stored.tree), Doc(view.tree);
            saved == if PutsBackAny(incoming, s, v, Filled(v, shape))
                     then Filled(Restored(incoming, s, v, Filled(v, shape)), shape) else incoming
  {
    var shown := ToBsonDocument(Filled(Doc(ToDictionary(view)), shape));
    var update := ToBsonDocument(incoming);
    var put := Restore(update, stored, view, shown);
    saved := if put then Filled(Doc(ToDictionary(update)), shape) else incoming;
  }
}
