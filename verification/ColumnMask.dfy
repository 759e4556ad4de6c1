/**
 The column mask as a lens: what it takes out of a document for a reader, and what it puts back when
 that reader saves the whole document. The functions here specify the in-place methods of
 module BsonInPlace; the laws are about them.
 */
module ColumnMask {
  import opened Options
  import opened Bson

  /** A Genesis column mask: from a row to the row with the hidden columns set to null or removed. */
  type Mask = map<string, Tree> -> map<string, Tree>

  // ----- Taking out -----

  /** The mask cleared a property that holds something. */
  predicate Cleared(value: Tree, row: map<string, Tree>, name: string)
  {
    value != Null && (name !in row || row[name] == Null)
  }

  function Entry(row: map<string, Tree>, name: string): Tree
  {
    if name in row then row[name] else Null
  }

  /** A value the mask did not clear, without what the mask cleared inside it. */
  function Masked(t: Tree, row: Tree): (r: Tree)
    ensures r.Doc? == t.Doc? && r.Arr? == t.Arr? && r.Null? == t.Null?
    decreases t, 0
  {
    match (t, row)
    case (Doc(f), Doc(r)) => Doc(map n | n in f && !Cleared(f[n], r, n) :: Masked(f[n], Entry(r, n)))
    case (Arr(xs), Arr(ys)) =>
      if |xs| == |ys| then Arr(seq(|xs|, i requires 0 <= i < |xs| => MaskedItem(xs[i], ys[i]))) else t
    case _ => t
  }

  function MaskedItem(item: Tree, row: Tree): Tree
    decreases item, 1
  {
    if item.Doc? && row.Doc? then Masked(item, row) else item
  }

  /** What the in-place pass reports: some property was taken out somewhere. */
  predicate TakesOut(t: Tree, row: Tree)
    decreases t
  {
    match (t, row)
    case (Doc(f), Doc(r)) => exists n | n in f :: Cleared(f[n], r, n) || TakesOut(f[n], Entry(r, n))
    case (Arr(xs), Arr(ys)) =>
      |xs| == |ys| && exists i | 0 <= i < |xs| :: xs[i].Doc? && ys[i].Doc? && TakesOut(xs[i], ys[i])
    case _ => false
  }

  /** The first tree is the second with document properties taken out, at any depth, and nothing else. */
  ghost predicate Within(a: Tree, b: Tree)
    decreases b
  {
    match (a, b)
    case (Doc(f), Doc(g)) => f.Keys <= g.Keys && forall n | n in f :: Within(f[n], g[n])
    case (Arr(xs), Arr(ys)) => |xs| == |ys| && forall i | 0 <= i < |ys| :: Within(xs[i], ys[i])
    case _ => a == b
  }

  /** Nothing the mask cleared is left. */
  ghost predicate Clean(t: Tree, row: Tree)
    decreases t
  {
    match (t, row)
    case (Doc(f), Doc(r)) => forall n | n in f :: !Cleared(f[n], r, n) && Clean(f[n], Entry(r, n))
    case (Arr(xs), Arr(ys)) =>
      |xs| == |ys| ==> forall i | 0 <= i < |xs| :: xs[i].Doc? && ys[i].Doc? ==> Clean(xs[i], ys[i])
    case _ => true
  }

  lemma {:induction false} WithinItself(t: Tree)
    ensures Within(t, t)
    decreases t
  {
    match t
    case Doc(f) => forall n | n in f ensures Within(f[n], f[n]) { WithinItself(f[n]); }
    case Arr(xs) => forall i | 0 <= i < |xs| ensures Within(xs[i], xs[i]) { WithinItself(xs[i]); }
    case _ =>
  }

  lemma {:induction false} MaskedIsWithin(t: Tree, row: Tree)
    ensures Within(Masked(t, row), t)
    decreases t
  {
    match (t, row)
    case (Doc(f), Doc(r)) =>
      forall n | n in f ensures Within(Masked(f[n], Entry(r, n)), f[n]) { MaskedIsWithin(f[n], Entry(r, n)); }
    case (Arr(xs), Arr(ys)) =>
      WithinItself(t);
      if |xs| == |ys| {
        forall i | 0 <= i < |xs| ensures Within(MaskedItem(xs[i], ys[i]), xs[i]) {
          MaskedIsWithin(xs[i], ys[i]);
        }
      }
    case _ => WithinItself(t);
  }

  lemma {:induction false} MaskedIsClean(t: Tree, row: Tree)
    ensures Clean(Masked(t, row), row)
    decreases t
  {
    match (t, row)
    case (Doc(f), Doc(r)) =>
      forall n | n in f ensures Clean(Masked(f[n], Entry(r, n)), Entry(r, n)) { MaskedIsClean(f[n], Entry(r, n)); }
    case (Arr(xs), Arr(ys)) =>
      forall i | 0 <= i < |xs| && |xs| == |ys| ensures Clean(Masked(xs[i], ys[i]), ys[i]) {
        MaskedIsClean(xs[i], ys[i]);
      }
    case _ =>
  }

  lemma {:induction false} CleanIsWithinMasked(s: Tree, t: Tree, row: Tree)
    requires Within(s, t) && Clean(s, row)
    ensures Within(s, Masked(t, row))
    decreases t
  {
    match (t, row)
    case (Doc(f), Doc(r)) =>
      forall n | n in s.fields
        ensures !Cleared(f[n], r, n) && Within(s.fields[n], Masked(f[n], Entry(r, n)))
      {
        assert Within(s.fields[n], f[n]);
        CleanIsWithinMasked(s.fields[n], f[n], Entry(r, n));
      }
    case (Arr(xs), Arr(ys)) =>
      if |xs| == |ys| {
        forall i | 0 <= i < |xs| ensures Within(s.items[i], MaskedItem(xs[i], ys[i])) {
          assert Within(s.items[i], xs[i]);
          if xs[i].Doc? && ys[i].Doc? {
            CleanIsWithinMasked(s.items[i], xs[i], ys[i]);
          }
        }
      }
    case _ =>
  }

  /** Masking keeps as much as it can: of all sub-documents in which nothing hidden is left, the largest. */
  lemma MaskedIsLargestClean(t: Tree, row: Tree)
    ensures Within(Masked(t, row), t) && Clean(Masked(t, row), row)
    ensures forall s :: Within(s, t) && Clean(s, row) ==> Within(s, Masked(t, row))
  {
    MaskedIsWithin(t, row);
    MaskedIsClean(t, row);
    forall s | Within(s, t) && Clean(s, row) ensures Within(s, Masked(t, row)) {
      CleanIsWithinMasked(s, t, row);
    }
  }

  /**
   In a row that pairs up with its document, a property that holds something is left exactly when the row
   still has it and holds something for it too: the mask may remove it or set it to null.
   */
  lemma MaskedLeavesIff(f: map<string, Tree>, r: map<string, Tree>, n: string)
    requires n in f && f[n] != Null
    ensures n in Masked(Doc(f), Doc(r)).fields <==> n in r && r[n] != Null
  {
  }

  /** At the end of the path the row hides what the document holds. */
  ghost predicate HidesAt(t: Tree, row: Tree, path: seq<string>)
    requires path != []
  {
    IsDoc(At(row, path[..|path| - 1])) && At(t, path) != Some(Null) && !Present(At(row, path))
  }

  /** The row hides nothing on the way to the end of the path. */
  ghost predicate Visible(t: Tree, row: Tree, path: seq<string>)
  {
    forall k | 0 < k <= |path| :: !HidesAt(t, row, path[..k])
  }

  lemma HidesBelow(t: Tree, row: Tree, path: seq<string>, k: nat)
    requires 1 < k <= |path| && t.Doc? && path[0] in t.fields
    requires row.Doc? && path[0] in row.fields
    ensures HidesAt(t, row, path[..k]) <==> HidesAt(t.fields[path[0]], row.fields[path[0]], path[1..][..k - 1])
  {
    var p, q := path[..k], path[1..][..k - 1];
    assert p[1..] == q && p[..k - 1][1..] == q[..k - 2] && p[0] == path[0];
  }

  lemma HidesFirst(t: Tree, row: Tree, path: seq<string>)
    requires path != [] && t.Doc? && path[0] in t.fields
    ensures HidesAt(t, row, path[..1])
            <==> row.Doc? && t.fields[path[0]] != Null && !(path[0] in row.fields && row.fields[path[0]] != Null)
  {
    var p := path[..1];
    assert p[..0] == [] && p[1..] == [] && p[0] == path[0];
    assert At(t, p) == Some(t.fields[p[0]]);
    assert At(row, p) == if row.Doc? && p[0] in row.fields then Some(row.fields[p[0]]) else None;
  }

  lemma {:induction false} VisibleBelow(t: Tree, row: Tree, path: seq<string>)
    requires path != [] && t.Doc? && path[0] in t.fields && row.Doc? && path[0] in row.fields
    ensures Visible(t, row, path)
            <==> !HidesAt(t, row, path[..1]) && Visible(t.fields[path[0]], row.fields[path[0]], path[1..])
  {
    var u, r, q := t.fields[path[0]], row.fields[path[0]], path[1..];
    forall k | 1 < k <= |path| ensures HidesAt(t, row, path[..k]) <==> HidesAt(u, r, q[..k - 1]) {
      HidesBelow(t, row, path, k);
    }
    if Visible(t, row, path) {
      assert !HidesAt(t, row, path[..1]);
      forall k | 0 < k <= |q| ensures !HidesAt(u, r, q[..k]) { assert !HidesAt(t, row, path[..k + 1]); }
    }
    if !HidesAt(t, row, path[..1]) && Visible(u, r, q) {
      forall k | 0 < k <= |path| ensures !HidesAt(t, row, path[..k]) {
        if k > 1 { assert !HidesAt(u, r, q[..k - 1]); }
      }
    }
  }

  /** At every path through documents: a value is left exactly when the row hides nothing on the way to it. */
  lemma {:induction false} MaskedAtIff(t: Tree, row: Tree, path: seq<string>)
    requires At(t, path).Some?
    ensures At(Masked(t, row), path).Some? <==> Visible(t, row, path)
    ensures Visible(t, row, path) && !At(t, path).value.Doc? && !At(t, path).value.Arr?
            ==> At(Masked(t, row), path) == At(t, path)
    decreases |path|
  {
    if path != [] {
      var n := path[0];
      HidesFirst(t, row, path);
      if !row.Doc? {
        RowlessIsVisible(t, row, path);
      } else if t.fields[n] == Null {
        assert path[1..] == [];
        assert path[..1] == path;
      } else if n in row.fields && row.fields[n] != Null {
        VisibleBelow(t, row, path);
        MaskedAtIff(t.fields[n], row.fields[n], path[1..]);
      } else {
        assert HidesAt(t, row, path[..1]);
      }
    }
  }

  lemma RowlessIsVisible(t: Tree, row: Tree, path: seq<string>)
    requires !row.Doc?
    ensures Visible(t, row, path)
    ensures t.Doc? ==> Masked(t, row) == t
  {
    forall k | 0 < k <= |path| ensures !HidesAt(t, row, path[..k]) {
      assert path[..k][..k - 1] == path[..k - 1];
    }
  }

  /** The documents of an array are masked by position; without a row for each item nothing is. */
  lemma MaskedItemLeavesIff(xs: seq<Tree>, ys: seq<Tree>, i: nat, n: string)
    requires i < |xs|
    ensures var masked := Masked(Arr(xs), Arr(ys)).items;
            && |masked| == |xs|
            && (|ys| == |xs| && xs[i].Doc? && ys[i].Doc? && n in xs[i].fields && xs[i].fields[n] != Null ==>
                  masked[i].Doc?
                  && (n in masked[i].fields <==> n in ys[i].fields && ys[i].fields[n] != Null))
            && (|ys| != |xs| || !xs[i].Doc? || !ys[i].Doc? ==> masked[i] == xs[i])
  {
    if |ys| == |xs| && xs[i].Doc? && ys[i].Doc? && n in xs[i].fields && xs[i].fields[n] != Null {
      assert Masked(Arr(xs), Arr(ys)).items[i] == MaskedItem(xs[i], ys[i]);
      MaskedLeavesIff(xs[i].fields, ys[i].fields, n);
    }
  }

  lemma {:induction false} CleanIsFixed(t: Tree, row: Tree)
    requires Clean(t, row)
    ensures Masked(t, row) == t && !TakesOut(t, row)
    decreases t
  {
    match (t, row)
    case (Doc(f), Doc(r)) =>
      forall n | n in f ensures Masked(f[n], Entry(r, n)) == f[n] && !TakesOut(f[n], Entry(r, n)) {
        CleanIsFixed(f[n], Entry(r, n));
      }
      assert Masked(t, row).fields == f;
    case (Arr(xs), Arr(ys)) =>
      if |xs| == |ys| {
        forall i | 0 <= i < |xs|
          ensures MaskedItem(xs[i], ys[i]) == xs[i]
          ensures xs[i].Doc? && ys[i].Doc? ==> !TakesOut(xs[i], ys[i])
        {
          if xs[i].Doc? && ys[i].Doc? { CleanIsFixed(xs[i], ys[i]); }
        }
        assert Masked(t, row).items == xs;
      }
    case _ =>
  }

  /** Masking the masked document with the same row changes nothing and reports nothing. */
  lemma MaskingAgainChangesNothing(t: Tree, row: Tree)
    ensures Masked(Masked(t, row), row) == Masked(t, row) && !TakesOut(Masked(t, row), row)
  {
    MaskedIsClean(t, row);
    CleanIsFixed(Masked(t, row), row);
  }

  lemma {:induction false} UnchangedIsClean(t: Tree, row: Tree)
    requires !TakesOut(t, row)
    ensures Clean(t, row)
    decreases t
  {
    match (t, row)
    case (Doc(f), Doc(r)) =>
      forall n | n in f ensures Clean(f[n], Entry(r, n)) { UnchangedIsClean(f[n], Entry(r, n)); }
    case (Arr(xs), Arr(ys)) =>
      forall i | 0 <= i < |xs| && |xs| == |ys| && xs[i].Doc? && ys[i].Doc? ensures Clean(xs[i], ys[i]) {
        UnchangedIsClean(xs[i], ys[i]);
      }
    case _ =>
  }

  /** The reported flag is exactly "the document is no longer what it was". */
  lemma {:induction false} TakesOutMeansChanged(t: Tree, row: Tree)
    ensures TakesOut(t, row) <==> Masked(t, row) != t
  {
    if TakesOut(t, row) {
      if Masked(t, row) == t {
        MaskedIsClean(t, row);
        CleanIsFixed(t, row);
      }
    } else {
      UnchangedIsClean(t, row);
      CleanIsFixed(t, row);
    }
  }

  // ----- Putting back -----

  /** A property hidden from the caller, for which the caller sent nothing or what they were shown. */
  predicate PutsBack(update: Tree, stored: Tree, view: Tree, shown: Tree, name: string)
    requires update.Doc? && stored.Doc? && view.Doc? && shown.Doc?
  {
    && stored.Get(name) != Null && name !in view.fields
    && (update.Get(name) == Null || update.Get(name) == shown.Get(name))
  }

  /** A property that is a document in all four trees. */
  predicate Descends(update: Tree, stored: Tree, view: Tree, shown: Tree, name: string)
    requires update.Doc? && stored.Doc? && view.Doc? && shown.Doc?
  {
    update.Get(name).Doc? && stored.Get(name).Doc? && view.Get(name).Doc? && shown.Get(name).Doc?
  }

  /** The update with the stored values of hidden properties put back. */
  function Restored(update: Tree, stored: Tree, view: Tree, shown: Tree): (r: Tree)
    requires update.Doc? && stored.Doc? && view.Doc? && shown.Doc?
    ensures r.Doc?
    decreases stored, 1
  {
    Doc(map n | n in update.fields.Keys + stored.fields.Keys
               && (n in update.fields || PutsBack(update, stored, view, shown, n)) ::
        RestoredProperty(update, stored, view, shown, n))
  }

  function RestoredProperty(update: Tree, stored: Tree, view: Tree, shown: Tree, name: string): Tree
    requires update.Doc? && stored.Doc? && view.Doc? && shown.Doc?
    decreases stored, 0
  {
    if PutsBack(update, stored, view, shown, name) then stored.Get(name)
    else if Descends(update, stored, view, shown, name)
    then Restored(update.Get(name), stored.Get(name), view.Get(name), shown.Get(name))
    else update.Get(name)
  }

  /** What the in-place pass reports: a value was put back somewhere. */
  predicate PutsBackAny(update: Tree, stored: Tree, view: Tree, shown: Tree)
    requires update.Doc? && stored.Doc? && view.Doc? && shown.Doc?
    decreases stored, 1
  {
    exists n | n in stored.fields :: PutsBackIn(update, stored, view, shown, n)
  }

  predicate PutsBackIn(update: Tree, stored: Tree, view: Tree, shown: Tree, name: string)
    requires update.Doc? && stored.Doc? && view.Doc? && shown.Doc?
    decreases stored, 0
  {
    || PutsBack(update, stored, view, shown, name)
    || (Descends(update, stored, view, shown, name)
        && PutsBackAny(update.Get(name), stored.Get(name), view.Get(name), shown.Get(name)))
  }

  lemma {:induction false} NothingPutBack(update: Tree, stored: Tree, view: Tree, shown: Tree)
    requires update.Doc? && stored.Doc? && view.Doc? && shown.Doc?
    requires !PutsBackAny(update, stored, view, shown)
    ensures Restored(update, stored, view, shown) == update
    decreases stored
  {
    forall n | n in stored.fields && Descends(update, stored, view, shown, n)
      ensures Restored(update.fields[n], stored.fields[n], view.fields[n], shown.fields[n]) == update.fields[n]
    {
      NothingPutBack(update.fields[n], stored.fields[n], view.fields[n], shown.fields[n]);
    }
    assert Restored(update, stored, view, shown).fields == update.fields;
  }

  // ----- The typed entry points, on serialized entities -----

  /** `ColumnMask.Apply`: the entity as its reader sees it. */
  function Apply(entity: Tree, mask: Mask, shape: Shape): (r: Tree)
    requires entity.Doc?
    ensures r.Doc?
  {
    var row := Doc(mask(entity.fields));
    if TakesOut(entity, row) then Filled(Masked(entity, row), shape) else entity
  }

  /** `ColumnMask.KeepHidden`: what is saved when the caller sends a whole document. */
  function KeepHidden(incoming: Tree, stored: Tree, mask: Mask, shape: Shape): (r: Tree)
    requires incoming.Doc? && stored.Doc?
    ensures r.Doc?
  {
    var row := Doc(mask(stored.fields));
    if !TakesOut(stored, row) then incoming
    else
      var view := Masked(stored, row);
      var shown := Filled(view, shape);
      if PutsBackAny(incoming, stored, view, shown)
      then Filled(Restored(incoming, stored, view, shown), shape)
      else incoming
  }

  // ----- What is shown -----

  /** The class of the documents at a path. */
  function ShapeAt(shape: Shape, path: seq<string>): Shape
    decreases |path|
  {
    if path == [] then shape else ShapeAt(MemberShape(shape, path[0]), path[1..])
  }

  /** What a new instance holds for a member, if the class has it. */
  function Unset(shape: Shape, name: string): Option<Tree>
  {
    if shape.Record? && name in shape.members then Some(shape.members[name].initial) else None
  }

  lemma {:induction false} FilledAt(t: Tree, shape: Shape, path: seq<string>, name: string)
    requires IsDoc(At(t, path))
    ensures IsDoc(At(Filled(t, shape), path))
    ensures var p := path + [name];
            && (At(t, p).None? ==> At(Filled(t, shape), p) == Unset(ShapeAt(shape, path), name))
            && (At(t, p).Some? && !At(t, p).value.Doc? && !At(t, p).value.Arr? ==> At(Filled(t, shape), p) == At(t, p))
    decreases |path|
  {
    var p := path + [name];
    if path == [] {
      assert p[0] == name && p[1..] == [];
      var r := Filled(t, shape);
      assert At(r, p) == if name in r.fields then Some(r.fields[name]) else None;
      assert At(t, p) == if name in t.fields then Some(t.fields[name]) else None;
    } else {
      AtPrefixIsDoc(t, path);
      assert p[0] == path[0] && p[1..] == path[1..] + [name];
      FilledAt(t.fields[path[0]], MemberShape(shape, path[0]), path[1..], name);
    }
  }

  /**
   What a reader is shown of any stored entity, at any property of a document they may see: the stored value
   where the masked row holds something for it, and what a new instance holds where the row does not.
   */
  lemma {:induction false} ReadLaw(stored: Tree, mask: Mask, shape: Shape, path: seq<string>, name: string)
    requires stored.Doc? && Serialized(stored, shape)
    requires IsDoc(At(stored, path)) && Visible(stored, Doc(mask(stored.fields)), path)
    requires At(stored, path + [name]).Some?
    ensures var row, p, read := Doc(mask(stored.fields)), path + [name], Apply(stored, mask, shape);
            var value := At(stored, p).value;
            && (HidesAt(stored, row, p) ==> At(read, p) == Unset(ShapeAt(shape, path), name))
            && (!HidesAt(stored, row, p) && !value.Doc? && !value.Arr? ==> At(read, p) == Some(value))
            && (!HidesAt(stored, row, p) && value.Doc? ==> IsDoc(At(read, p)))
  {
    var row, p := Doc(mask(stored.fields)), path + [name];
    var view := Masked(stored, row);
    TakesOutMeansChanged(stored, row);
    assert Apply(stored, mask, shape) == Filled(view, shape);
    VisibleOneMore(stored, row, path, name);
    MaskedAtIff(stored, row, path);
    MaskedAtIff(stored, row, p);
    MaskedKeepsDocs(stored, row, path);
    FilledAt(view, shape, path, name);
    if At(view, p).Some? {
      MaskedKeepsDocs(stored, row, p);
      if IsDoc(At(view, p)) { FilledAt(view, shape, p, name); }
    }
  }

  lemma VisibleOneMore(t: Tree, row: Tree, path: seq<string>, name: string)
    requires Visible(t, row, path)
    ensures Visible(t, row, path + [name]) <==> !HidesAt(t, row, path + [name])
  {
    var p := path + [name];
    assert p[..|p|] == p;
    forall k | 0 < k <= |path| ensures !HidesAt(t, row, p[..k]) { assert p[..k] == path[..k]; }
  }

  lemma {:induction false} MaskedKeepsDocs(t: Tree, row: Tree, path: seq<string>)
    requires At(Masked(t, row), path).Some?
    ensures At(t, path).Some? && (IsDoc(At(Masked(t, row), path)) <==> IsDoc(At(t, path)))
    decreases |path|
  {
    if path != [] && row.Doc? {
      MaskedKeepsDocs(t.fields[path[0]], Entry(row.fields, path[0]), path[1..]);
    }
  }

  // ----- Put law -----

  lemma {:induction false} RestoredIsSerialized(u: Tree, s: Tree, v: Tree, h: Tree, shape: Shape)
    requires u.Doc? && s.Doc? && v.Doc? && h.Doc?
    requires Serialized(u, shape) && Serialized(s, shape)
    ensures Serialized(Restored(u, s, v, h), shape)
    decreases s
  {
    var r := Restored(u, s, v, h);
    if shape.Record? {
      assert shape.members.Keys <= u.fields.Keys by { assert Filled(u, shape).fields.Keys == u.fields.Keys; }
      forall n | n in r.fields ensures Serialized(r.fields[n], MemberShape(shape, n)) {
        assert r.fields[n] == RestoredProperty(u, s, v, h, n);
        if n in u.fields { SerializedProperty(u, shape, n); }
        if n in s.fields { SerializedProperty(s, shape, n); }
        if PutsBack(u, s, v, h, n) {
        } else if Descends(u, s, v, h, n) {
          RestoredIsSerialized(u.fields[n], s.fields[n], v.fields[n], h.fields[n], MemberShape(shape, n));
        }
      }
      assert Filled(r, shape).fields == r.fields;
    }
  }

  /** On entities of the class, keeping hidden values is the putting-back walk and nothing else. */
  lemma {:induction false} KeepHiddenIsRestored(incoming: Tree, stored: Tree, mask: Mask, shape: Shape)
    requires incoming.Doc? && stored.Doc?
    requires Serialized(incoming, shape) && Serialized(stored, shape)
    ensures var view := Masked(stored, Doc(mask(stored.fields)));
            KeepHidden(incoming, stored, mask, shape) == Restored(incoming, stored, view, Filled(view, shape))
  {
    var row := Doc(mask(stored.fields));
    var view := Masked(stored, row);
    RestoredIsSerialized(incoming, stored, view, Filled(view, shape), shape);
    if TakesOut(stored, row) {
      if !PutsBackAny(incoming, stored, view, Filled(view, shape)) {
        NothingPutBack(incoming, stored, view, Filled(view, shape));
      }
    } else {
      TakesOutMeansChanged(stored, row);
      NothingHiddenNothingPutBack(incoming, stored, Filled(view, shape));
      NothingPutBack(incoming, stored, view, Filled(view, shape));
    }
  }

  lemma {:induction false} NothingHiddenNothingPutBack(u: Tree, s: Tree, h: Tree)
    requires u.Doc? && s.Doc? && h.Doc?
    ensures !PutsBackAny(u, s, s, h)
    decreases s
  {
    forall n | n in s.fields && Descends(u, s, s, h, n)
      ensures !PutsBackAny(u.fields[n], s.fields[n], s.fields[n], h.fields[n])
    {
      NothingHiddenNothingPutBack(u.fields[n], s.fields[n], h.fields[n]);
    }
  }

  /** The path leads through documents in all four trees. */
  ghost predicate Shared(u: Tree, s: Tree, v: Tree, h: Tree, path: seq<string>)
  {
    IsDoc(At(u, path)) && IsDoc(At(s, path)) && IsDoc(At(v, path)) && IsDoc(At(h, path))
  }

  ghost predicate IsArr(t: Option<Tree>) { t.Some? && t.value.Arr? }

  ghost predicate Present(t: Option<Tree>) { t.Some? && t.value != Null }

  /** Hidden from the caller, who sent nothing for it or exactly what the masked read showed. */
  ghost predicate HiddenUntouched(u: Tree, s: Tree, v: Tree, h: Tree, p: seq<string>)
  {
    && Present(At(s, p)) && At(v, p).None?
    && (!Present(At(u, p)) || At(u, p) == At(h, p))
  }

  lemma {:induction false} RestoredAt(u: Tree, s: Tree, v: Tree, h: Tree, path: seq<string>, name: string)
    requires u.Doc? && s.Doc? && v.Doc? && h.Doc?
    requires Shared(u, s, v, h, path)
    ensures var r := Restored(u, s, v, h); var p := path + [name];
            && (HiddenUntouched(u, s, v, h, p) ==> At(r, p) == At(s, p))
            && (!HiddenUntouched(u, s, v, h, p) && !Shared(u, s, v, h, p) ==> At(r, p) == At(u, p))
            && (Shared(u, s, v, h, p) ==> IsDoc(At(r, p)))
    decreases |path|
  {
    var r := Restored(u, s, v, h);
    var p := path + [name];
    if path == [] {
      assert p[0] == name && p[1..] == [];
      assert forall t: Tree :: t.Doc? && name in t.fields ==> At(t.fields[name], p[1..]) == Some(t.fields[name]);
    } else {
      var n := path[0];
      assert p[0] == n && p[1..] == path[1..] + [name];
      AtPrefixIsDoc(u, path); AtPrefixIsDoc(s, path); AtPrefixIsDoc(v, path); AtPrefixIsDoc(h, path);
      assert Descends(u, s, v, h, n);
      assert r.fields[n] == RestoredProperty(u, s, v, h, n);
      RestoredAt(u.fields[n], s.fields[n], v.fields[n], h.fields[n], path[1..], name);
    }
  }

  lemma AtPrefixIsDoc(t: Tree, path: seq<string>)
    requires IsDoc(At(t, path)) && path != []
    ensures t.Doc? && path[0] in t.fields && t.fields[path[0]].Doc?
  {
    assert At(t, path) == At(t.fields[path[0]], path[1..]);
    if |path| == 1 { assert path[1..] == []; }
  }

  /**
   The put law, for any update of any stored entity: at a property of a document that all four trees
   share, the stored value is saved exactly where the property is hidden and the caller sent nothing or
   what they were shown; everywhere else the caller's own value is (documents are settled property by property).
   */
  lemma {:induction false} PutLaw(
    incoming: Tree, stored: Tree, mask: Mask, shape: Shape, path: seq<string>, name: string)
    requires incoming.Doc? && stored.Doc?
    requires Serialized(incoming, shape) && Serialized(stored, shape)
    requires var view := Masked(stored, Doc(mask(stored.fields)));
             Shared(incoming, stored, view, Filled(view, shape), path)
    ensures var view := Masked(stored, Doc(mask(stored.fields))); var shown := Filled(view, shape);
            var saved := KeepHidden(incoming, stored, mask, shape); var p := path + [name];
            if HiddenUntouched(incoming, stored, view, shown, p) then At(saved, p) == At(stored, p)
            else if Shared(incoming, stored, view, shown, p) then IsDoc(At(saved, p))
            else At(saved, p) == At(incoming, p)
  {
    var view := Masked(stored, Doc(mask(stored.fields)));
    KeepHiddenIsRestored(incoming, stored, mask, shape);
    RestoredAt(incoming, stored, view, Filled(view, shape), path, name);
  }

  lemma {:induction false} RestoringAgain(u: Tree, s: Tree, v: Tree, h: Tree)
    requires u.Doc? && s.Doc? && v.Doc? && h.Doc?
    ensures var r := Restored(u, s, v, h); Restored(r, s, v, h) == r
    decreases s
  {
    var r := Restored(u, s, v, h);
    var q := Restored(r, s, v, h);
    forall n | n in r.fields ensures q.fields[n] == r.fields[n] {
      assert r.fields[n] == RestoredProperty(u, s, v, h, n) && q.fields[n] == RestoredProperty(r, s, v, h, n);
      if Descends(u, s, v, h, n) && !PutsBack(u, s, v, h, n) {
        RestoringAgain(u.fields[n], s.fields[n], v.fields[n], h.fields[n]);
      }
    }
    assert q.fields.Keys == r.fields.Keys;
    assert q.fields == r.fields;
  }

  /** Saving twice is saving once. */
  lemma KeepingTwiceIsKeepingOnce(incoming: Tree, stored: Tree, mask: Mask, shape: Shape)
    requires incoming.Doc? && stored.Doc?
    requires Serialized(incoming, shape) && Serialized(stored, shape)
    ensures var once := KeepHidden(incoming, stored, mask, shape);
            KeepHidden(once, stored, mask, shape) == once
  {
    var view := Masked(stored, Doc(mask(stored.fields)));
    var shown := Filled(view, shape);
    KeepHiddenIsRestored(incoming, stored, mask, shape);
    RestoredIsSerialized(incoming, stored, view, shown, shape);
    KeepHiddenIsRestored(Restored(incoming, stored, view, shown), stored, mask, shape);
    RestoringAgain(incoming, stored, view, shown);
  }

  // ----- Read and write back -----

  /** The stored document with the arrays the reader could see replaced by what the reader saw. */
  function WrittenBack(s: Tree, v: Tree, h: Tree): Tree
    requires s.Doc? && v.Doc? && h.Doc?
    decreases s
  {
    Doc(map n | n in s.fields ::
        if n !in v.fields || n !in h.fields then s.fields[n]
        else if s.fields[n].Doc? && v.fields[n].Doc? && h.fields[n].Doc?
        then WrittenBack(s.fields[n], v.fields[n], h.fields[n])
        else if s.fields[n].Arr? then h.fields[n]
        else s.fields[n])
  }

  lemma {:induction false} RestoringWhatWasShown(s: Tree, row: Tree, shape: Shape)
    requires s.Doc? && Serialized(s, shape)
    ensures var v := Masked(s, row); var h := Filled(v, shape);
            Restored(h, s, v, h) == WrittenBack(s, v, h)
    decreases s
  {
    var v := Masked(s, row);
    var h := Filled(v, shape);
    var r := Restored(h, s, v, h);
    var w := WrittenBack(s, v, h);
    assert h.fields.Keys <= s.fields.Keys by {
      if shape.Record? { assert Filled(s, shape).fields.Keys == s.fields.Keys; }
    }
    assert r.fields.Keys == s.fields.Keys by {
      forall n | n in s.fields ensures n in r.fields {}
    }
    forall n | n in s.fields ensures r.fields[n] == w.fields[n] {
      assert r.fields[n] == RestoredProperty(h, s, v, h, n);
      SerializedProperty(s, shape, n);
      if n in v.fields {
        VisibleInView(s, row, shape, n);
        if s.fields[n].Doc? {
          var nrow := if row.Doc? then Entry(row.fields, n) else Null;
          RestoringWhatWasShown(s.fields[n], nrow, MemberShape(shape, n));
        }
      }
    }
    assert r.fields == w.fields;
  }

  lemma SerializedProperty(s: Tree, shape: Shape, n: string)
    requires s.Doc? && Serialized(s, shape) && n in s.fields
    ensures Serialized(s.fields[n], MemberShape(shape, n))
  {
    if shape.Record? { assert Filled(s, shape).fields[n] == s.fields[n]; }
  }

  /** A property the mask left: its own masked value, shown as its member's class shows it. */
  lemma VisibleInView(s: Tree, row: Tree, shape: Shape, n: string)
    requires s.Doc? && n in s.fields && n in Masked(s, row).fields
    ensures var v := Masked(s, row); var h := Filled(v, shape);
            && n in h.fields
            && v.fields[n] == Masked(s.fields[n], if row.Doc? then Entry(row.fields, n) else Null)
            && h.fields[n] == Filled(v.fields[n], MemberShape(shape, n))
            && (!s.fields[n].Doc? && !s.fields[n].Arr? ==> h.fields[n] == s.fields[n])
  {
  }

  lemma {:induction false} WrittenBackAt(s: Tree, row: Tree, shape: Shape, path: seq<string>)
    requires s.Doc? && Serialized(s, shape)
    ensures var v := Masked(s, row); var h := Filled(v, shape); var w := WrittenBack(s, v, h);
            && (IsDoc(At(s, path)) <==> IsDoc(At(w, path)))
            && (!IsDoc(At(s, path)) ==>
                  At(w, path) == if IsArr(At(s, path)) && At(v, path).Some? then At(h, path) else At(s, path))
    decreases |path|
  {
    var v := Masked(s, row);
    var h := Filled(v, shape);
    if path != [] && path[0] in s.fields {
      var n := path[0];
      SerializedProperty(s, shape, n);
      if n in v.fields {
        VisibleInView(s, row, shape, n);
        if s.fields[n].Doc? {
          WrittenBackAt(s.fields[n], if row.Doc? then Entry(row.fields, n) else Null, MemberShape(shape, n), path[1..]);
        }
      }
    }
  }

  /**
   Read, then save exactly what was read. At every path the stored document comes back, except that an
   array the reader could see comes back as they saw it. Holds for every mask and every stored entity.
   */
  lemma {:induction false} WriteBackLaw(stored: Tree, mask: Mask, shape: Shape, path: seq<string>)
    requires stored.Doc? && WellShaped(shape) && Serialized(stored, shape)
    ensures var read := Apply(stored, mask, shape);
            var saved := KeepHidden(read, stored, mask, shape);
            var view := Masked(stored, Doc(mask(stored.fields)));
            && (IsDoc(At(stored, path)) <==> IsDoc(At(saved, path)))
            && (!IsDoc(At(stored, path)) ==>
                  At(saved, path) ==
                  if IsArr(At(stored, path)) && At(view, path).Some? then At(read, path) else At(stored, path))
  {
    SavedIsWrittenBack(stored, mask, shape);
    WrittenBackAt(stored, Doc(mask(stored.fields)), shape, path);
  }

  lemma SavedIsWrittenBack(stored: Tree, mask: Mask, shape: Shape)
    requires stored.Doc? && WellShaped(shape) && Serialized(stored, shape)
    ensures var view := Masked(stored, Doc(mask(stored.fields)));
            var read := Apply(stored, mask, shape);
            && read == Filled(view, shape)
            && KeepHidden(read, stored, mask, shape) == WrittenBack(stored, view, read)
  {
    var row := Doc(mask(stored.fields));
    var view := Masked(stored, row);
    TakesOutMeansChanged(stored, row);
    FilledIsSerialized(view, shape);
    KeepHiddenIsRestored(Filled(view, shape), stored, mask, shape);
    RestoringWhatWasShown(stored, row, shape);
  }

  /** Every array the reader could see was shown to them whole. */
  ghost predicate ArraysShownWhole(stored: Tree, mask: Mask, shape: Shape)
    requires stored.Doc?
  {
    var view := Masked(stored, Doc(mask(stored.fields)));
    forall path: seq<string> :: IsArr(At(stored, path)) && At(view, path).Some?
                               ==> At(Filled(view, shape), path) == At(stored, path)
  }

  /**
   "A client that saves what it read never erases it": true of a stored entity exactly when the mask left
   whole every array it let the reader see. Arrays are masked but never restored.
   */
  lemma WriteBackKeepsEverythingIff(stored: Tree, mask: Mask, shape: Shape)
    requires stored.Doc? && WellShaped(shape) && Serialized(stored, shape)
    ensures KeepHidden(Apply(stored, mask, shape), stored, mask, shape) == stored
            <==> ArraysShownWhole(stored, mask, shape)
  {
    var saved := KeepHidden(Apply(stored, mask, shape), stored, mask, shape);
    var view := Masked(stored, Doc(mask(stored.fields)));
    SavedIsWrittenBack(stored, mask, shape);
    forall p: seq<string>
      ensures && (IsDoc(At(stored, p)) <==> IsDoc(At(saved, p)))
              && (!IsDoc(At(stored, p)) ==>
                    At(saved, p) ==
                    if IsArr(At(stored, p)) && At(view, p).Some? then At(Filled(view, shape), p) else At(stored, p))
    {
      WriteBackLaw(stored, mask, shape, p);
    }
    if ArraysShownWhole(stored, mask, shape) {
      SameLeavesSameTree(saved, stored);
    }
  }

  // ----- Saving any document -----

  /**
   Wherever a document's properties are settled one by one, the caller sends what is stored, or leaves
   untouched what is hidden from them.
   */
  ghost predicate SendsWhatIsStored(incoming: Tree, stored: Tree, mask: Mask, shape: Shape)
    requires incoming.Doc? && stored.Doc?
  {
    var view := Masked(stored, Doc(mask(stored.fields)));
    forall path: seq<string>, name: string | Shared(incoming, stored, view, Filled(view, shape), path) ::
      var p := path + [name];
      || HiddenUntouched(incoming, stored, view, Filled(view, shape), p)
      || Shared(incoming, stored, view, Filled(view, shape), p)
      || At(incoming, p) == At(stored, p)
  }

  /** At every path: still a shared document, or below a property that is saved as it was stored. */
  lemma {:induction false} SavedAsStored(incoming: Tree, stored: Tree, mask: Mask, shape: Shape, q: seq<string>)
    requires incoming.Doc? && stored.Doc?
    requires Serialized(incoming, shape) && Serialized(stored, shape)
    requires SendsWhatIsStored(incoming, stored, mask, shape)
    ensures var view := Masked(stored, Doc(mask(stored.fields)));
            Shared(incoming, stored, view, Filled(view, shape), q)
            || At(KeepHidden(incoming, stored, mask, shape), q) == At(stored, q)
    decreases |q|
  {
    if q != [] {
      var view := Masked(stored, Doc(mask(stored.fields)));
      var path, name := q[..|q| - 1], q[|q| - 1];
      assert path + [name] == q;
      SavedAsStored(incoming, stored, mask, shape, path);
      if Shared(incoming, stored, view, Filled(view, shape), path) {
        PutLaw(incoming, stored, mask, shape, path, name);
      } else {
        AtAppend(KeepHidden(incoming, stored, mask, shape), path, [name]);
        AtAppend(stored, path, [name]);
      }
    }
  }

  lemma {:induction false} SharedIsSavedAsDoc(incoming: Tree, stored: Tree, mask: Mask, shape: Shape, q: seq<string>)
    requires incoming.Doc? && stored.Doc?
    requires Serialized(incoming, shape) && Serialized(stored, shape)
    requires var view := Masked(stored, Doc(mask(stored.fields)));
             Shared(incoming, stored, view, Filled(view, shape), q)
    ensures IsDoc(At(KeepHidden(incoming, stored, mask, shape), q))
  {
    if q != [] {
      var path, name := q[..|q| - 1], q[|q| - 1];
      assert path + [name] == q;
      var view := Masked(stored, Doc(mask(stored.fields)));
      SharedAbove(incoming, path, name);
      SharedAbove(stored, path, name);
      SharedAbove(view, path, name);
      SharedAbove(Filled(view, shape), path, name);
      PutLaw(incoming, stored, mask, shape, path, name);
    }
  }

  lemma {:induction false} SharedAbove(t: Tree, path: seq<string>, name: string)
    requires At(t, path + [name]).Some?
    ensures IsDoc(At(t, path))
  {
    AtAppend(t, path, [name]);
  }

  /** Saving any document of the class leaves the stored one exactly when it sends what is stored. */
  lemma {:induction false} SavingKeepsStoredIff(incoming: Tree, stored: Tree, mask: Mask, shape: Shape)
    requires incoming.Doc? && stored.Doc?
    requires Serialized(incoming, shape) && Serialized(stored, shape)
    ensures KeepHidden(incoming, stored, mask, shape) == stored <==> SendsWhatIsStored(incoming, stored, mask, shape)
  {
    var saved := KeepHidden(incoming, stored, mask, shape);
    var view := Masked(stored, Doc(mask(stored.fields)));
    if SendsWhatIsStored(incoming, stored, mask, shape) {
      forall q: seq<string>
        ensures IsDoc(At(saved, q)) <==> IsDoc(At(stored, q))
        ensures !IsDoc(At(saved, q)) ==> At(saved, q) == At(stored, q)
      {
        SavedAsStored(incoming, stored, mask, shape, q);
        if Shared(incoming, stored, view, Filled(view, shape), q) {
          SharedIsSavedAsDoc(incoming, stored, mask, shape, q);
        }
      }
      SameLeavesSameTree(saved, stored);
    }
    if saved == stored {
      forall path: seq<string>, name: string | Shared(incoming, stored, view, Filled(view, shape), path)
        ensures var p := path + [name];
                || HiddenUntouched(incoming, stored, view, Filled(view, shape), p)
                || Shared(incoming, stored, view, Filled(view, shape), p)
                || At(incoming, p) == At(stored, p)
      {
        PutLaw(incoming, stored, mask, shape, path, name);
      }
    }
  }

  // ----- A masked array -----

  /** A class with a list of items, each with one text. */
  const ITEM_CLASS := Record(map["Secret" := Member(Null, Free)])
  const ITEMS_CLASS := Record(map["Items" := Member(Arr([]), List(ITEM_CLASS))])

  function Item(secret: Tree): Tree { Doc(map["Secret" := secret]) }

  function OneItem(secret: Tree): Tree { Doc(map["Items" := Arr([Item(secret)])]) }

  lemma {:induction false} OneItemIsSerialized(secret: Tree)
    ensures Serialized(OneItem(secret), ITEMS_CLASS) && WellShaped(ITEMS_CLASS)
  {
    assert Filled(secret, Free) == secret;
    assert Filled(Item(secret), ITEM_CLASS) == Item(secret);
    assert Filled(Arr([Item(secret)]), List(ITEM_CLASS)) == Arr([Item(secret)]);
    assert Filled(Arr([]), List(ITEM_CLASS)) == Arr([]);
  }

  lemma {:induction false} OneItemMasked()
    ensures Masked(OneItem(Leaf("s")), OneItem(Null)) == Doc(map["Items" := Arr([Doc(map[])])])
  {
    assert Cleared(Leaf("s"), map["Secret" := Null], "Secret");
    assert Masked(Item(Leaf("s")), Item(Null)) == Doc(map[]);
    assert Masked(Arr([Item(Leaf("s"))]), Arr([Item(Null)])) == Arr([Doc(map[])]);
    assert !Cleared(Arr([Item(Leaf("s"))]), map["Items" := Arr([Item(Null)])], "Items");
  }

  lemma {:induction false} OneItemShown()
    ensures Filled(Doc(map["Items" := Arr([Doc(map[])])]), ITEMS_CLASS) == OneItem(Null)
  {
    assert Filled(Doc(map[]), ITEM_CLASS) == Item(Null);
    assert Filled(Arr([Doc(map[])]), List(ITEM_CLASS)) == Arr([Item(Null)]);
  }

  /** One item whose text is hidden: saving what was read puts nothing in its place. */
  lemma {:induction false} MaskedArrayIsLost(mask: Mask)
    requires mask(OneItem(Leaf("s")).fields) == OneItem(Null).fields
    ensures WellShaped(ITEMS_CLASS) && Serialized(OneItem(Leaf("s")), ITEMS_CLASS)
    ensures Apply(OneItem(Leaf("s")), mask, ITEMS_CLASS) == OneItem(Null)
    ensures KeepHidden(Apply(OneItem(Leaf("s")), mask, ITEMS_CLASS), OneItem(Leaf("s")), mask, ITEMS_CLASS)
            == OneItem(Null)
  {
    OneItemIsSerialized(Leaf("s"));
    OneItemMasked();
    OneItemShown();
    SavedIsWrittenBack(OneItem(Leaf("s")), mask, ITEMS_CLASS);
    var view := Doc(map["Items" := Arr([Doc(map[])])]);
    assert WrittenBack(OneItem(Leaf("s")), view, OneItem(Null)) == OneItem(Null);
  }
}
