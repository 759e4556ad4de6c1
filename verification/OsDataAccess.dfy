/** Whole-document reads and writes through the data access resolver. Entities are their serialized documents. */
module OsDataAccess {
  import opened Options
  import opened Bson
  import opened ColumnMask
  import Lens = ColumnMask
  import ColumnMaskInPlace
  import Strings

  datatype Result<T> = Ok(value: T) | ValidationFailed

  /** The requester, when there is one. */
  datatype Context = Context(authenticated: bool, tenantId: string, userId: Option<string>)

  /** What a caller or the resolver asks the database for. */
  type Filter = string

  const EVERYTHING: Filter := ""

  /** A Mongo projection: some of the properties of a document. */
  type Projection = Tree -> Tree

  /** What the resolver says about a read: it may not know the schema at all. */
  datatype ReadAnswer =
    | MissingSchema
    | Answered(granted: bool, hasFilter: bool, projection: Option<Projection>, mask: Mask)

  /** What the resolver says about a document to be written, and what defaults make of it. */
  datatype WriteAnswer = NoSchema | Rejected | Accepted(defaultsApplied: bool, document: map<string, Tree>)

  /** Everything one call depends on besides its arguments. */
  datatype World = World(
    context: Option<Context>,
    sameTenant: (string, string) -> bool,
    read: Filter -> ReadAnswer,
    takesRules: bool,
    write: (Tree, bool) -> WriteAnswer,
    isRecord: bool,
    newAccess: map<string, Tree>)

  /** Which documents a read may return, what of them is fetched, and how they are shown. */
  datatype ReadScope = ReadScope(granted: bool, projection: Option<Projection>, rowMask: Option<Mask>)
  {
    /** `Apply`, for one matching document: what is not fetched has the value a new instance holds. */
    function Fetch(stored: Tree, shape: Shape): Tree
    {
      if projection.None? then stored else Filled(projection.value(stored), shape)
    }

    /** `ForView`. */
    function ForView(entity: Tree, shape: Shape): Tree
      requires entity.Doc?
    {
      if rowMask.None? then entity else Lens.Apply(entity, rowMask.value, shape)
    }

    /** What the API caller gets of a stored document. */
    function Shows(stored: Tree, shape: Shape): Option<Tree>
    {
      if granted && Fetch(stored, shape).Doc? then Some(ForView(Fetch(stored, shape), shape)) else None
    }
  }

  const WHOLE := ReadScope(true, None, None)

  datatype SkipReason = NoUserContext | OtherTenantDb

  function Skip(w: World, tenantId: string): Option<SkipReason>
  {
    if w.context.None? || !w.context.value.authenticated then Some(NoUserContext)
    else if !Strings.IsBlank(tenantId) && !w.sameTenant(tenantId, w.context.value.tenantId) then Some(OtherTenantDb)
    else None
  }

  /** There is a user, and the call is about their own tenant's database. */
  ghost predicate OwnTenantUser(w: World, tenantId: string)
  {
    w.context.Some? && w.context.value.authenticated
    && (Strings.IsBlank(tenantId) || w.sameTenant(tenantId, w.context.value.tenantId))
  }

  function Read(w: World, tenantId: string, filter: Filter, useProjection: bool): ReadScope
  {
    if Skip(w, tenantId).Some? then WHOLE
    else
      match w.read(filter)
      case MissingSchema => WHOLE
      case Answered(granted, hasFilter, projection, mask) =>
        if granted && hasFilter then ReadScope(true, if useProjection then projection else None, Some(mask))
        else ReadScope(false, None, None)
  }

  // ----- Access lists -----

  const ACCESS_LISTS := {"Read", "Update", "Delete"}

  function UserIds(access: map<string, Tree>): seq<Tree>
  {
    if "UserIds" in access && access["UserIds"].Arr? then access["UserIds"].items else []
  }

  /** The access of one kind; a new one where there is none. */
  function Access(w: World, entity: Tree, list: string): map<string, Tree>
    requires entity.Doc?
  {
    if entity.Get(list).Doc? then entity.Get(list).fields else w.newAccess
  }

  function WithUser(access: map<string, Tree>, user: string): map<string, Tree>
  {
    if Leaf(user) in UserIds(access) then access else access["UserIds" := Arr(UserIds(access) + [Leaf(user)])]
  }

  /** The user to be added to the lists of a new record. */
  function Requester(w: World): Option<string>
  {
    if w.isRecord && w.context.Some? && w.context.value.userId.Some? && !Strings.IsBlank(w.context.value.userId.value)
    then w.context.value.userId
    else None
  }

  function WithRequester(w: World, entity: Tree): (r: Tree)
    requires entity.Doc?
    ensures r.Doc?
  {
    if Requester(w).None? then entity
    else
      Doc(map n | n in entity.fields.Keys + ACCESS_LISTS ::
          if n in ACCESS_LISTS then Doc(WithUser(Access(w, entity, n), Requester(w).value)) else entity.fields[n])
  }

  // ----- Writes -----

  /** The document the rules make of one: itself, or with the schema's defaults. */
  function Ruled(w: World, entity: Tree, isInsert: bool, shape: Shape): Result<Tree>
  {
    var answer := if w.takesRules then w.write(entity, isInsert) else NoSchema;
    match answer
    case NoSchema => Ok(entity)
    case Rejected => ValidationFailed
    case Accepted(defaultsApplied, document) => Ok(if defaultsApplied then Filled(Doc(document), shape) else entity)
  }

  function PreparedWrite(w: World, tenantId: string, entity: Tree, isInsert: bool, shape: Shape): Result<Tree>
    requires entity.Doc?
  {
    if Skip(w, tenantId).Some? then Ok(entity)
    else
      match Ruled(w, entity, isInsert, shape)
      case Ok(ruled) => Ok(if isInsert then WithRequester(w, ruled) else ruled)
      case ValidationFailed => ValidationFailed
  }

  /** The document of an update with what the mask hides from the caller put back where they left it alone. */
  function WithHiddenKept(w: World, tenantId: string, entity: Tree, stored: Option<Tree>, shape: Shape): (r: Tree)
    requires entity.Doc? && (stored.Some? ==> stored.value.Doc?)
    ensures r.Doc?
  {
    var mask := Read(w, tenantId, EVERYTHING, true).rowMask;
    if stored.None? || mask.None? then entity else Lens.KeepHidden(entity, stored.value, mask.value, shape)
  }

  function PreparedReplace(w: World, tenantId: string, entity: Tree, stored: Option<Tree>, shape: Shape): Result<Tree>
    requires entity.Doc? && (stored.Some? ==> stored.value.Doc?)
  {
    PreparedWrite(w, tenantId, WithHiddenKept(w, tenantId, entity, stored, shape), false, shape)
  }

  function PreparedUpsert(w: World, tenantId: string, entity: Tree, stored: Option<Tree>, shape: Shape): Result<Tree>
    requires entity.Doc? && (stored.Some? ==> stored.value.Doc?)
  {
    PreparedWrite(w, tenantId, WithHiddenKept(w, tenantId, entity, stored, shape), stored.None?, shape)
  }

  class OsDataAccess {
    var logged: set<(string, SkipReason)>
    var log: seq<(string, SkipReason)>

    /** Every skipped call site is in the log once for each reason. */
    ghost predicate Valid()
      reads this
    {
      && (forall l :: l in logged <==> l in log)
      && (forall i, j | 0 <= i < j < |log| :: log[i] != log[j])
    }

    constructor ()
      ensures Valid() && log == []
    {
      logged, log := {}, [];
    }

    method ShouldSkipResolver(w: World, callSite: string, tenantId: string) returns (skip: bool)
      requires Valid()
      modifies this
      ensures Valid()
      ensures skip == Skip(w, tenantId).Some? == !OwnTenantUser(w, tenantId)
      ensures var user := w.context.Some? && w.context.value.authenticated;
              var line := (callSite, if user then OtherTenantDb else NoUserContext);
              log == if skip && line !in old(log) then old(log) + [line] else old(log)
    {
      if w.context.None? || !w.context.value.authenticated {
        LogOnce(callSite, NoUserContext);
        return true;
      }
      if !Strings.IsBlank(tenantId) && !w.sameTenant(tenantId, w.context.value.tenantId) {
        LogOnce(callSite, OtherTenantDb);
        return true;
      }
      return false;
    }

    method LogOnce(callSite: string, reason: SkipReason)
      requires Valid()
      modifies this
      ensures Valid()
      ensures log == if (callSite, reason) in old(log) then old(log) else old(log) + [(callSite, reason)]
    {
      if (callSite, reason) !in logged {
        logged := logged + {(callSite, reason)};
        log := log + [(callSite, reason)];
      }
    }

    method ReadAsync(w: World, callSite: string, tenantId: string, filter: Filter, useProjection: bool)
      returns (scope: ReadScope)
      requires Valid()
      modifies this
      ensures Valid() && old(log) <= log
      ensures scope == Read(w, tenantId, filter, useProjection)
    {
      var skip := ShouldSkipResolver(w, callSite, tenantId);
      if skip {
        return WHOLE;
      }
      match w.read(filter) {
        case MissingSchema => return WHOLE;
        case Answered(granted, hasFilter, resolved, mask) =>
          if !granted || !hasFilter {
            return ReadScope(false, None, None);
          }
          var projection: Option<Projection> := None;
          if useProjection {
            projection := resolved;
          }
          return ReadScope(true, projection, Some(mask));
      }
    }

    /** The three lists of the entity one after the other. */
    method AddRequesterToAccessLists(w: World, entity: Tree) returns (record: Tree)
      requires entity.Doc?
      ensures record == WithRequester(w, entity)
    {
      var userId := Requester(w);
      if userId.None? {
        return entity;
      }
      record := Doc(entity.fields["Read" := Doc(WithUser(Access(w, entity, "Read"), userId.value))]);
      record := Doc(record.fields["Update" := Doc(WithUser(Access(w, record, "Update"), userId.value))]);
      record := Doc(record.fields["Delete" := Doc(WithUser(Access(w, record, "Delete"), userId.value))]);
      assert record.fields == WithRequester(w, entity).fields;
    }

    method PrepareWrite(
      w: World, callSite: string, tenantId: string, entity: Tree, isInsert: bool, shape: Shape)
      returns (r: Result<Tree>)
      requires Valid() && entity.Doc?
      modifies this
      ensures Valid() && old(log) <= log
      ensures r == PreparedWrite(w, tenantId, entity, isInsert, shape)
    {
      var skip := ShouldSkipResolver(w, callSite, tenantId);
      if skip {
        return Ok(entity);
      }
      var prepared := entity;
      if w.takesRules {
        match w.write(entity, isInsert) {
          case NoSchema =>
          case Rejected => return ValidationFailed;
          case Accepted(defaultsApplied, document) =>
            if defaultsApplied {
              prepared := Filled(Doc(document), shape);
            }
        }
      }
      if isInsert {
        prepared := AddRequesterToAccessLists(w, prepared);
      }
      r := Ok(prepared);
    }

    method KeepHiddenValues(w: World, callSite: string, tenantId: string, entity: Tree, stored: Tree, shape: Shape)
      returns (kept: Tree)
      requires Valid() && entity.Doc? && stored.Doc?
      modifies this
      ensures Valid() && old(log) <= log
      ensures kept == WithHiddenKept(w, tenantId, entity, Some(stored), shape)
    {
      var scope := ReadAsync(w, callSite, tenantId, EVERYTHING, true);
      kept := entity;
      if scope.rowMask.Some? {
        kept := ColumnMaskInPlace.KeepHidden(entity, stored, scope.rowMask.value, shape);
      }
    }

    method PrepareReplace(
      w: World, callSite: string, tenantId: string, entity: Tree, stored: Option<Tree>, shape: Shape)
      returns (r: Result<Tree>)
      requires Valid() && entity.Doc? && (stored.Some? ==> stored.value.Doc?)
      modifies this
      ensures Valid() && old(log) <= log
      ensures r == PreparedReplace(w, tenantId, entity, stored, shape)
    {
      var skip := ShouldSkipResolver(w, callSite, tenantId);
      if skip {
        return Ok(entity);
      }
      var kept := entity;
      if stored.Some? {
        kept := KeepHiddenValues(w, callSite, tenantId, entity, stored.value, shape);
      }
      r := PrepareWrite(w, callSite, tenantId, kept, false, shape);
    }

    method PrepareUpsert(
      w: World, callSite: string, tenantId: string, entity: Tree, stored: Option<Tree>, shape: Shape)
      returns (r: Result<Tree>)
      requires Valid() && entity.Doc? && (stored.Some? ==> stored.value.Doc?)
      modifies this
      ensures Valid() && old(log) <= log
      ensures r == PreparedUpsert(w, tenantId, entity, stored, shape)
    {
      var skip := ShouldSkipResolver(w, callSite, tenantId);
      if skip {
        return Ok(entity);
      }
      if stored.None? {
        r := PrepareWrite(w, callSite, tenantId, entity, true, shape);
        return;
      }
      var kept := KeepHiddenValues(w, callSite, tenantId, entity, stored.value, shape);
      r := PrepareWrite(w, callSite, tenantId, kept, false, shape);
    }
  }

  // ----- Reading -----

  /**
   What a user's read of their own tenant shows of a stored document, as the resolver answers: nothing without
   access or without a filter, and otherwise the document as the projection, if it is used, and the mask leave it.
   */
  lemma AnsweredReadShows(
    w: World, tenantId: string, filter: Filter, useProjection: bool, granted: bool, hasFilter: bool,
    projection: Option<Projection>, mask: Mask, stored: Tree, shape: Shape)
    requires OwnTenantUser(w, tenantId) && stored.Doc?
    requires w.read(filter) == Answered(granted, hasFilter, projection, mask)
    ensures var shown := Read(w, tenantId, filter, useProjection).Shows(stored, shape);
            if !granted || !hasFilter then shown == None
            else if useProjection && projection.Some? then
              var fetched := Filled(projection.value(stored), shape);
              fetched.Doc? ==> shown == Some(Lens.Apply(fetched, mask, shape))
            else shown == Some(Lens.Apply(stored, mask, shape))
  {
  }

  /** Without a user, for another tenant, or for a missing schema, the document is shown as it is stored. */
  lemma OpenReadShowsStored(
    w: World, tenantId: string, filter: Filter, useProjection: bool, stored: Tree, shape: Shape)
    requires !OwnTenantUser(w, tenantId) || w.read(filter) == MissingSchema
    requires stored.Doc?
    ensures Read(w, tenantId, filter, useProjection).Shows(stored, shape) == Some(stored)
  {
  }

  // ----- Read, then save -----

  /** The rules let the document through and apply no defaults to it. */
  ghost predicate RulesPass(w: World, entity: Tree)
  {
    w.takesRules ==> var a := w.write(entity, false); a.NoSchema? || (a.Accepted? && !a.defaultsApplied)
  }

  /** The policy hides the same columns in a read with this filter as in the read before a write. */
  ghost predicate SamePolicy(w: World, tenantId: string, filter: Filter)
  {
    Read(w, tenantId, filter, false).rowMask == Read(w, tenantId, EVERYTHING, true).rowMask
  }

  /** Every array the reader could see was shown whole. */
  ghost predicate ShownWhole(scope: ReadScope, stored: Tree, shape: Shape)
    requires stored.Doc?
  {
    scope.rowMask.Some? ==> ArraysShownWhole(stored, scope.rowMask.value, shape)
  }

  lemma {:induction false} HiddenKeptIff(w: World, tenantId: string, filter: Filter, stored: Tree, shape: Shape)
    requires stored.Doc? && WellShaped(shape) && Serialized(stored, shape) && SamePolicy(w, tenantId, filter)
    ensures var scope := Read(w, tenantId, filter, false);
            WithHiddenKept(w, tenantId, scope.ForView(stored, shape), Some(stored), shape) == stored
            <==> ShownWhole(scope, stored, shape)
  {
    var scope := Read(w, tenantId, filter, false);
    if scope.rowMask.Some? { WriteBackKeepsEverythingIff(stored, scope.rowMask.value, shape); }
  }

  /**
   A whole read, saved exactly as it was shown: where every array the reader could see was shown whole, it is
   judged and saved as the stored document itself would be, whoever the reader is and whatever is hidden from
   them. When the rules pass, that is the only case in which the stored document stays.
   */
  lemma {:induction false} ReadThenReplaceIff(
    w: World, tenantId: string, filter: Filter, stored: Tree, read: Tree, shape: Shape)
    requires stored.Doc? && WellShaped(shape) && Serialized(stored, shape) && SamePolicy(w, tenantId, filter)
    requires Read(w, tenantId, filter, false).Shows(stored, shape) == Some(read) && read.Doc?
    ensures var scope := Read(w, tenantId, filter, false);
            var saved := PreparedReplace(w, tenantId, read, Some(stored), shape);
            && PreparedUpsert(w, tenantId, read, Some(stored), shape) == saved
            && (ShownWhole(scope, stored, shape) ==> saved == PreparedWrite(w, tenantId, stored, false, shape))
            && (RulesPass(w, WithHiddenKept(w, tenantId, read, Some(stored), shape)) ==>
                  saved.Ok? && (saved == Ok(stored) <==> ShownWhole(scope, stored, shape)))
  {
    HiddenKeptIff(w, tenantId, filter, stored, shape);
  }

  /**
   With a projection the reader saves a document of which a part was never fetched. It leaves the stored one
   exactly when it sends what is stored wherever nothing is put back.
   */
  lemma {:induction false} AnyReadThenReplaceIff(
    w: World, tenantId: string, filter: Filter, useProjection: bool, mask: Mask, stored: Tree, read: Tree, shape: Shape)
    requires stored.Doc? && WellShaped(shape) && Serialized(stored, shape)
    requires Read(w, tenantId, EVERYTHING, true).rowMask == Some(mask)
    requires Read(w, tenantId, filter, useProjection).Shows(stored, shape) == Some(read) && read.Doc?
    requires RulesPass(w, WithHiddenKept(w, tenantId, read, Some(stored), shape))
    ensures PreparedReplace(w, tenantId, read, Some(stored), shape) == Ok(stored)
            <==> SendsWhatIsStored(read, stored, mask, shape)
  {
    ShownIsSerialized(w, tenantId, filter, useProjection, stored, shape);
    SavingKeepsStoredIff(read, stored, mask, shape);
  }

  lemma {:induction false} ShownIsSerialized(
    w: World, tenantId: string, filter: Filter, useProjection: bool, stored: Tree, shape: Shape)
    requires WellShaped(shape) && Serialized(stored, shape)
    ensures var read := Read(w, tenantId, filter, useProjection).Shows(stored, shape);
            read.Some? ==> Serialized(read.value, shape)
  {
    var scope := Read(w, tenantId, filter, useProjection);
    if scope.projection.Some? { FilledIsSerialized(scope.projection.value(stored), shape); }
    var entity := scope.Fetch(stored, shape);
    if entity.Doc? && scope.rowMask.Some? {
      FilledIsSerialized(Masked(entity, Doc(scope.rowMask.value(entity.fields))), shape);
    }
  }

  /**
   A property the caller may see but the projection left out is saved with the value a new instance holds,
   whatever was stored: the reason why a read that may be written back takes no projection.
   */
  lemma {:induction false} ProjectedPropertyIsLost(
    w: World, tenantId: string, filter: Filter, mask: Mask, stored: Tree, read: Tree, shape: Shape, name: string)
    requires stored.Doc? && WellShaped(shape) && shape.Record? && Serialized(stored, shape)
    requires Read(w, tenantId, EVERYTHING, true).rowMask == Some(mask)
    requires var scope := Read(w, tenantId, filter, true);
             && scope.Shows(stored, shape) == Some(read) && read.Doc?
             && scope.projection.Some? && scope.projection.value(stored).Doc?
             && name !in scope.projection.value(stored).fields
    requires name in shape.members && (shape.members[name].initial.Null? || shape.members[name].initial.Leaf?)
    requires name in stored.fields && name in Masked(stored, Doc(mask(stored.fields))).fields
    requires RulesPass(w, WithHiddenKept(w, tenantId, read, Some(stored), shape))
    ensures var saved := PreparedReplace(w, tenantId, read, Some(stored), shape);
            saved.Ok? && saved.value.Doc? && saved.value.Get(name) == shape.members[name].initial
  {
    ShownIsSerialized(w, tenantId, filter, true, stored, shape);
    UnfetchedIsInitial(Read(w, tenantId, filter, true), stored, read, shape, name);
    var view := Masked(stored, Doc(mask(stored.fields)));
    KeepHiddenIsRestored(read, stored, mask, shape);
    VisibleInView(stored, Doc(mask(stored.fields)), shape, name);
    assert RestoredProperty(read, stored, view, Filled(view, shape), name) == read.Get(name);
  }

  lemma {:induction false} UnfetchedIsInitial(
    scope: ReadScope, stored: Tree, read: Tree, shape: Shape, name: string)
    requires scope.Shows(stored, shape) == Some(read) && read.Doc? && shape.Record? && name in shape.members
    requires scope.projection.Some? && scope.projection.value(stored).Doc?
    requires name !in scope.projection.value(stored).fields
    requires shape.members[name].initial.Null? || shape.members[name].initial.Leaf?
    ensures name in read.fields && read.fields[name] == shape.members[name].initial
  {
    var entity, initial := scope.Fetch(stored, shape), shape.members[name].initial;
    assert entity.fields[name] == initial;
    if scope.rowMask.Some? {
      var row := Doc(scope.rowMask.value(entity.fields));
      var view := Masked(entity, row);
      if name in view.fields { VisibleInView(entity, row, shape, name); }
      assert Filled(view, shape).fields[name] == initial;
    }
  }

  // ----- Any save -----

  /** A save is rejected exactly when the rules reject the document with the hidden values kept. */
  lemma {:induction false} RejectedIff(w: World, tenantId: string, incoming: Tree, stored: Option<Tree>, shape: Shape)
    requires incoming.Doc? && (stored.Some? ==> stored.value.Doc?)
    ensures var kept := WithHiddenKept(w, tenantId, incoming, stored, shape);
            && (PreparedReplace(w, tenantId, incoming, stored, shape).ValidationFailed? <==>
                  OwnTenantUser(w, tenantId) && w.takesRules && w.write(kept, false) == Rejected)
            && (PreparedUpsert(w, tenantId, incoming, stored, shape).ValidationFailed? <==>
                  OwnTenantUser(w, tenantId) && w.takesRules && w.write(kept, stored.None?) == Rejected)
  {
  }

  /** Without a user or for another tenant, what is saved is what was sent. */
  lemma SkippedSaveIsAsSent(w: World, tenantId: string, incoming: Tree, stored: Option<Tree>, shape: Shape)
    requires !OwnTenantUser(w, tenantId) && incoming.Doc? && (stored.Some? ==> stored.value.Doc?)
    ensures PreparedReplace(w, tenantId, incoming, stored, shape) == Ok(incoming)
    ensures PreparedUpsert(w, tenantId, incoming, stored, shape) == Ok(incoming)
    ensures PreparedWrite(w, tenantId, incoming, true, shape) == PreparedWrite(w, tenantId, incoming, false, shape)
    ensures PreparedWrite(w, tenantId, incoming, true, shape) == Ok(incoming)
  {
  }

  /**
   Where nothing is stored, or the read of everything gives no mask, the rules judge the document as it was
   sent, and a replace that they leave alone saves it.
   */
  lemma NothingToKeep(w: World, tenantId: string, incoming: Tree, stored: Option<Tree>, shape: Shape)
    requires incoming.Doc? && (stored.Some? ==> stored.value.Doc?)
    requires stored.None? || w.read(EVERYTHING).MissingSchema?
             || !w.read(EVERYTHING).granted || !w.read(EVERYTHING).hasFilter
    ensures WithHiddenKept(w, tenantId, incoming, stored, shape) == incoming
    ensures RulesPass(w, incoming) ==> PreparedReplace(w, tenantId, incoming, stored, shape) == Ok(incoming)
  {
  }

  /**
   Defaults reach the saved document: it is the one the rules return, read into the class, so every value in
   a document of theirs is saved; and an insert adds the requester to that document, not to the one sent.
   */
  lemma {:induction false} DefaultsAreSaved(
    w: World, tenantId: string, incoming: Tree, stored: Option<Tree>, document: map<string, Tree>, shape: Shape,
    path: seq<string>, name: string)
    requires incoming.Doc? && (stored.Some? ==> stored.value.Doc?)
    requires OwnTenantUser(w, tenantId) && w.takesRules
    requires w.write(WithHiddenKept(w, tenantId, incoming, stored, shape), stored.None?) == Accepted(true, document)
    requires IsDoc(At(Doc(document), path))
    ensures var saved, filled := PreparedUpsert(w, tenantId, incoming, stored, shape), Filled(Doc(document), shape);
            && saved == Ok(if stored.None? then WithRequester(w, filled) else filled)
            && (stored.Some? ==> PreparedReplace(w, tenantId, incoming, stored, shape) == saved)
            && var sent := At(Doc(document), path + [name]);
               (sent.Some? && !sent.value.Doc? && !sent.value.Arr? ==> At(filled, path + [name]) == sent)
               && (sent.None? ==> At(filled, path + [name]) == Unset(ShapeAt(shape, path), name))
  {
    FilledAt(Doc(document), shape, path, name);
  }

  /**
   The put law for whole saves. Whatever the caller sends, the rules judge, and when they pass the database
   gets, the stored value exactly where a property is hidden from the caller and left alone by them, and the
   caller's own value elsewhere.
   */
  lemma {:induction false} SavePutLaw(
    w: World, tenantId: string, incoming: Tree, stored: Tree, mask: Mask, shape: Shape, path: seq<string>, name: string)
    requires incoming.Doc? && stored.Doc? && Serialized(incoming, shape) && Serialized(stored, shape)
    requires Read(w, tenantId, EVERYTHING, true).rowMask == Some(mask)
    requires var view := Masked(stored, Doc(mask(stored.fields)));
             Shared(incoming, stored, view, Filled(view, shape), path)
    ensures var view := Masked(stored, Doc(mask(stored.fields)));
            var shown, p := Filled(view, shape), path + [name];
            var judged := WithHiddenKept(w, tenantId, incoming, Some(stored), shape);
            && (RulesPass(w, judged) ==>
                  && PreparedReplace(w, tenantId, incoming, Some(stored), shape) == Ok(judged)
                  && PreparedUpsert(w, tenantId, incoming, Some(stored), shape) == Ok(judged))
            && if HiddenUntouched(incoming, stored, view, shown, p) then At(judged, p) == At(stored, p)
               else if Shared(incoming, stored, view, shown, p) then IsDoc(At(judged, p))
               else At(judged, p) == At(incoming, p)
  {
    PutLaw(incoming, stored, mask, shape, path, name);
  }

  /** Saving what a save prepared prepares the same again. */
  lemma {:induction false} SavingAgain(
    w: World, tenantId: string, incoming: Tree, stored: Tree, saved: Tree, shape: Shape)
    requires incoming.Doc? && stored.Doc? && Serialized(incoming, shape) && Serialized(stored, shape)
    requires RulesPass(w, WithHiddenKept(w, tenantId, incoming, Some(stored), shape))
    requires PreparedReplace(w, tenantId, incoming, Some(stored), shape) == Ok(saved) && saved.Doc?
    ensures PreparedReplace(w, tenantId, saved, Some(stored), shape) == Ok(saved)
  {
    var mask := Read(w, tenantId, EVERYTHING, true).rowMask;
    if mask.Some? { KeepingTwiceIsKeepingOnce(incoming, stored, mask.value, shape); }
  }

  // ----- The requester -----

  /**
   Adding the requester to a record: each of its three accesses, or a new one where it has none, keeps what it
   holds and gets the id at the end of its list, unless it is there; nothing else of the record changes.
   */
  lemma RequesterJoinsAccess(
    w: World, entity: Tree, user: string, list: string, access: map<string, Tree>, ids: seq<Tree>)
    requires entity.Doc? && list in {"Read", "Update", "Delete"}
    requires w.isRecord && w.context.Some? && w.context.value.userId == Some(user) && !Strings.IsBlank(user)
    requires if list in entity.fields && entity.fields[list].Doc? then access == entity.fields[list].fields
             else access == w.newAccess
    requires "UserIds" in access && access["UserIds"] == Arr(ids)
    ensures var r := WithRequester(w, entity);
            && r.fields.Keys == entity.fields.Keys + {"Read", "Update", "Delete"}
            && r.fields[list] == Doc(access["UserIds" := Arr(if Leaf(user) in ids then ids else ids + [Leaf(user)])])
            && forall n | n in entity.fields && n !in {"Read", "Update", "Delete"} :: r.fields[n] == entity.fields[n]
  {
    assert access["UserIds" := Arr(ids)] == access;
  }

  /** Without a user id, or for an entity without the lists, an insert adds nobody. */
  lemma NobodyJoins(w: World, entity: Tree)
    requires entity.Doc?
    requires !w.isRecord || w.context.None? || w.context.value.userId.None?
             || Strings.IsBlank(w.context.value.userId.value)
    ensures WithRequester(w, entity) == entity
  {
  }

  /**
   Adding the requester: in each of the three lists they are there, once more only if they were not; the ids
   already there keep their places; everything else stays; and adding them again changes nothing.
   */
  lemma {:induction false} RequesterJoinsLists(w: World, entity: Tree, user: string)
    requires entity.Doc? && Requester(w) == Some(user)
    ensures var r := WithRequester(w, entity);
            && (forall n | n in ACCESS_LISTS :: n in r.fields && r.fields[n].Doc?
                  && Joined(UserIds(Access(w, entity, n)), UserIds(r.fields[n].fields), Leaf(user))
                  && r.fields[n].fields - {"UserIds"} == Access(w, entity, n) - {"UserIds"})
            && r.fields - ACCESS_LISTS == entity.fields - ACCESS_LISTS
            && WithRequester(w, r) == r
  {
    forall n | n in ACCESS_LISTS
      ensures n in WithRequester(w, entity).fields && WithRequester(w, entity).fields[n].Doc?
      ensures var after := WithRequester(w, entity).fields[n].fields;
              Joined(UserIds(Access(w, entity, n)), UserIds(after), Leaf(user))
              && after - {"UserIds"} == Access(w, entity, n) - {"UserIds"}
    {
      UserJoins(Access(w, entity, n), user);
    }
    JoiningAgain(w, entity, user);
  }

  lemma {:induction false} JoiningAgain(w: World, entity: Tree, user: string)
    requires entity.Doc? && Requester(w) == Some(user)
    ensures WithRequester(w, WithRequester(w, entity)) == WithRequester(w, entity)
  {
    var r := WithRequester(w, entity);
    forall n | n in ACCESS_LISTS ensures WithUser(Access(w, r, n), user) == r.fields[n].fields {
      UserJoins(Access(w, entity, n), user);
    }
    assert WithRequester(w, r).fields == r.fields;
  }

  /** The id is there, at the end if it was not there before, and the others are where they were. */
  ghost predicate Joined(before: seq<Tree>, after: seq<Tree>, user: Tree)
  {
    && user in after && before <= after && |after| <= |before| + 1
    && (|after| == |before| <==> user in before)
  }

  lemma UserJoins(access: map<string, Tree>, user: string)
    ensures var r := WithUser(access, user);
            && Joined(UserIds(access), UserIds(r), Leaf(user)) && r - {"UserIds"} == access - {"UserIds"}
            && WithUser(r, user) == r
  {
  }

  /**
   A saved record whose lists the rules leave without the requester names them afterwards exactly when nothing
   was stored: an update never adds anybody, nor does any save without a user, or of an entity without the lists.
   */
  lemma {:induction false} RequesterAddedIff(
    w: World, tenantId: string, entity: Tree, stored: Option<Tree>, ruled: Tree, shape: Shape, user: string,
    list: string)
    requires entity.Doc? && (stored.Some? ==> stored.value.Doc?) && list in ACCESS_LISTS
    requires OwnTenantUser(w, tenantId) && w.context.value.userId == Some(user)
    requires Ruled(w, WithHiddenKept(w, tenantId, entity, stored, shape), stored.None?, shape) == Ok(ruled)
    requires ruled.Doc?
    requires Leaf(user) !in UserIds(Access(w, ruled, list))
    ensures var saved := PreparedUpsert(w, tenantId, entity, stored, shape);
            && saved.Ok? && saved.value.Doc?
            && (Leaf(user) in UserIds(Access(w, saved.value, list)) <==>
                  stored.None? && w.isRecord && !Strings.IsBlank(user))
  {
    if stored.None? && Requester(w).Some? { RequesterJoinsLists(w, ruled, user); }
  }
}
