/** One RabbitMQ delivery: what is saved, and how the delivery is settled. */
module LmtDelivery {
  import opened Options
  import Strings

  /** What deserializing a part of the body gives; it may throw. */
  datatype Read<+T> = Throws | Value(value: T)

  type Item = string
  type Batch = (string, Option<seq<Item>>)

  /** The message body: not JSON, `null`, without data, or with data that is read as the message type asks. */
  datatype Body =
    | NotJson
    | NullMessage
    | NoData
    | Data(logs: Read<Option<seq<Item>>>, traces: Read<Option<seq<Batch>>>)

  datatype Delivery = Delivery(messageType: Option<string>, serviceName: string, body: Body)

  /**
   The database: which collection names it accepts, which items become documents, and how many documents the
   n-th insert of a message stores before it fails, if it fails. Documents are inserted in order.
   */
  datatype Database = Database(accepts: string -> bool, converts: Item -> bool, failsAfter: nat -> Option<nat>)

  datatype Settlement = Ack | NackRequeue

  /** Which of the two settling calls would fail. */
  datatype Course = Course(ackFails: bool, nackFails: bool)

  /** The items of a batch that get into the database when it is the n-th one of its message. */
  function StoredOf(db: Database, n: nat, batch: Option<seq<Item>>): (stored: seq<Item>)
    ensures batch.Some? ==> stored <= batch.value
  {
    if batch.None? || !(forall x | x in batch.value :: db.converts(x)) then []
    else
      match db.failsAfter(n)
      case None => batch.value
      case Some(k) => batch.value[..if k < |batch.value| then k else |batch.value|]
  }

  function Piece(tenant: string, stored: seq<Item>): seq<(string, seq<Item>)>
  {
    if stored == [] then [] else [(tenant, stored)]
  }

  function Inserted(db: Database, batches: seq<Batch>): seq<(string, seq<Item>)>
  {
    if batches == [] then []
    else
      var n := |batches| - 1;
      Inserted(db, batches[..n]) + Piece(batches[n].0, StoredOf(db, n, batches[n].1))
  }

  function Tenants(batches: seq<Batch>): seq<string> { seq(|batches|, i requires 0 <= i < |batches| => batches[i].0) }

  /** The batches before the first whose tenant cannot name a collection. */
  function Reached(db: Database, batches: seq<Batch>): (n: nat)
    ensures n <= |batches|
    ensures forall i | 0 <= i < n :: db.accepts(batches[i].0)
    ensures n < |batches| ==> !db.accepts(batches[n].0)
  {
    if batches == [] || !db.accepts(batches[0].0) then 0 else 1 + Reached(db, batches[1..])
  }

  predicate Complete(d: Delivery)
  {
    && d.messageType.Some? && !Strings.IsBlank(d.messageType.value) && !Strings.IsBlank(d.serviceName)
  }

  /** The tenant batches the delivery asks to save. */
  function Batches(d: Delivery): seq<Batch>
  {
    if Complete(d) && d.body.Data? && d.messageType.value == "traces"
       && d.body.traces.Value? && d.body.traces.value.Some? then
      d.body.traces.value.value
    else []
  }

  function Logs(d: Delivery): seq<Item>
  {
    if Complete(d) && d.body.Data? && d.messageType.value == "logs"
       && d.body.logs.Value? && d.body.logs.value.Some? then
      d.body.logs.value.value
    else []
  }

  /** Some part of a complete delivery that its type asks for cannot be read. */
  predicate Unreadable(d: Delivery)
  {
    Complete(d) && match d.body
      case NotJson => true
      case Data(logs, traces) =>
        (d.messageType.value == "logs" && logs.Throws?) || (d.messageType.value == "traces" && traces.Throws?)
      case _ => false
  }

  /** Processing throws: unreadable, a name no collection can have, or a tenant with no list at all. */
  predicate Fails(db: Database, d: Delivery)
  {
    || Unreadable(d)
    || (Logs(d) != [] && !db.accepts(d.serviceName))
    || (exists b | b in Batches(d) :: !db.accepts(b.0) || b.1.None?)
  }

  /** The settlement that reaches the broker; an acknowledgement that fails is caught like any other failure. */
  function Settle(db: Database, d: Delivery, course: Course): Option<Settlement>
  {
    if !Fails(db, d) && !course.ackFails then Some(Ack)
    else if !course.nackFails then Some(NackRequeue)
    else None
  }

  class Worker {
    const db: Database
    var attempted: seq<string>
    var inserted: seq<(string, seq<Item>)>
    var settled: seq<Settlement>

    constructor (db: Database)
      ensures this.db == db && attempted == [] && inserted == [] && settled == []
    {
      this.db := db;
      attempted, inserted, settled := [], [], [];
    }

    /** One insert per tenant, each with its own failure; only an impossible collection name stops the loop. */
    method SaveTenantBatches(batches: seq<Batch>) returns (threw: bool)
      modifies this`attempted, this`inserted
      ensures threw <==> Reached(db, batches) < |batches|
      ensures attempted == old(attempted) + Tenants(batches[..Reached(db, batches)])
      ensures inserted == old(inserted) + Inserted(db, batches[..Reached(db, batches)])
    {
      ghost var reached := Reached(db, batches);
      for i := 0 to |batches|
        invariant i <= reached
        invariant attempted == old(attempted) + Tenants(batches[..i])
        invariant inserted == old(inserted) + Inserted(db, batches[..i])
      {
        if !db.accepts(batches[i].0) {
          return true;
        }
        OneMoreBatch(db, batches, i);
        Regroup(old(attempted), Tenants(batches[..i]), [batches[i].0]);
        Regroup(old(inserted), Inserted(db, batches[..i]), Piece(batches[i].0, StoredOf(db, i, batches[i].1)));
        attempted := attempted + [batches[i].0];
        inserted := inserted + Piece(batches[i].0, StoredOf(db, i, batches[i].1));
      }
      threw := false;
    }

    method SaveLogs(serviceName: string, logs: seq<Item>) returns (threw: bool)
      modifies this`attempted, this`inserted
      ensures threw == !db.accepts(serviceName)
      ensures attempted == old(attempted) + if threw then [] else [serviceName]
      ensures inserted == old(inserted) + if threw then [] else Piece(serviceName, StoredOf(db, 0, Some(logs)))
    {
      if !db.accepts(serviceName) {
        return true;
      }
      attempted := attempted + [serviceName];
      inserted := inserted + Piece(serviceName, StoredOf(db, 0, Some(logs)));
      threw := false;
    }

    method ProcessPayload(d: Delivery) returns (threw: bool)
      requires Complete(d)
      modifies this`attempted, this`inserted
      ensures threw == Fails(db, d)
      ensures Saved(db, d, old(attempted), attempted, old(inserted), inserted)
    {
      match d.body {
        case NotJson => return true;
        case NullMessage => return false;
        case NoData => return false;
        case Data(logs, traces) =>
          if d.messageType.value == "logs" {
            if logs.Throws? {
              return true;
            }
            if logs.value.Some? && |logs.value.value| > 0 {
              threw := SaveLogs(d.serviceName, logs.value.value);
              return;
            }
          } else if d.messageType.value == "traces" {
            if traces.Throws? {
              return true;
            }
            if traces.value.Some? && |traces.value.value| > 0 {
              var batches := traces.value.value;
              threw := SaveTenantBatches(batches);
              if !threw {
                assert batches[..|batches|] == batches;
                threw := exists b | b in batches :: b.1.None?;
              }
              return;
            }
          }
      }
      threw := false;
    }

    /** Settles the delivery; it throws when it could not. */
    method ProcessMessage(d: Delivery, course: Course) returns (threw: bool)
      modifies this`attempted, this`inserted, this`settled
      ensures threw == Settle(db, d, course).None?
      ensures settled == old(settled) + if threw then [] else [Settle(db, d, course).value]
      ensures Saved(db, d, old(attempted), attempted, old(inserted), inserted)
    {
      var failed := false;
      if d.messageType.Some? && !Strings.IsBlank(d.messageType.value) && !Strings.IsBlank(d.serviceName) {
        failed := ProcessPayload(d);
      }
      if !failed {
        if !course.ackFails {
          settled := settled + [Ack];
          return false;
        }
      }
      if course.nackFails {
        return true;
      }
      settled := settled + [NackRequeue];
      threw := false;
    }

    /** As often as it is requeued, the delivery comes again, unchanged; the database works as before. */
    method DeliverAgain(d: Delivery, courses: seq<Course>)
      requires forall i | 0 <= i < |courses| :: Settle(db, d, courses[i]) == Some(NackRequeue)
      modifies this`attempted, this`inserted, this`settled
      ensures inserted == old(inserted) + Times(|courses|, Stored(db, d))
      ensures attempted == old(attempted) + Times(|courses|, Attempted(db, d))
      ensures settled == old(settled) + Times(|courses|, [NackRequeue])
    {
      for i := 0 to |courses|
        invariant inserted == old(inserted) + Times(i, Stored(db, d))
        invariant attempted == old(attempted) + Times(i, Attempted(db, d))
        invariant settled == old(settled) + Times(i, [NackRequeue])
      {
        TimesMore(old(inserted), i, Stored(db, d));
        TimesMore(old(attempted), i, Attempted(db, d));
        TimesMore(old(settled), i, [NackRequeue]);
        var threw := ProcessMessage(d, courses[i]);
      }
    }
  }

  lemma {:induction false} TimesMore<T>(before: seq<T>, n: nat, s: seq<T>)
    ensures before + Times(n + 1, s) == before + Times(n, s) + s
  {
  }

  lemma Regroup<T>(a: seq<T>, b: seq<T>, c: seq<T>)
    ensures a + (b + c) == a + b + c
  {
  }

  lemma OneMoreBatch(db: Database, batches: seq<Batch>, i: nat)
    requires i < |batches|
    ensures Tenants(batches[..i + 1]) == Tenants(batches[..i]) + [batches[i].0]
    ensures Inserted(db, batches[..i + 1])
            == Inserted(db, batches[..i]) + Piece(batches[i].0, StoredOf(db, i, batches[i].1))
  {
    assert batches[..i + 1][..i] == batches[..i];
  }

  function Times<T>(n: nat, s: seq<T>): seq<T>
  {
    if n == 0 then [] else Times(n - 1, s) + s
  }

  /** The inserts one processing of the delivery attempts, and those that go through. */
  function Attempted(db: Database, d: Delivery): seq<string>
  {
    if Logs(d) != [] then if db.accepts(d.serviceName) then [d.serviceName] else []
    else Tenants(Batches(d)[..Reached(db, Batches(d))])
  }

  function Stored(db: Database, d: Delivery): seq<(string, seq<Item>)>
  {
    if Logs(d) != [] then
      if db.accepts(d.serviceName) then Piece(d.serviceName, StoredOf(db, 0, Some(Logs(d)))) else []
    else Inserted(db, Batches(d)[..Reached(db, Batches(d))])
  }

  ghost predicate Saved(
    db: Database, d: Delivery, attempted: seq<string>, attempted': seq<string>,
    inserted: seq<(string, seq<Item>)>, inserted': seq<(string, seq<Item>)>)
  {
    attempted' == attempted + Attempted(db, d) && inserted' == inserted + Stored(db, d)
  }

  // ----- What becomes of each kind of message -----

  /** The first items of a list, as many as an insert stores that fails after some of them or goes through. */
  function UpTo(items: seq<Item>, failsAfter: Option<nat>): seq<Item>
  {
    if failsAfter.Some? && failsAfter.value < |items| then items[..failsAfter.value] else items
  }

  /** What the n-th insert stores: nothing without a list or of items that cannot all be converted. */
  ghost function OwnInsert(db: Database, n: nat, batch: Option<seq<Item>>): seq<Item>
  {
    if batch.None? || exists x :: x in batch.value && !db.converts(x) then []
    else UpTo(batch.value, db.failsAfter(n))
  }

  lemma StoredOfIs(db: Database, n: nat, batch: Option<seq<Item>>)
    ensures StoredOf(db, n, batch) == OwnInsert(db, n, batch)
  {
  }

  lemma NamedTypes()
    ensures !Strings.IsBlank("logs") && !Strings.IsBlank("traces")
  {
    assert 'l' in "logs" && 't' in "traces";
  }

  /**
   A logs message with some logs: one insert into the service's collection, of all of them and in their order,
   which stores what comes before its failure. It is put back only when the collection name is impossible.
   */
  lemma LogsMessage(db: Database, service: string, logs: seq<Item>, traces: Read<Option<seq<Batch>>>, nackFails: bool)
    requires !Strings.IsBlank(service) && logs != []
    ensures var d := Delivery(Some("logs"), service, Data(Value(Some(logs)), traces));
            var settled := Settle(db, d, Course(false, nackFails));
            if !db.accepts(service) then
              Attempted(db, d) == [] && Stored(db, d) == [] && settled == if nackFails then None else Some(NackRequeue)
            else
              && Attempted(db, d) == [service] && settled == Some(Ack)
              && StoredFor(service, Stored(db, d)) == OwnInsert(db, 0, Some(logs))
              && (forall s | s in Stored(db, d) :: s.0 == service)
              && ((forall x | x in logs :: db.converts(x)) && db.failsAfter(0) == None ==>
                    Stored(db, d) == [(service, logs)])
  {
    NamedTypes();
    StoredOfIs(db, 0, Some(logs));
    StoredForMore(service, [], service, StoredOf(db, 0, Some(logs)));
    assert [] + Piece(service, StoredOf(db, 0, Some(logs))) == Piece(service, StoredOf(db, 0, Some(logs)));
  }

  lemma {:induction false} ReachedIs(db: Database, batches: seq<Batch>, n: nat)
    requires n <= |batches| && forall i | 0 <= i < n :: db.accepts(batches[i].0)
    requires n < |batches| ==> !db.accepts(batches[n].0)
    ensures Reached(db, batches) == n
  {
    if n > 0 { ReachedIs(db, batches[1..], n - 1); }
  }

  /**
   A traces message: the tenants are attempted in order, up to the first that cannot name a collection; of each
   of them what its own insert stores is stored, whatever becomes of the others. It is acknowledged exactly
   when no tenant was left and every tenant has a list.
   */
  lemma {:induction false} TracesMessage(
    db: Database, service: string, logs: Read<Option<seq<Item>>>, batches: seq<Batch>, n: nat, nackFails: bool)
    requires !Strings.IsBlank(service) && DistinctTenants(batches)
    requires n <= |batches| && forall i | 0 <= i < n :: db.accepts(batches[i].0)
    requires n < |batches| ==> !db.accepts(batches[n].0)
    ensures var d := Delivery(Some("traces"), service, Data(logs, Value(Some(batches))));
            && Attempted(db, d) == seq(n, i requires 0 <= i < n => batches[i].0)
            && (Settle(db, d, Course(false, nackFails)) == Some(Ack) <==>
                  n == |batches| && forall i | 0 <= i < |batches| :: batches[i].1.Some?)
            && (forall i | 0 <= i < n :: StoredFor(batches[i].0, Stored(db, d)) == OwnInsert(db, i, batches[i].1))
            && (forall i | n <= i < |batches| :: StoredFor(batches[i].0, Stored(db, d)) == [])
  {
    NamedTypes();
    var d := Delivery(Some("traces"), service, Data(logs, Value(Some(batches))));
    ReachedIs(db, batches, n);
    var reached := batches[..n];
    assert Batches(d) == batches && Logs(d) == [] && Stored(db, d) == Inserted(db, reached);
    forall i | 0 <= i < n
      ensures StoredFor(batches[i].0, Stored(db, d)) == StoredOf(db, i, batches[i].1)
    {
      assert reached[i] == batches[i] && DistinctTenants(reached);
      BatchStandsAlone(db, reached, i);
    }
    forall i | 0 <= i < n ensures StoredOf(db, i, batches[i].1) == OwnInsert(db, i, batches[i].1) {
      StoredOfIs(db, i, batches[i].1);
    }
    forall i | n <= i < |batches| ensures StoredFor(batches[i].0, Stored(db, d)) == [] {
      forall k | 0 <= k < n ensures reached[k].0 != batches[i].0 { assert reached[k] == batches[k]; }
      NothingForOthers(db, reached, batches[i].0);
    }
    FailsAtTenant(db, d, batches, n);
  }

  lemma FailsAtTenant(db: Database, d: Delivery, batches: seq<Batch>, n: nat)
    requires Batches(d) == batches && Logs(d) == [] && !Unreadable(d)
    requires n <= |batches| && forall i | 0 <= i < n :: db.accepts(batches[i].0)
    requires n < |batches| ==> !db.accepts(batches[n].0)
    ensures Fails(db, d) <==> n < |batches| || exists i | 0 <= i < |batches| :: batches[i].1.None?
  {
    if n < |batches| { assert batches[n] in batches; }
    if i: nat :| i < |batches| && batches[i].1.None? { assert batches[i] in batches; }
  }

  /** The message says its type and its service. */
  ghost predicate Names(d: Delivery)
  {
    && d.messageType.Some? && !Strings.IsBlank(d.messageType.value)
    && !Strings.IsBlank(d.serviceName)
  }

  /** Every other message saves nothing. It is put back when a part that its type asks for cannot be read. */
  lemma OtherMessage(db: Database, d: Delivery, course: Course)
    requires !Names(d) || !d.body.Data?
             || (d.messageType.value == "logs" && d.body.logs in {Read.Throws, Value(None), Value(Some([]))})
             || (d.messageType.value == "traces" && d.body.traces in {Read.Throws, Value(None), Value(Some([]))})
             || d.messageType.value !in {"logs", "traces"}
    ensures Attempted(db, d) == [] && Stored(db, d) == []
    ensures var unreadable := d.body.NotJson?
                              || (d.body.Data? && d.messageType == Some("logs") && d.body.logs == Read.Throws)
                              || (d.body.Data? && d.messageType == Some("traces") && d.body.traces == Read.Throws);
            Settle(db, d, course)
            == if !(Names(d) && unreadable) && !course.ackFails then Some(Ack)
               else if !course.nackFails then Some(NackRequeue) else None
  {
  }

  // ----- What the settlement says about the saving -----

  /** In an acknowledged traces message every tenant's batch was attempted, once each and in order. */
  lemma AckedAttemptsEveryBatch(db: Database, d: Delivery)
    requires !Fails(db, d) && Batches(d) != []
    ensures Attempted(db, d) == Tenants(Batches(d))
    ensures Stored(db, d) == Inserted(db, Batches(d))
  {
    var batches := Batches(d);
    assert forall i | 0 <= i < |batches| :: batches[i] in Batches(d);
    assert batches[..|batches|] == batches;
  }

  /** What is stored for one tenant. */
  function StoredFor(tenant: string, inserted: seq<(string, seq<Item>)>): seq<Item>
  {
    if inserted == [] then []
    else
      var n := |inserted| - 1;
      StoredFor(tenant, inserted[..n]) + if inserted[n].0 == tenant then inserted[n].1 else []
  }

  lemma StoredForMore(tenant: string, inserted: seq<(string, seq<Item>)>, other: string, stored: seq<Item>)
    ensures StoredFor(tenant, inserted + Piece(other, stored))
            == StoredFor(tenant, inserted) + if other == tenant then stored else []
  {
    if stored == [] {
      assert inserted + [] == inserted;
    } else {
      assert (inserted + [(other, stored)])[..|inserted|] == inserted;
    }
  }

  ghost predicate DistinctTenants(batches: seq<Batch>)
  {
    forall j, k | 0 <= j < k < |batches| :: batches[j].0 != batches[k].0
  }

  /**
   A tenant's stored items are those its own insert stores, all of them when that goes through: no other
   tenant's failure matters.
   */
  lemma {:induction false} BatchStandsAlone(db: Database, batches: seq<Batch>, i: nat)
    requires DistinctTenants(batches) && i < |batches|
    ensures StoredFor(batches[i].0, Inserted(db, batches)) == StoredOf(db, i, batches[i].1)
    decreases |batches|
  {
    var n := |batches| - 1;
    StoredForLast(db, batches, batches[i].0);
    OthersApart(batches);
    if i < n {
      assert batches[..n][i] == batches[i];
      BatchStandsAlone(db, batches[..n], i);
    } else {
      NothingForOthers(db, batches[..n], batches[n].0);
    }
  }

  lemma StoredForLast(db: Database, batches: seq<Batch>, tenant: string)
    requires batches != []
    ensures var n := |batches| - 1;
            StoredFor(tenant, Inserted(db, batches))
            == StoredFor(tenant, Inserted(db, batches[..n]))
               + if batches[n].0 == tenant then StoredOf(db, n, batches[n].1) else []
  {
    var n := |batches| - 1;
    StoredForMore(tenant, Inserted(db, batches[..n]), batches[n].0, StoredOf(db, n, batches[n].1));
  }

  lemma OthersApart(batches: seq<Batch>)
    requires DistinctTenants(batches) && batches != []
    ensures var before := batches[..|batches| - 1];
            DistinctTenants(before) && forall k | 0 <= k < |before| :: before[k].0 != batches[|batches| - 1].0
  {
  }

  lemma {:induction false} NothingForOthers(db: Database, batches: seq<Batch>, tenant: string)
    requires forall k | 0 <= k < |batches| :: batches[k].0 != tenant
    ensures StoredFor(tenant, Inserted(db, batches)) == []
    decreases |batches|
  {
    if batches != [] {
      var n := |batches| - 1;
      StoredForLast(db, batches, tenant);
      NothingForOthers(db, batches[..n], tenant);
    }
  }

  predicate StoresAt(db: Database, batches: seq<Batch>, i: nat)
    requires i < |batches|
  {
    StoredOf(db, i, batches[i].1) != []
  }

  /** Some tenant's insert stores something, and no tenant up to it has an impossible collection name. */
  ghost predicate SavesTraces(db: Database, batches: seq<Batch>)
  {
    exists i | 0 <= i < |batches| :: StoresAt(db, batches, i) && forall j | 0 <= j <= i :: db.accepts(batches[j].0)
  }

  ghost predicate SavesLogs(db: Database, d: Delivery)
  {
    Logs(d) != [] && db.accepts(d.serviceName) && StoredOf(db, 0, Some(Logs(d))) != []
  }

  /**
   A delivery is put back on the queue after something was stored, which its redelivery stores again, exactly
   when a part of a failing traces message was saved, or the acknowledgement of a saved message fails.
   */
  lemma {:induction false} RequeuedAfterSavingIff(db: Database, d: Delivery, course: Course)
    ensures Settle(db, d, course) == Some(NackRequeue) && Stored(db, d) != []
            <==> !course.nackFails
                 && (if Fails(db, d) then SavesTraces(db, Batches(d))
                     else course.ackFails && (SavesTraces(db, Batches(d)) || SavesLogs(db, d)))
  {
    StoredIff(db, d);
    assert Fails(db, d) ==> !SavesLogs(db, d);
  }

  lemma {:induction false} StoredIff(db: Database, d: Delivery)
    ensures Stored(db, d) != [] <==> SavesTraces(db, Batches(d)) || SavesLogs(db, d)
  {
    if Logs(d) != [] {
      assert Batches(d) == [];
    } else {
      ReachedSavesIff(db, Batches(d));
    }
  }

  lemma {:induction false} ReachedSavesIff(db: Database, batches: seq<Batch>)
    ensures SavesTraces(db, batches) <==> Inserted(db, batches[..Reached(db, batches)]) != []
  {
    var n := Reached(db, batches);
    var reached := batches[..n];
    StoresSomethingIff(db, reached);
    if Inserted(db, reached) != [] {
      var i :| 0 <= i < n && StoresAt(db, reached, i);
      assert StoresAt(db, batches, i) && forall j | 0 <= j <= i :: db.accepts(batches[j].0);
    }
    if SavesTraces(db, batches) {
      var i :| 0 <= i < |batches| && StoresAt(db, batches, i) && forall j | 0 <= j <= i :: db.accepts(batches[j].0);
      assert StoresAt(db, reached, i);
    }
  }

  lemma {:induction false} StoresSomethingIff(db: Database, batches: seq<Batch>)
    ensures Inserted(db, batches) != [] <==> exists i | 0 <= i < |batches| :: StoresAt(db, batches, i)
    decreases |batches|
  {
    if batches != [] {
      var n := |batches| - 1;
      StoresSomethingIff(db, batches[..n]);
      assert forall i | 0 <= i < n :: StoresAt(db, batches[..n], i) == StoresAt(db, batches, i);
      assert StoresAt(db, batches, n) <==> Piece(batches[n].0, StoredOf(db, n, batches[n].1)) != [];
    }
  }

  /** One tenant without a list is enough: the other tenant's traces are saved again with every redelivery. */
  lemma NullBatchSavesOthersAgain()
    ensures var db := Database(_ => true, _ => true, _ => None);
            var d := Delivery(Some("traces"), "svc", Data(Throws, Value(Some([("a", Some(["span"])), ("b", None)]))));
            && Settle(db, d, Course(false, false)) == Some(NackRequeue)
            && Stored(db, d) == [("a", ["span"])]
  {
    var db := Database(_ => true, _ => true, _ => None);
    var batches: seq<Batch> := [("a", Some(["span"])), ("b", None)];
    var d := Delivery(Some("traces"), "svc", Data(Throws, Value(Some(batches))));
    var kind, service := "traces", "svc";
    assert kind[0] in kind && !Strings.IsCommonSpace(kind[0]);
    assert service[0] in service && !Strings.IsCommonSpace(service[0]);
    assert batches[1] in Batches(d);
    assert Reached(db, batches) == 2;
    assert batches[..2] == batches && batches[..1] == [("a", Some(["span"]))] && batches[..1][..0] == [];
    assert StoredOf(db, 0, batches[..1][0].1) == ["span"] && StoredOf(db, 1, batches[1].1) == [];
    assert Inserted(db, batches[..1]) == [("a", ["span"])];
  }
}
