/**
 * The document store behind the two controllers, as one object: the internship
 * collection keyed by id (with its insertion order, which `find()` returns) and
 * the application collection. Each controller that writes becomes a method;
 * each method answers what the controller's decision function says and changes
 * the collections accordingly, and every method keeps the store's invariant,
 * which includes that no internship/applicant pair is ever stored twice.
 * Fresh ids and the current time are supplied by the caller.
 */
module Store {
  import opened Wrappers
  import opened Models
  import opened Replies
  import opened InternshipController
  import opened ApplicationController

  /** No two applications share an id. */
  predicate AppIdsUnique(applications: seq<Application>) {
    forall i, j :: 0 <= i < j < |applications| ==> applications[i].id != applications[j].id
  }

  /** Every application id is in the store's lower-case form, so a lookup by `IdKey` can find it. */
  predicate AppIdsStored(applications: seq<Application>) {
    forall k :: 0 <= k < |applications| ==> StoredId(applications[k].id)
  }

  /** No internship/applicant pair occurs in two applications. */
  predicate NoDuplicatePair(applications: seq<Application>) {
    forall i, j :: 0 <= i < j < |applications| ==>
      applications[i].internship != applications[j].internship || applications[i].applicant != applications[j].applicant
  }

  /**
   * Every stored internship passes its schema: an object id in the store's
   * lower-case form for itself, an object id for its owner, a title and a company.
   */
  predicate SchemaValid(internships: map<Id, Internship>) {
    forall id :: id in internships ==>
      StoredId(id) && StoredId(internships[id].postedBy) &&
      internships[id].title != "" && internships[id].company != ""
  }

  lemma SchemaInsert(internships: map<Id, Internship>, id: Id, item: Internship)
    requires SchemaValid(internships) && StoredId(id)
    requires StoredId(item.postedBy) && item.title != "" && item.company != ""
    ensures SchemaValid(internships[id := item])
  {
  }

  lemma SchemaRemove(internships: map<Id, Internship>, id: Id)
    requires SchemaValid(internships)
    ensures SchemaValid(internships - {id})
  {
  }

  /** Adding a new internship under a fresh id, at the end of the order, keeps the two in step. */
  lemma IndexedInsert(internships: map<Id, Internship>, order: seq<Id>, id: Id, item: Internship)
    requires Indexed(internships, order) && id !in internships && item.id == id
    ensures Indexed(internships[id := item], order + [id])
  {
    assert id !in order;
  }

  /** Replacing a stored internship by one with the same id leaves the order in step. */
  lemma IndexedReplace(internships: map<Id, Internship>, order: seq<Id>, id: Id, item: Internship)
    requires Indexed(internships, order) && id in internships && item.id == id
    ensures Indexed(internships[id := item], order)
  {
  }

  /** Removing one internship from the collection and from the order keeps the two in step. */
  lemma IndexedRemove(internships: map<Id, Internship>, order: seq<Id>, id: Id)
    requires Indexed(internships, order)
    ensures Indexed(internships - {id}, RemoveId(order, id))
  {
    var r := RemoveId(order, id);
    var m := internships - {id};
    forall x | x in m ensures x in r {
      assert x in order && x != id;
    }
    forall k | 0 <= k < |r| ensures r[k] in m {
      assert r[k] in order && r[k] != id;
    }
  }

  /** Changing an application in place, keeping its id and its pair, keeps both uniqueness rules. */
  lemma ReplaceApp(applications: seq<Application>, k: nat, app: Application)
    requires AppIdsStored(applications) && AppIdsUnique(applications) && NoDuplicatePair(applications)
    requires k < |applications| && app.id == applications[k].id
    requires app.internship == applications[k].internship && app.applicant == applications[k].applicant
    ensures AppIdsStored(applications[k := app])
    ensures AppIdsUnique(applications[k := app]) && NoDuplicatePair(applications[k := app])
  {
  }

  /**
   * With unique ids, replacing the application found under an id changes that
   * application and no other: every position holding another id keeps its entry.
   */
  lemma ReplaceAtFoundId(applications: seq<Application>, key: Id, app: Application)
    requires AppIdsUnique(applications) && IndexOfApp(applications, key).Some?
    ensures var r := applications[IndexOfApp(applications, key).value := app];
      |r| == |applications| &&
      forall k :: 0 <= k < |r| ==> r[k] == (if applications[k].id == key then app else applications[k])
  {
  }

  /** `order` without `x`, the rest in order. */
  function RemoveId(s: seq<Id>, x: Id): (r: seq<Id>)
    ensures forall y :: y in r <==> y in s && y != x
    ensures (forall i, j :: 0 <= i < j < |s| ==> s[i] != s[j]) ==> (forall i, j :: 0 <= i < j < |r| ==> r[i] != r[j])
    ensures |r| <= |s|
    decreases |s|
  {
    if s == [] then []
    else if s[0] == x then RemoveId(s[1..], x)
    else
      var rest := RemoveId(s[1..], x);
      assert s[0] !in rest ==> forall j :: 0 <= j < |rest| ==> rest[j] != s[0];
      [s[0]] + rest
  }

  class Store {
    var internships: map<Id, Internship>
    var order: seq<Id>
    var applications: seq<Application>

    predicate Valid()
      reads this
    {
      Indexed(internships, order) && SchemaValid(internships) &&
      AppIdsStored(applications) && AppIdsUnique(applications) && NoDuplicatePair(applications)
    }

    constructor()
      ensures Valid()
      ensures internships == map[] && order == [] && applications == []
    {
      internships := map[];
      order := [];
      applications := [];
    }

    /** `createInternship`: on success the new record is stored under the fresh id, at the end of the order. */
    method CreateInternship(caller: Id, body: InternshipBody, freshId: Id, now: int) returns (reply: Reply<Internship>)
      requires Valid()
      requires StoredId(freshId) && freshId !in internships
      modifies this
      ensures Valid()
      ensures reply == CreateVerdict(freshId, caller, body, now)
      ensures reply.Success? ==> internships == old(internships)[freshId := reply.value] && order == old(order) + [freshId]
      ensures reply.Failure? ==> internships == old(internships) && order == old(order)
      ensures applications == old(applications)
    {
      var data := body.(postedBy := Some(caller));
      var created := NewInternship(freshId, data, now);
      if created.None? {
        return Failure(500, "Internship " + ValidationFailed);
      }
      SchemaInsert(internships, freshId, created.value);
      IndexedInsert(internships, order, freshId, created.value);
      internships := internships[freshId := created.value];
      order := order + [freshId];
      reply := Success(201, created.value);
    }

    /**
     * `deleteInternship`: on success exactly that internship leaves the
     * collection; the applications to it stay where they are.
     */
    method DeleteInternship(id: string, caller: Id) returns (reply: Reply<string>)
      requires Valid()
      modifies this
      ensures Valid()
      ensures reply == DeleteVerdict(old(internships), id, caller)
      ensures reply.Success? ==> internships == old(internships) - {IdKey(id)} && order == RemoveId(old(order), IdKey(id))
      ensures reply.Failure? ==> internships == old(internships) && order == old(order)
      ensures applications == old(applications)
    {
      var check := OwnerCheck(internships, id, caller);
      if check.Some? {
        return Failure(check.value.code, check.value.message);
      }
      var key := IdKey(id);
      SchemaRemove(internships, key);
      IndexedRemove(internships, order, key);
      internships := internships - {key};
      order := RemoveId(order, key);
      reply := Success(200, "Deleted");
    }

    /**
     * `updateInternship`: after the ownership checks, each allow-listed field the
     * body defines is copied onto the record in turn, and the record is saved
     * unless the schema refuses it.
     */
    method UpdateInternship(id: string, caller: Id, body: InternshipBody) returns (reply: Reply<Internship>)
      requires Valid()
      modifies this
      ensures Valid()
      ensures reply == UpdateVerdict(old(internships), id, caller, body)
      ensures reply.Success? ==> internships == old(internships)[IdKey(id) := reply.value]
      ensures reply.Failure? ==> internships == old(internships)
      ensures order == old(order) && applications == old(applications)
    {
      var check := OwnerCheck(internships, id, caller);
      if check.Some? {
        return check.value;
      }
      var key := IdKey(id);
      var original := internships[key];
      var item := original;
      for i := 0 to |AllowList|
        modifies {}
        invariant item == CopyFields(original, body, AllowList[..i])
      {
        var _ := CopyStep(original, body, AllowList, i);
        item := SetField(item, AllowList[i], body);
      }
      CopyAllowListIsPatched(original, body);
      assert AllowList[..|AllowList|] == AllowList;
      if item.title == "" || item.company == "" {
        return Failure(500, "Server error");
      }
      SchemaInsert(internships, key, item);
      IndexedReplace(internships, order, key, item);
      internships := internships[key := item];
      reply := Success(200, item);
    }

    /**
     * `applyToInternship`: the checks in their order; on success exactly one
     * application, for this internship and this caller, is added at the end.
     */
    method Apply(id: string, caller: Id, freshId: Id, now: int) returns (reply: Reply<Application>)
      requires Valid()
      requires StoredId(freshId) && forall k :: 0 <= k < |applications| ==> applications[k].id != freshId
      modifies this
      ensures Valid()
      ensures reply == ApplyVerdict(old(internships), old(applications), id, caller, freshId, now)
      ensures reply.Success? ==> applications == old(applications) + [reply.value]
      ensures reply.Failure? ==> applications == old(applications)
      ensures internships == old(internships) && order == old(order)
    {
      if !WellFormedId(id) {
        return Failure(500, CastFailed);
      }
      var key := IdKey(id);
      if key !in internships {
        return Failure(404, "Internship not found");
      }
      var internship := internships[key];
      if DeadlinePassed(internship.applyBy, now) {
        return Failure(400, DeadlineMessage);
      }
      if StatusBlocks(internship.status) {
        return Failure(400, ClosedMessage);
      }
      if !WellFormedId(caller) {
        return Failure(500, CastFailed);
      }
      if HasApplied(applications, key, IdKey(caller)) {
        return Failure(400, DuplicateMessage);
      }
      var app := NewApplication(freshId, id, caller, now);
      applications := applications + [app];
      reply := Success(201, app);
    }

    /**
     * `updateApplicationStatus`: on success the application found under the id
     * is replaced by the reply's value, which differs from it only in its status
     * and message; by `ReplaceAtFoundId` no application with another id changes.
     */
    method UpdateStatus(appId: string, caller: Id, status: Option<string>, message: BodyText) returns (reply: Reply<Application>)
      requires Valid()
      modifies this
      ensures Valid()
      ensures reply == StatusVerdict(old(internships), old(applications), appId, caller, status, message)
      ensures |applications| == |old(applications)|
      ensures reply.Failure? ==> applications == old(applications)
      ensures reply.Success? ==>
        IndexOfApp(old(applications), IdKey(appId)).Some? &&
        applications == old(applications)[IndexOfApp(old(applications), IdKey(appId)).value := reply.value]
      ensures internships == old(internships) && order == old(order)
    {
      if !WellFormedId(appId) {
        return Failure(500, CastFailed);
      }
      var found := IndexOfApp(applications, IdKey(appId));
      if found.None? {
        return Failure(404, "Application not found");
      }
      var k := found.value;
      var app := applications[k];
      if app.internship !in internships {
        return Failure(500, "Cannot read properties of null (reading 'postedBy')");
      }
      if internships[app.internship].postedBy != caller {
        return Failure(403, "Forbidden");
      }
      var stored := if status.None? then Some(Unset) else ParseStatus(status.value);
      if stored.None? {
        return Failure(500, "Application " + ValidationFailed);
      }
      app := app.(status := stored.value, message := Updated(message, app.message));
      ReplaceApp(applications, k, app);
      applications := applications[k := app];
      reply := Success(200, app);
    }
  }
}
