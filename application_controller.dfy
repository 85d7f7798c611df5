/**
 * The application controller's decisions, as functions of the stored
 * internships and applications: the answer to an application, the three list
 * queries, and the answer to a status change. The state changes themselves are
 * the methods of `Store.Store`.
 */
module ApplicationController {
  import opened Wrappers
  import opened Models
  import opened Replies
  import Text
  import Seqs

  /** `internship.applyBy && new Date() > new Date(internship.applyBy)`. */
  predicate DeadlinePassed(applyBy: Option<int>, now: int)
    ensures applyBy.None? ==> !DeadlinePassed(applyBy, now)
    ensures applyBy.Some? && now <= applyBy.value ==> !DeadlinePassed(applyBy, now)
    ensures applyBy.Some? && now > applyBy.value ==> DeadlinePassed(applyBy, now)
  {
    applyBy.Some? && now > applyBy.value
  }

  /** `internship.status && internship.status.toLowerCase() !== 'open'`. */
  predicate StatusBlocks(status: string)
    ensures status == "" || Text.Lower(status) == "open" ==> !StatusBlocks(status)
    ensures Text.Lower(status) == "closed" ==> StatusBlocks(status)
    ensures status != "" && Text.Lower(status) != "open" ==> StatusBlocks(status)
  {
    status != "" && Text.Lower(status) != "open"
  }

  /** Some stored application pairs this internship with this applicant. */
  predicate HasApplied(applications: seq<Application>, internship: Id, applicant: Id) {
    exists k :: 0 <= k < |applications| && applications[k].internship == internship && applications[k].applicant == applicant
  }

  const DeadlineMessage: string := "Application deadline has passed"
  const ClosedMessage: string := "Cannot apply to a closed internship"
  const DuplicateMessage: string := "Already applied"

  /**
   * `applyToInternship`'s answer. The checks run in a fixed order and the first
   * that fails decides: a malformed id fails the lookup's cast (500), an unknown
   * internship is 404, a passed deadline is 400 even when the status is closed
   * too, a non-empty status other than "open" in any case is 400, a malformed
   * caller id fails the duplicate query's cast (500), an existing application by
   * the caller is 400; otherwise a new application is created (201). The id is
   * cast wherever it is used, and so is the caller id, so the application refers
   * to the internship and the applicant by their lower-case ids whatever case
   * the request and the token spelled them in.
   */
  function ApplyVerdict(internships: map<Id, Internship>, applications: seq<Application>,
                        id: string, caller: Id, freshId: Id, now: int): (r: Reply<Application>)
    ensures r.Success? <==>
      WellFormedId(id) && IdKey(id) in internships && !DeadlinePassed(internships[IdKey(id)].applyBy, now) &&
      !StatusBlocks(internships[IdKey(id)].status) && WellFormedId(caller) && !HasApplied(applications, IdKey(id), IdKey(caller))
    ensures r.Success? ==> r.code == 201 && r.value == NewApplication(freshId, id, caller, now)
    ensures r == Failure(404, "Internship not found") <==> WellFormedId(id) && IdKey(id) !in internships
    ensures r == Failure(400, DeadlineMessage) <==>
      WellFormedId(id) && IdKey(id) in internships && DeadlinePassed(internships[IdKey(id)].applyBy, now)
    ensures r == Failure(400, ClosedMessage) <==>
      WellFormedId(id) && IdKey(id) in internships && !DeadlinePassed(internships[IdKey(id)].applyBy, now) &&
      StatusBlocks(internships[IdKey(id)].status)
    ensures r == Failure(400, DuplicateMessage) <==>
      WellFormedId(id) && IdKey(id) in internships && !DeadlinePassed(internships[IdKey(id)].applyBy, now) &&
      !StatusBlocks(internships[IdKey(id)].status) && WellFormedId(caller) && HasApplied(applications, IdKey(id), IdKey(caller))
    ensures r == Failure(500, CastFailed) <==>
      !WellFormedId(id) ||
      (IdKey(id) in internships && !DeadlinePassed(internships[IdKey(id)].applyBy, now) &&
       !StatusBlocks(internships[IdKey(id)].status) && !WellFormedId(caller))
    ensures r.Failure? ==> r.code in {400, 404, 500}
  {
    if !WellFormedId(id) then Failure(500, CastFailed)
    else
      var key := IdKey(id);
      if key !in internships then Failure(404, "Internship not found")
      else if DeadlinePassed(internships[key].applyBy, now) then Failure(400, DeadlineMessage)
      else if StatusBlocks(internships[key].status) then Failure(400, ClosedMessage)
      else if !WellFormedId(caller) then Failure(500, CastFailed)
      else if HasApplied(applications, key, IdKey(caller)) then Failure(400, DuplicateMessage)
      else Success(201, NewApplication(freshId, id, caller, now))
  }

  /** A missing (empty) status never blocks: the answer is the one an "Open" status gets. */
  lemma {:induction false} EmptyStatusIsOpen(internships: map<Id, Internship>, applications: seq<Application>,
                                             id: Id, caller: Id, freshId: Id, now: int)
    requires IdKey(id) in internships && internships[IdKey(id)].status == ""
    ensures ApplyVerdict(internships, applications, id, caller, freshId, now) ==
            ApplyVerdict(internships[IdKey(id) := internships[IdKey(id)].(status := "Open")], applications, id, caller, freshId, now)
  {
    assert Text.Lower("Open") == "open";
  }

  /** The status test ignores case: "OPEN", "Open" and "open" all let an application through. */
  lemma OpenInAnyCase()
    ensures !StatusBlocks("Open") && !StatusBlocks("OPEN") && !StatusBlocks("open") && StatusBlocks("Closed")
  {
    assert Text.Lower("Open") == "open";
    assert Text.Lower("OPEN") == "open";
    assert Text.Lower("open") == "open";
    assert Text.Lower("Closed")[0] == 'c';
  }

  /**
   * Once an application has been created, the same caller applying again to the
   * same internship is refused: by the deadline or status checks if they now
   * fail, and otherwise with "Already applied".
   */
  lemma {:induction false} SecondApplyRefused(internships: map<Id, Internship>, applications: seq<Application>,
                                              id: string, caller: Id, freshId: Id, now: int, freshId2: Id, later: int)
    requires ApplyVerdict(internships, applications, id, caller, freshId, now).Success?
    ensures var a := ApplyVerdict(internships, applications, id, caller, freshId, now).value;
      var again := ApplyVerdict(internships, applications + [a], id, caller, freshId2, later);
      again.Failure? && again.code == 400 &&
      (!DeadlinePassed(internships[IdKey(id)].applyBy, later) ==> again.message == DuplicateMessage)
  {
    var a := ApplyVerdict(internships, applications, id, caller, freshId, now).value;
    var apps := applications + [a];
    assert apps[|applications|] == a;
    assert HasApplied(apps, IdKey(id), IdKey(caller));
  }

  // ----- list queries -----

  /**
   * The applications satisfying `p`, newest first: exactly the filtered
   * applications, as many times each as stored, ordered by `createdAt` descending.
   */
  function NewestFirst(applications: seq<Application>, p: Application -> bool): (r: seq<Application>)
    ensures Seqs.SortedDesc(r, (a: Application) => a.createdAt)
    ensures multiset(r) == multiset(Seqs.Filter(applications, p))
    ensures forall k :: 0 <= k < |r| ==> r[k] in applications && p(r[k])
    ensures forall k :: 0 <= k < |applications| && p(applications[k]) ==> applications[k] in r
  {
    var kept := Seqs.Filter(applications, p);
    var r := Seqs.SortDesc(kept, (a: Application) => a.createdAt);
    Seqs.PermutedFilterMembers(applications, p, r);
    r
  }

  /**
   * `getMyApplications`: the caller's own applications, newest first. The query
   * casts the caller id; one that is not an object id fails that cast (500).
   */
  function MyApplications(applications: seq<Application>, caller: Id): (r: Reply<seq<Application>>)
    ensures r.Failure? <==> !WellFormedId(caller)
    ensures r.Failure? ==> r.code == 500
    ensures r.Success? ==> r.code == 200 && Seqs.SortedDesc(r.value, (a: Application) => a.createdAt)
    ensures r.Success? ==> forall k :: 0 <= k < |r.value| ==> r.value[k] in applications && r.value[k].applicant == IdKey(caller)
    ensures r.Success? ==> forall k :: 0 <= k < |applications| && applications[k].applicant == IdKey(caller) ==>
      applications[k] in r.value
  {
    if !WellFormedId(caller) then Failure(500, CastFailed)
    else Success(200, NewestFirst(applications, (a: Application) => a.applicant == IdKey(caller)))
  }

  /** The ids of the internships the caller posted, found by a query that casts the caller id. */
  function PostedBy(internships: map<Id, Internship>, caller: Id): (ids: set<Id>)
    ensures forall id :: id in ids <==> id in internships && internships[id].postedBy == IdKey(caller)
  {
    set id | id in internships && internships[id].postedBy == IdKey(caller)
  }

  /**
   * `getApplicationsForEmployer`: the applications to any internship the caller
   * posted, newest first. Applications whose internship is gone are not included.
   */
  function ReceivedApplications(internships: map<Id, Internship>, applications: seq<Application>, caller: Id)
    : (r: Reply<seq<Application>>)
    ensures r.Failure? <==> !WellFormedId(caller)
    ensures r.Failure? ==> r.code == 500
    ensures r.Success? ==> r.code == 200 && Seqs.SortedDesc(r.value, (a: Application) => a.createdAt)
    ensures r.Success? ==> forall k :: 0 <= k < |r.value| ==>
      r.value[k] in applications && r.value[k].internship in internships &&
      internships[r.value[k].internship].postedBy == IdKey(caller)
    ensures r.Success? ==> forall k :: 0 <= k < |applications| &&
                                       applications[k].internship in internships &&
                                       internships[applications[k].internship].postedBy == IdKey(caller)
                                    ==> applications[k] in r.value
  {
    if !WellFormedId(caller) then Failure(500, CastFailed)
    else
      var ids := PostedBy(internships, caller);
      Success(200, NewestFirst(applications, (a: Application) => a.internship in ids))
  }

  /**
   * `getApplicationsForInternship`: a malformed id fails the lookup's cast (500),
   * an unknown internship is 404, one the caller did not post is 403; otherwise
   * exactly that internship's applications, newest first.
   */
  function InternshipApplications(internships: map<Id, Internship>, applications: seq<Application>,
                                  id: string, caller: Id): (r: Reply<seq<Application>>)
    ensures r.Success? <==> WellFormedId(id) && IdKey(id) in internships && internships[IdKey(id)].postedBy == caller
    ensures r == Failure(404, "Internship not found") <==> WellFormedId(id) && IdKey(id) !in internships
    ensures r == Failure(403, "Forbidden") <==>
      WellFormedId(id) && IdKey(id) in internships && internships[IdKey(id)].postedBy != caller
    ensures r == Failure(500, CastFailed) <==> !WellFormedId(id)
    ensures r.Failure? ==> r.code in {403, 404, 500}
    ensures r.Success? ==> r.code == 200 && Seqs.SortedDesc(r.value, (a: Application) => a.createdAt)
    ensures r.Success? ==> forall k :: 0 <= k < |r.value| ==> r.value[k] in applications && r.value[k].internship == IdKey(id)
    ensures r.Success? ==> forall k :: 0 <= k < |applications| && applications[k].internship == IdKey(id) ==>
      applications[k] in r.value
  {
    if !WellFormedId(id) then Failure(500, CastFailed)
    else
      var key := IdKey(id);
      if key !in internships then Failure(404, "Internship not found")
      else if internships[key].postedBy != caller then Failure(403, "Forbidden")
      else Success(200, NewestFirst(applications, (a: Application) => a.internship == key))
  }

  /**
   * An employer's received list holds the list of each internship they posted:
   * whatever one internship's list shows, the received list shows too. The owner
   * check compares the stored owner with the caller's id as text while the
   * received list casts the caller id, so this holds for an owner stored in lower
   * case, as the store keeps every owner.
   */
  lemma {:induction false} ReceivedCoversEachInternship(internships: map<Id, Internship>, applications: seq<Application>,
                                                        id: string, caller: Id)
    requires InternshipApplications(internships, applications, id, caller).Success?
    requires StoredId(internships[IdKey(id)].postedBy)
    ensures var one := InternshipApplications(internships, applications, id, caller).value;
      var all := ReceivedApplications(internships, applications, caller).value;
      forall k :: 0 <= k < |one| ==> one[k] in all
  {
    var one := InternshipApplications(internships, applications, id, caller).value;
    var all := ReceivedApplications(internships, applications, caller).value;
    forall k | 0 <= k < |one| ensures one[k] in all {
      var j :| 0 <= j < |applications| && applications[j] == one[k];
    }
  }

  // ----- status change -----

  /** The error text when the populated internship is null and its owner is read. */
  const NullInternshipMessage: string := "Cannot read properties of null (reading 'postedBy')"

  /** `findById` on the applications: the first position holding that id, if any. */
  function IndexOfApp(applications: seq<Application>, id: string): (r: Option<nat>)
    ensures r.Some? ==> r.value < |applications| && applications[r.value].id == id
    ensures r.Some? ==> forall k :: 0 <= k < r.value ==> applications[k].id != id
    ensures r.None? <==> forall k :: 0 <= k < |applications| ==> applications[k].id != id
    decreases |applications|
  {
    if applications == [] then None
    else if applications[0].id == id then Some(0)
    else match IndexOfApp(applications[1..], id)
      case None => None
      case Some(k) => Some(k + 1)
  }

  /**
   * `updateApplicationStatus`'s answer: a malformed id fails the cast (500), an
   * unknown application is 404, one whose internship is gone fails on the null
   * internship (500), one whose internship the caller did not post is 403, and a
   * status outside the enum fails validation on save (500). Otherwise the status
   * is set, the message replaced only when one was sent, and nothing else changes.
   * A body without a status (`status` is None) clears the stored status, which the
   * enum validator lets through and which the re-read reply, like every later
   * read, serves as the default; a message sent as null is stored as no message.
   * The application is looked up by its stored id, whatever case the request used.
   */
  function StatusVerdict(internships: map<Id, Internship>, applications: seq<Application>,
                         appId: string, caller: Id, status: Option<string>, message: BodyText): (r: Reply<Application>)
    ensures r.Success? <==>
      WellFormedId(appId) && IndexOfApp(applications, IdKey(appId)).Some? &&
      applications[IndexOfApp(applications, IdKey(appId)).value].internship in internships &&
      internships[applications[IndexOfApp(applications, IdKey(appId)).value].internship].postedBy == caller &&
      (status.None? || ParseStatus(status.value).Some?)
    ensures r == Failure(404, "Application not found") <==>
      WellFormedId(appId) && IndexOfApp(applications, IdKey(appId)).None?
    ensures r == Failure(403, "Forbidden") <==>
      WellFormedId(appId) && IndexOfApp(applications, IdKey(appId)).Some? &&
      applications[IndexOfApp(applications, IdKey(appId)).value].internship in internships &&
      internships[applications[IndexOfApp(applications, IdKey(appId)).value].internship].postedBy != caller
    ensures r == Failure(500, CastFailed) <==> !WellFormedId(appId)
    ensures r == Failure(500, NullInternshipMessage) <==>
      WellFormedId(appId) && IndexOfApp(applications, IdKey(appId)).Some? &&
      applications[IndexOfApp(applications, IdKey(appId)).value].internship !in internships
    ensures r == Failure(500, "Application " + ValidationFailed) <==>
      WellFormedId(appId) && IndexOfApp(applications, IdKey(appId)).Some? &&
      applications[IndexOfApp(applications, IdKey(appId)).value].internship in internships &&
      internships[applications[IndexOfApp(applications, IdKey(appId)).value].internship].postedBy == caller &&
      status.Some? && ParseStatus(status.value).None?
    ensures r.Failure? ==> r.code in {403, 404, 500}
    ensures r.Success? ==> r.code == 200
    ensures r.Success? ==>
      (var before := applications[IndexOfApp(applications, IdKey(appId)).value];
       r.value.id == before.id && r.value.internship == before.internship && r.value.applicant == before.applicant &&
       r.value.createdAt == before.createdAt &&
       (if status.Some? then StatusName(r.value.status) == status.value else r.value.status == Unset) &&
       r.value.message == Updated(message, before.message))
  {
    if !WellFormedId(appId) then Failure(500, CastFailed)
    else match IndexOfApp(applications, IdKey(appId))
      case None => Failure(404, "Application not found")
      case Some(k) =>
        var a := applications[k];
        if a.internship !in internships then Failure(500, NullInternshipMessage)
        else if internships[a.internship].postedBy != caller then Failure(403, "Forbidden")
        else if status.None? then Success(200, a.(status := Unset, message := Updated(message, a.message)))
        else match ParseStatus(status.value)
          case None => Failure(500, "Application " + ValidationFailed)
          case Some(s) => Success(200, a.(status := s, message := Updated(message, a.message)))
  }

  /** The stored message after an update: kept when the field is left out, cleared by null, replaced by a text. */
  function Updated(message: BodyText, stored: Option<string>): (r: Option<string>)
    ensures message.Omitted? ==> r == stored
    ensures message.Null? ==> r.None?
    ensures message.Given? ==> r == Some(message.text)
  {
    match message
    case Omitted => stored
    case Null => None
    case Given(t) => Some(t)
  }

  /** Deleting an internship leaves its applications unchangeable: a status change on one is a 500, not 403/404. */
  lemma OrphanUpdateFails(internships: map<Id, Internship>, applications: seq<Application>,
                          appId: string, caller: Id, status: Option<string>, message: BodyText)
    requires WellFormedId(appId) && IndexOfApp(applications, IdKey(appId)).Some?
    requires applications[IndexOfApp(applications, IdKey(appId)).value].internship !in internships
    ensures StatusVerdict(internships, applications, appId, caller, status, message).Failure?
    ensures StatusVerdict(internships, applications, appId, caller, status, message).code == 500
  {
  }
}
