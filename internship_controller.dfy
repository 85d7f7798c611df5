/**
 * The internship controller's decisions, as functions of the stored
 * internships: creating (`postedBy` is forced to the caller), reading one,
 * listing all or the caller's own, and which answer a delete or an edit gets.
 * The state changes themselves are the methods of `Store.Store`.
 */
module InternshipController {
  import opened Wrappers
  import opened Models
  import opened Replies
  import Seqs
  import Text

  /**
   * `find()` reads the collection in insertion order: `order` lists the keys of
   * `internships`, each once, and every record is stored under its own id.
   */
  predicate Indexed(internships: map<Id, Internship>, order: seq<Id>) {
    (forall i, j :: 0 <= i < j < |order| ==> order[i] != order[j]) &&
    (forall id :: id in internships ==> id in order) &&
    (forall k :: 0 <= k < |order| ==> order[k] in internships) &&
    (forall id :: id in internships ==> internships[id].id == id)
  }

  /** `getInternships`: every stored internship, each exactly once, nothing filtered out. */
  function ListInternships(internships: map<Id, Internship>, order: seq<Id>): (r: seq<Internship>)
    requires Indexed(internships, order)
    ensures forall id :: id in internships ==> internships[id] in r
    ensures forall k :: 0 <= k < |r| ==> r[k].id in internships && internships[r[k].id] == r[k]
    ensures forall i, j :: 0 <= i < j < |r| ==> r[i].id != r[j].id
  {
    var r := seq(|order|, k requires 0 <= k < |order| => internships[order[k]]);
    assert forall id :: id in internships ==> internships[id] in r by {
      forall id | id in internships ensures internships[id] in r {
        var k :| 0 <= k < |order| && order[k] == id;
        assert r[k] == internships[id];
      }
    }
    r
  }

  /**
   * The `/my/list` route: the stored internships whose `postedBy` is the caller,
   * for a caller of any role. The query casts the caller id, so it matches the
   * owner stored in lower case; a caller id that is not an object id fails that
   * cast and ends in the 500 branch.
   */
  function MyInternships(internships: map<Id, Internship>, order: seq<Id>, caller: Id): (r: Reply<seq<Internship>>)
    requires Indexed(internships, order)
    ensures r.Failure? <==> !WellFormedId(caller)
    ensures r.Failure? ==> r.code == 500
    ensures r.Success? ==> r.code == 200
    ensures r.Success? ==> forall id :: id in internships && internships[id].postedBy == IdKey(caller) ==> internships[id] in r.value
    ensures r.Success? ==> forall k :: 0 <= k < |r.value| ==>
      r.value[k].postedBy == IdKey(caller) && r.value[k].id in internships && internships[r.value[k].id] == r.value[k]
  {
    if !WellFormedId(caller) then Failure(500, CastFailed)
    else
      var all := ListInternships(internships, order);
      var mine := Seqs.Filter(all, (x: Internship) => x.postedBy == IdKey(caller));
      assert forall id :: id in internships && internships[id].postedBy == IdKey(caller) ==> internships[id] in mine by {
        forall id | id in internships && internships[id].postedBy == IdKey(caller) ensures internships[id] in mine {
          var k :| 0 <= k < |all| && all[k] == internships[id];
        }
      }
      Success(200, mine)
  }

  /**
   * `createInternship`: the body is spread first and `postedBy` written after it,
   * so the stored owner is always the caller, cast to its lower-case form. A body
   * failing the schema (missing title or company, or an owner that is not an
   * object id) is answered 500.
   */
  function CreateVerdict(id: Id, caller: Id, body: InternshipBody, now: int): (r: Reply<Internship>)
    ensures r.Success? ==> r.code == 201 && r.value.postedBy == IdKey(caller) && r.value.id == id
    ensures r.Failure? ==> r.code == 500
    ensures r.Success? <==> Present(body.title) && Present(body.company) && WellFormedId(caller)
    ensures r.Success? ==> r.value == NewInternship(id, body.(postedBy := Some(caller)), now).value
  {
    match NewInternship(id, body.(postedBy := Some(caller)), now)
    case Some(item) => Success(201, item)
    case None => Failure(500, "Internship " + ValidationFailed)
  }

  /** Whatever owner the body names, the created internship's owner is the caller. */
  lemma CreateIgnoresBodyOwner(id: Id, caller: Id, body: InternshipBody, claimed: Option<Id>, now: int)
    ensures CreateVerdict(id, caller, body.(postedBy := claimed), now) == CreateVerdict(id, caller, body, now)
  {
    assert body.(postedBy := claimed).(postedBy := Some(caller)) == body.(postedBy := Some(caller));
  }

  /**
   * The owner checks compare the stored owner with the caller's id as text, with
   * no cast: the creator of an internship passes them exactly when its id is
   * already in lower case.
   */
  lemma CreatorOwnsOnlyInLowerCase(internships: map<Id, Internship>, id: Id, caller: Id,
                                   body: InternshipBody, now: int)
    requires StoredId(id) && CreateVerdict(id, caller, body, now).Success?
    ensures var stored := internships[id := CreateVerdict(id, caller, body, now).value];
      OwnerCheck(stored, id, caller).None? <==> IdKey(caller) == caller
  {
  }

  /**
   * `getInternship`: a malformed id is answered 400 before any lookup, an unknown
   * one 404, and a stored one with its record. The lookup casts the id, so the
   * case of its hex digits does not matter.
   */
  function GetVerdict(internships: map<Id, Internship>, id: string): (r: Reply<Internship>)
    ensures r.Failure? && r.code == 400 <==> !WellFormedId(id)
    ensures r.Failure? && r.code == 404 <==> WellFormedId(id) && IdKey(id) !in internships
    ensures r.Success? <==> WellFormedId(id) && IdKey(id) in internships
    ensures r.Success? ==> r.code == 200 && r.value == internships[IdKey(id)]
    ensures r.Failure? ==> r.code == 400 || r.code == 404
  {
    if !WellFormedId(id) then Failure(400, "Invalid internship id")
    else if IdKey(id) !in internships then Failure(404, "Not found")
    else Success(200, internships[IdKey(id)])
  }

  /** An id spelled with upper-case hex digits is answered as its lower-case spelling is. */
  lemma {:induction false} GetIgnoresIdCase(internships: map<Id, Internship>, id: string)
    ensures GetVerdict(internships, id) == GetVerdict(internships, IdKey(id))
  {
    IdKeyOfKey(id);
  }

  /**
   * The checks `deleteInternship` and `updateInternship` share, in their order:
   * 400 for a malformed id, 404 for an unknown one, 403 unless the caller posted it.
   * `None` means every check passed.
   */
  function OwnerCheck(internships: map<Id, Internship>, id: string, caller: Id): (r: Option<Reply<Internship>>)
    ensures r.None? <==> WellFormedId(id) && IdKey(id) in internships && internships[IdKey(id)].postedBy == caller
    ensures r.Some? ==> r.value.Failure?
    ensures r.Some? && r.value.code == 400 <==> !WellFormedId(id)
    ensures r.Some? && r.value.code == 404 <==> WellFormedId(id) && IdKey(id) !in internships
    ensures r.Some? && r.value.code == 403 <==>
      WellFormedId(id) && IdKey(id) in internships && internships[IdKey(id)].postedBy != caller
  {
    if !WellFormedId(id) then Some(Failure(400, "Invalid internship id"))
    else if IdKey(id) !in internships then Some(Failure(404, "Not found"))
    else if internships[IdKey(id)].postedBy != caller then Some(Failure(403, "Forbidden"))
    else None
  }

  /** `deleteInternship`'s answer: the shared checks, then 200 "Deleted". */
  function DeleteVerdict(internships: map<Id, Internship>, id: string, caller: Id): (r: Reply<string>)
    ensures r.Success? <==> WellFormedId(id) && IdKey(id) in internships && internships[IdKey(id)].postedBy == caller
    ensures r.Success? ==> r.code == 200 && r.value == "Deleted"
    ensures r == Failure(400, "Invalid internship id") <==> !WellFormedId(id)
    ensures r == Failure(404, "Not found") <==> WellFormedId(id) && IdKey(id) !in internships
    ensures r == Failure(403, "Forbidden") <==>
      WellFormedId(id) && IdKey(id) in internships && internships[IdKey(id)].postedBy != caller
  {
    match OwnerCheck(internships, id, caller)
    case Some(f) => Failure(f.code, f.message)
    case None => Success(200, "Deleted")
  }

  // ----- the edit allow-list -----

  /** The eleven fields an edit may change; `applyBy`, `postedBy` and the timestamps are not among them. */
  datatype Field = Title | Company | Location | Category | Mode | Duration
                 | MinSalary | MaxSalary | Description | Requirements | Status

  const AllowList: seq<Field> :=
    [Title, Company, Location, Category, Mode, Duration, MinSalary, MaxSalary, Description, Requirements, Status]

  /** One step of the `forEach`: copy field `f` from the body when the body defines it. */
  function SetField(item: Internship, f: Field, body: InternshipBody): Internship {
    match f
    case Title => item.(title := body.title.GetOr(item.title))
    case Company => item.(company := body.company.GetOr(item.company))
    case Location => item.(location := body.location.Or(item.location))
    case Category => item.(category := body.category.Or(item.category))
    case Mode => item.(mode := body.mode.Or(item.mode))
    case Duration => item.(duration := body.duration.Or(item.duration))
    case MinSalary => item.(minSalary := body.minSalary.Or(item.minSalary))
    case MaxSalary => item.(maxSalary := body.maxSalary.Or(item.maxSalary))
    case Description => item.(description := body.description.Or(item.description))
    case Requirements => item.(requirements := body.requirements.GetOr(item.requirements))
    case Status => item.(status := body.status.GetOr(item.status))
  }

  /**
   * The `forEach` over the first fields of a list, in order. No field copy ever
   * touches the id, the owner, the deadline or the creation time.
   */
  function CopyFields(item: Internship, body: InternshipBody, fs: seq<Field>): (r: Internship)
    ensures r.id == item.id && r.postedBy == item.postedBy
    ensures r.applyBy == item.applyBy && r.createdAt == item.createdAt
    decreases |fs|
  {
    if fs == [] then item
    else SetField(CopyFields(item, body, fs[..|fs| - 1]), fs[|fs| - 1], body)
  }

  /**
   * The record an edit produces, field by field: each allow-listed field the body
   * defines takes the body's value, every other field keeps its old value.
   */
  function Patched(item: Internship, body: InternshipBody): (r: Internship)
    ensures r.id == item.id && r.postedBy == item.postedBy
    ensures r.applyBy == item.applyBy && r.createdAt == item.createdAt
    ensures r.title == (if body.title.Some? then body.title.value else item.title)
    ensures r.company == (if body.company.Some? then body.company.value else item.company)
    ensures r.status == (if body.status.Some? then body.status.value else item.status)
    ensures r.requirements == (if body.requirements.Some? then body.requirements.value else item.requirements)
    ensures r.location == (if body.location.Some? then body.location else item.location)
    ensures r.category == (if body.category.Some? then body.category else item.category)
    ensures r.mode == (if body.mode.Some? then body.mode else item.mode)
    ensures r.duration == (if body.duration.Some? then body.duration else item.duration)
    ensures r.minSalary == (if body.minSalary.Some? then body.minSalary else item.minSalary)
    ensures r.maxSalary == (if body.maxSalary.Some? then body.maxSalary else item.maxSalary)
    ensures r.description == (if body.description.Some? then body.description else item.description)
  {
    item.(
      title := body.title.GetOr(item.title),
      company := body.company.GetOr(item.company),
      location := body.location.Or(item.location),
      category := body.category.Or(item.category),
      mode := body.mode.Or(item.mode),
      duration := body.duration.Or(item.duration),
      minSalary := body.minSalary.Or(item.minSalary),
      maxSalary := body.maxSalary.Or(item.maxSalary),
      description := body.description.Or(item.description),
      requirements := body.requirements.GetOr(item.requirements),
      status := body.status.GetOr(item.status))
  }

  /** The `forEach` over the whole allow-list yields the field-by-field description. */
  lemma {:induction false} CopyAllowListIsPatched(item: Internship, body: InternshipBody)
    ensures CopyFields(item, body, AllowList) == Patched(item, body)
  {
    var fs := AllowList;
    var c0 := CopyFields(item, body, fs[..0]);
    assert c0 == item;
    var c1 := CopyStep(item, body, fs, 0);
    var c2 := CopyStep(item, body, fs, 1);
    var c3 := CopyStep(item, body, fs, 2);
    var c4 := CopyStep(item, body, fs, 3);
    var c5 := CopyStep(item, body, fs, 4);
    var c6 := CopyStep(item, body, fs, 5);
    var c7 := CopyStep(item, body, fs, 6);
    var c8 := CopyStep(item, body, fs, 7);
    var c9 := CopyStep(item, body, fs, 8);
    var c10 := CopyStep(item, body, fs, 9);
    var c11 := CopyStep(item, body, fs, 10);
    assert fs[..11] == fs;
  }

  /** One more field of the list copied: returns the record after field `k`. */
  lemma CopyStep(item: Internship, body: InternshipBody, fs: seq<Field>, k: nat) returns (c: Internship)
    requires k < |fs|
    ensures c == CopyFields(item, body, fs[..k + 1])
    ensures c == SetField(CopyFields(item, body, fs[..k]), fs[k], body)
  {
    assert fs[..k + 1][..k] == fs[..k];
    c := CopyFields(item, body, fs[..k + 1]);
  }

  /** Sending the same edit twice gives the record that sending it once gives. */
  lemma PatchedIdempotent(item: Internship, body: InternshipBody)
    ensures Patched(Patched(item, body), body) == Patched(item, body)
  {
  }

  /** An edit body that defines none of the allow-listed fields leaves the record as it was. */
  lemma EmptyEditKeepsRecord(item: Internship, body: InternshipBody)
    requires body.title.None? && body.company.None? && body.location.None? && body.category.None?
    requires body.mode.None? && body.duration.None? && body.minSalary.None? && body.maxSalary.None?
    requires body.description.None? && body.requirements.None? && body.status.None?
    ensures Patched(item, body) == item
  {
  }

  /** A deadline in the edit body is ignored, whatever it says. */
  lemma PatchedIgnoresDeadline(item: Internship, body: InternshipBody, deadline: Option<int>)
    ensures Patched(item, body.(applyBy := deadline)) == Patched(item, body)
  {
  }

  /**
   * `updateInternship`'s answer: the shared checks, then the patched record,
   * which the save refuses (answered 500 "Server error") when it left the title
   * or the company empty.
   */
  function UpdateVerdict(internships: map<Id, Internship>, id: string, caller: Id, body: InternshipBody): (r: Reply<Internship>)
    ensures r.Success? <==>
      WellFormedId(id) && IdKey(id) in internships && internships[IdKey(id)].postedBy == caller &&
      Present(Some(Patched(internships[IdKey(id)], body).title)) && Present(Some(Patched(internships[IdKey(id)], body).company))
    ensures r.Success? ==> r.code == 200 && r.value == Patched(internships[IdKey(id)], body)
    ensures r == Failure(400, "Invalid internship id") <==> !WellFormedId(id)
    ensures r == Failure(404, "Not found") <==> WellFormedId(id) && IdKey(id) !in internships
    ensures r == Failure(403, "Forbidden") <==>
      WellFormedId(id) && IdKey(id) in internships && internships[IdKey(id)].postedBy != caller
    ensures r == Failure(500, "Server error") <==>
      WellFormedId(id) && IdKey(id) in internships && internships[IdKey(id)].postedBy == caller &&
      (Patched(internships[IdKey(id)], body).title == "" || Patched(internships[IdKey(id)], body).company == "")
  {
    match OwnerCheck(internships, id, caller)
    case Some(f) => f
    case None =>
      var item := Patched(internships[IdKey(id)], body);
      if item.title == "" || item.company == "" then Failure(500, "Server error")
      else Success(200, item)
  }
}
