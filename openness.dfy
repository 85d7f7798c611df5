/**
 * The four places that decide whether an internship is still open, side by
 * side: the server's apply checks, the search page's closed test, the
 * Open/Closed label of the employer pages, and the details page's Apply
 * button. Where they agree, and inputs on which they part.
 */
module Openness {
  import opened Wrappers
  import opened Models
  import opened Replies
  import Text
  import ApplicationController
  import FindInternship
  import ManageInternships
  import InternshipDetails

  /**
   * The search page marks a listing closed exactly when the server would refuse
   * an application to it for its deadline or its status.
   */
  lemma {:induction false} SearchPageMatchesServer(internships: map<Id, Internship>, applications: seq<Application>,
                                                   id: Id, caller: Id, freshId: Id, now: int)
    requires WellFormedId(id) && IdKey(id) in internships
    ensures var r := ApplicationController.ApplyVerdict(internships, applications, id, caller, freshId, now);
      (r == Failure(400, ApplicationController.DeadlineMessage) || r == Failure(400, ApplicationController.ClosedMessage))
      <==> FindInternship.IsClosed(internships[IdKey(id)], now)
  {
    var r := ApplicationController.ApplyVerdict(internships, applications, id, caller, freshId, now);
    assert ApplicationController.DeadlineMessage != ApplicationController.ClosedMessage;
    assert ApplicationController.DeadlineMessage != ApplicationController.DuplicateMessage;
    assert ApplicationController.ClosedMessage != ApplicationController.DuplicateMessage;
  }

  /**
   * A label of "Closed" on the employer pages always means closed for the search
   * page; the converse holds for a missing status and for "open" or "closed" in
   * any case.
   */
  lemma LabelAgreesOnKnownStatuses(job: Internship, now: int)
    ensures ManageInternships.DeriveStatus(job, now) == "Closed" ==> FindInternship.IsClosed(job, now)
    ensures job.status == "" || Text.Lower(job.status) == "open" || Text.Lower(job.status) == "closed" ==>
      (ManageInternships.DeriveStatus(job, now) == "Closed" <==> FindInternship.IsClosed(job, now))
  {
    assert "closed" != "open";
  }

  function Listing(status: string, applyBy: Option<int>): Internship {
    Internship("listing", "Intern", "Acme", None, applyBy, None, None, None, None, None, status, None, [], "owner", 0)
  }

  /**
   * A status such as "Paused" reads "Open" on the employer pages, yet the search
   * page shows the listing closed, the details page disables its button, and the
   * server refuses applications to it.
   */
  lemma {:induction false} PausedIsOpenOnlyForEmployers(internships: map<Id, Internship>, applications: seq<Application>,
                                                        id: Id, caller: Id, freshId: Id, now: int)
    requires WellFormedId(id) && IdKey(id) in internships && internships[IdKey(id)] == Listing("Paused", None)
    ensures ManageInternships.DeriveStatus(internships[IdKey(id)], now) == "Open"
    ensures FindInternship.IsClosed(internships[IdKey(id)], now)
    ensures !InternshipDetails.ApplyEnabled(false, internships[IdKey(id)].status)
    ensures ApplicationController.ApplyVerdict(internships, applications, id, caller, freshId, now) ==
      Failure(400, ApplicationController.ClosedMessage)
  {
    var s := Text.Lower("Paused");
    assert s[0] == 'p';
    assert s != "closed" && s != "open";
  }

  /**
   * The details page does not look at the deadline: an "Open" listing whose
   * deadline has passed has its Apply button enabled, and the server refuses.
   */
  lemma {:induction false} DetailsIgnoreDeadline(internships: map<Id, Internship>, applications: seq<Application>,
                                                 id: Id, caller: Id, freshId: Id, now: int)
    requires WellFormedId(id) && IdKey(id) in internships && internships[IdKey(id)] == Listing("Open", Some(now - 1))
    ensures InternshipDetails.ApplyEnabled(false, internships[IdKey(id)].status)
    ensures FindInternship.IsClosed(internships[IdKey(id)], now)
    ensures ApplicationController.ApplyVerdict(internships, applications, id, caller, freshId, now) ==
      Failure(400, ApplicationController.DeadlineMessage)
  {
    assert ApplicationController.DeadlinePassed(Some(now - 1), now);
  }

  /**
   * The details page compares the status exactly: "open" in lower case, which the
   * server accepts, leaves the Apply button disabled.
   */
  lemma {:induction false} LowerCaseOpenIsDisabled(internships: map<Id, Internship>, applications: seq<Application>,
                                                   id: Id, caller: Id, freshId: Id, now: int)
    requires WellFormedId(id) && WellFormedId(caller) && IdKey(id) in internships && internships[IdKey(id)] == Listing("open", None)
    requires !ApplicationController.HasApplied(applications, IdKey(id), IdKey(caller))
    ensures !InternshipDetails.ApplyEnabled(false, internships[IdKey(id)].status)
    ensures !FindInternship.IsClosed(internships[IdKey(id)], now)
    ensures ApplicationController.ApplyVerdict(internships, applications, id, caller, freshId, now).Success?
  {
    assert Text.Lower("open") == "open";
  }
}
