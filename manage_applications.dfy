/**
 * The employer's page for one internship's applicants: the status filter and
 * the date sort over the loaded list, the body of a status-update request,
 * the local replacement of the updated entry, and which actions are offered.
 */
module ManageApplications {
  import opened Wrappers
  import opened Models
  import opened Views
  import Text
  import Seqs
  import ApplicationController

  /** The values the four filter buttons set: there is no button for "applied". */
  const FilterButtons: seq<string> := ["all", "accepted", "under_review", "rejected"]

  /**
   * The status filter: "all" (or no filter) keeps every entry; any other value
   * keeps, in order, exactly the entries whose status equals it ignoring case.
   */
  function StatusFilter(list: seq<AppView>, filter: string): (r: seq<AppView>)
    ensures filter == "" || filter == "all" ==> r == list
    ensures filter != "" && filter != "all" ==> Seqs.IsSubseq(r, list)
    ensures filter != "" && filter != "all" ==>
      forall k :: 0 <= k < |r| ==> Text.Lower(r[k].status) == Text.Lower(filter)
    ensures filter != "" && filter != "all" ==>
      forall k :: 0 <= k < |list| && Text.Lower(list[k].status) == Text.Lower(filter) ==> list[k] in r
  {
    if filter == "" || filter == "all" then list
    else Seqs.Filter(list, (a: AppView) => Text.Lower(a.status) == Text.Lower(filter))
  }

  /** An entry in the default "applied" status is listed under "All" and under no other button. */
  lemma AppliedOnlyUnderAll(list: seq<AppView>, filter: string, k: nat)
    requires filter in FilterButtons && k < |list| && list[k].status == StatusName(Applied)
    ensures list[k] in StatusFilter(list, filter) <==> filter == "all"
  {
    assert Text.Lower("applied") == "applied";
    assert Text.Lower("accepted") == "accepted";
    assert Text.Lower("under_review") == "under_review";
    assert Text.Lower("rejected") == "rejected";
  }

  function CreatedAt(a: AppView): int {
    a.createdAt
  }

  /** The sort of the filtered copy: newest first for "newest", oldest first for any other choice. */
  function SortApps(list: seq<AppView>, order: string): (r: seq<AppView>)
    ensures multiset(r) == multiset(list)
    ensures order == "newest" ==> Seqs.SortedDesc(r, CreatedAt)
    ensures order != "newest" ==> Seqs.SortedAsc(r, CreatedAt)
  {
    if order == "newest" then Seqs.SortDesc(list, CreatedAt) else Seqs.SortAsc(list, CreatedAt)
  }

  /** What the page lists: the loaded applications, filtered and then sorted. */
  function Shown(list: seq<AppView>, filter: string, order: string): (r: seq<AppView>)
    ensures multiset(r) == multiset(StatusFilter(list, filter))
    ensures order == "newest" ==> Seqs.SortedDesc(r, CreatedAt)
    ensures order != "newest" ==> Seqs.SortedAsc(r, CreatedAt)
    ensures multiset(r) <= multiset(list)
    ensures forall x :: x in multiset(r) && filter != "" && filter != "all" ==> Text.Lower(x.status) == Text.Lower(filter)
    ensures forall k :: 0 <= k < |list| && (filter == "" || filter == "all" || Text.Lower(list[k].status) == Text.Lower(filter))
                       ==> list[k] in r
  {
    var kept := StatusFilter(list, filter);
    Seqs.FilterMultiset(list, (a: AppView) => Text.Lower(a.status) == Text.Lower(filter));
    assert forall x :: x in multiset(kept) ==> x in kept;
    var r := SortApps(kept, order);
    assert forall x :: x in kept ==> x in multiset(r);
    r
  }

  /** The body of a status-update request; the page always sends a status and never a null message. */
  datatype Payload = Payload(status: string, message: BodyText)

  /**
   * The payload rule: accepting or moving to review always clears the message
   * (an empty one is sent); any other status carries the message when one is given.
   */
  function PayloadFor(status: string, message: Option<string>): (p: Payload)
    ensures p.status == status
    ensures status == "accepted" || status == "under_review" ==> p.message == Given("")
    ensures status != "accepted" && status != "under_review" ==>
      p.message == (if message.Some? then Given(message.value) else Omitted)
  {
    Payload(status, if status == "accepted" || status == "under_review" then Given("")
                    else if message.Some? then Given(message.value) else Omitted)
  }

  /** The payload object is built with the status alone and then given a message field. */
  method BuildPayload(status: string, message: Option<string>) returns (payload: Payload)
    ensures payload == PayloadFor(status, message)
  {
    payload := Payload(status, Omitted);
    if status == "accepted" || status == "under_review" {
      payload := payload.(message := Given(""));
    } else if message.Some? {
      payload := payload.(message := Given(message.value));
    }
  }

  /**
   * Accepting an application through this page erases any earlier rejection
   * reason on the server, so neither page shows a reason for it afterwards.
   */
  lemma AcceptClearsReason(internships: map<Id, Internship>, applications: seq<Application>,
                           appId: string, caller: Id, message: Option<string>)
    requires ApplicationController.StatusVerdict(internships, applications, appId, caller, Some("accepted"),
                                                 PayloadFor("accepted", message).message).Success?
    ensures var r := ApplicationController.StatusVerdict(internships, applications, appId, caller, Some("accepted"),
                                                         PayloadFor("accepted", message).message);
      r.value.status == Accepted && r.value.message == Some("") && !ReasonShown(r.value.message)
  {
  }

  /** A rejection with a typed reason stores that reason, and the reason line then shows it. */
  lemma RejectKeepsReason(internships: map<Id, Internship>, applications: seq<Application>,
                          appId: string, caller: Id, reason: string)
    requires reason != ""
    requires ApplicationController.StatusVerdict(internships, applications, appId, caller, Some("rejected"),
                                                 PayloadFor("rejected", Some(reason)).message).Success?
    ensures var r := ApplicationController.StatusVerdict(internships, applications, appId, caller, Some("rejected"),
                                                         PayloadFor("rejected", Some(reason)).message);
      r.value.status == Rejected && r.value.message == Some(reason) && ReasonShown(r.value.message)
  {
  }

  /** After a successful update the entry with the same id is replaced by the server's copy. */
  function ReplaceById(list: seq<AppView>, updated: AppView): (r: seq<AppView>)
    ensures |r| == |list|
    ensures forall k :: 0 <= k < |r| ==> r[k].id == list[k].id
    ensures forall k :: 0 <= k < |r| && list[k].id != updated.id ==> r[k] == list[k]
    ensures forall k :: 0 <= k < |r| && list[k].id == updated.id ==> r[k] == updated
  {
    seq(|list|, k requires 0 <= k < |list| => if list[k].id == updated.id then updated else list[k])
  }

  /** Replacing with the same copy a second time changes nothing more. */
  lemma ReplaceIdempotent(list: seq<AppView>, updated: AppView)
    ensures ReplaceById(ReplaceById(list, updated), updated) == ReplaceById(list, updated)
  {
  }

  /** The three actions, in the order their buttons appear. */
  const Actions: seq<string> := ["under_review", "accepted", "rejected"]

  /** The action buttons of an entry: each action whose status differs, exactly, from the entry's. */
  function OfferedActions(status: string): (r: seq<string>)
    ensures forall a :: a in r <==> a in Actions && a != status
    ensures Seqs.IsSubseq(r, Actions)
  {
    Seqs.Filter(Actions, (a: string) => a != status)
  }

  /** The comparison is case-sensitive: an entry stored as "Accepted" is offered "accepted" again. */
  lemma CapitalisedStatusOffersAll()
    ensures OfferedActions("Accepted") == Actions
  {
    var r := OfferedActions("Accepted");
    assert |r| <= 3 && forall a :: a in r <==> a in Actions;
    assert "Accepted" != "accepted";
    assert Actions == ["under_review"] + ["accepted", "rejected"];
  }

  /**
   * The request a click sends: None when nothing is sent. A rejection first
   * asks for a reason; cancelling the prompt sends nothing, and an answer,
   * the empty one included, goes out as the message.
   */
  function ClickRequest(action: string, promptAnswer: Option<string>): (r: Option<Payload>)
    requires action in Actions
    ensures action != "rejected" ==> r == Some(Payload(action, Given("")))
    ensures action == "rejected" ==> (r.None? <==> promptAnswer.None?)
    ensures action == "rejected" && promptAnswer.Some? ==> r == Some(Payload("rejected", Given(promptAnswer.value)))
  {
    if action != "rejected" then Some(PayloadFor(action, None))
    else match promptAnswer
      case None => None
      case Some(_) => Some(PayloadFor(action, promptAnswer))
  }
}
