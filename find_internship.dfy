/**
 * The student's search page: which listings count as closed, the order they
 * are shown in, the search filters, the checkbox lists, the status label, and
 * the apply flow with its profile-completeness check.
 */
module FindInternship {
  import opened Wrappers
  import opened Models
  import Text
  import Seqs
  import ApplicationController

  /**
   * A listing is closed when its deadline has passed or its status is present
   * and is not "open" in any case; every place on the page uses this test.
   */
  predicate IsClosed(job: Internship, now: int)
    ensures ApplicationController.DeadlinePassed(job.applyBy, now) ==> IsClosed(job, now)
    ensures job.status == "" || Text.Lower(job.status) == "open" ==>
      (IsClosed(job, now) <==> ApplicationController.DeadlinePassed(job.applyBy, now))
    ensures job.status != "" && Text.Lower(job.status) != "open" ==> IsClosed(job, now)
  {
    ApplicationController.DeadlinePassed(job.applyBy, now) || ApplicationController.StatusBlocks(job.status)
  }

  /**
   * The listing order: every open listing before every closed one, and within
   * each group the newest first. Nothing is added or lost.
   */
  function SortForDisplay(jobs: seq<Internship>, now: int): (r: seq<Internship>)
    ensures multiset(r) == multiset(jobs)
    ensures forall i, j :: 0 <= i < j < |r| && IsClosed(r[i], now) ==> IsClosed(r[j], now)
    ensures forall i, j :: 0 <= i < j < |r| && IsClosed(r[i], now) == IsClosed(r[j], now) ==>
      r[i].createdAt >= r[j].createdAt
  {
    var openOnes := Seqs.Filter(jobs, (x: Internship) => !IsClosed(x, now));
    var closedOnes := Seqs.Filter(jobs, (x: Internship) => IsClosed(x, now));
    var a := Seqs.SortDesc(openOnes, CreatedAt);
    var b := Seqs.SortDesc(closedOnes, CreatedAt);
    PartitionCount(jobs, now);
    GroupsInOrder(openOnes, closedOnes, a, b, now);
    a + b
  }

  lemma PartitionCount(jobs: seq<Internship>, now: int)
    ensures multiset(Seqs.Filter(jobs, (x: Internship) => !IsClosed(x, now))) +
            multiset(Seqs.Filter(jobs, (x: Internship) => IsClosed(x, now))) == multiset(jobs)
  {
    Seqs.FilterPartition(jobs, (x: Internship) => !IsClosed(x, now), (x: Internship) => IsClosed(x, now));
  }

  /** Two sorted groups, the open one first, make a list in display order. */
  lemma GroupsInOrder(openOnes: seq<Internship>, closedOnes: seq<Internship>, a: seq<Internship>, b: seq<Internship>, now: int)
    requires forall k :: 0 <= k < |openOnes| ==> !IsClosed(openOnes[k], now)
    requires forall k :: 0 <= k < |closedOnes| ==> IsClosed(closedOnes[k], now)
    requires multiset(a) == multiset(openOnes) && multiset(b) == multiset(closedOnes)
    requires Seqs.SortedDesc(a, CreatedAt) && Seqs.SortedDesc(b, CreatedAt)
    ensures forall i, j :: 0 <= i < j < |a + b| && IsClosed((a + b)[i], now) ==> IsClosed((a + b)[j], now)
    ensures forall i, j :: 0 <= i < j < |a + b| && IsClosed((a + b)[i], now) == IsClosed((a + b)[j], now) ==>
      (a + b)[i].createdAt >= (a + b)[j].createdAt
  {
    forall k | 0 <= k < |a| ensures !IsClosed(a[k], now) {
      assert a[k] in multiset(openOnes);
    }
    forall k | 0 <= k < |b| ensures IsClosed(b[k], now) {
      assert b[k] in multiset(closedOnes);
    }
  }

  /**
   * The closed flag as the page's comparator computes it. `x && y` yields `x`
   * itself when `x` is falsy, so a listing whose deadline has not passed and
   * whose status is empty gets neither `true` nor `false` but the falsy status.
   */
  datatype Flag = True | False | Falsy

  function ClosedFlag(job: Internship, now: int): (f: Flag)
    ensures f == True <==> IsClosed(job, now)
    ensures f == Falsy <==> !IsClosed(job, now) && job.status == ""
  {
    if ApplicationController.DeadlinePassed(job.applyBy, now) then True
    else if job.status == "" then Falsy
    else if ApplicationController.StatusBlocks(job.status) then True
    else False
  }

  /**
   * The comparator as the page writes it: flags that differ (`!==`) put the one
   * whose flag is truthy last, and equal flags compare newest first.
   */
  function CompareAsWritten(a: Internship, b: Internship, now: int): (c: int)
    ensures ClosedFlag(a, now) != ClosedFlag(b, now) ==> (c > 0 <==> ClosedFlag(a, now) == True)
    ensures ClosedFlag(a, now) == ClosedFlag(b, now) ==> (c <= 0 <==> a.createdAt >= b.createdAt)
  {
    var fa := ClosedFlag(a, now);
    var fb := ClosedFlag(b, now);
    if fa != fb then (if fa == True then 1 else -1) else b.createdAt - a.createdAt
  }

  /**
   * A listing with an empty status and an ordinary open one each sort before
   * the other, so the comparator is not consistent and the order it yields is
   * the sort algorithm's choice.
   */
  lemma EmptyStatusComparesBothWays(a: Internship, b: Internship, now: int)
    requires a.status == "" && !ApplicationController.DeadlinePassed(a.applyBy, now)
    requires b.status == "Open" && !ApplicationController.DeadlinePassed(b.applyBy, now)
    ensures CompareAsWritten(a, b, now) < 0 && CompareAsWritten(b, a, now) < 0
  {
    assert Text.Lower("Open") == "open";
  }

  /** The comparator the page evidently means: the closed test as a boolean, then newest first. */
  function CompareIntended(a: Internship, b: Internship, now: int): (c: int)
    ensures IsClosed(a, now) != IsClosed(b, now) ==> (c > 0 <==> IsClosed(a, now))
    ensures IsClosed(a, now) == IsClosed(b, now) ==> (c <= 0 <==> a.createdAt >= b.createdAt)
  {
    if IsClosed(a, now) != IsClosed(b, now) then (if IsClosed(a, now) then 1 else -1)
    else b.createdAt - a.createdAt
  }

  /** Where no listing has an empty status and is open, the two comparators agree. */
  lemma {:induction false} ComparatorsAgree(a: Internship, b: Internship, now: int)
    requires ClosedFlag(a, now) != Falsy && ClosedFlag(b, now) != Falsy
    ensures CompareAsWritten(a, b, now) == CompareIntended(a, b, now)
  {
  }

  /** The display order never puts a listing after one the intended comparator ranks later. */
  lemma {:induction false} DisplayFollowsComparator(jobs: seq<Internship>, now: int)
    ensures var r := SortForDisplay(jobs, now);
      forall i, j :: 0 <= i < j < |r| ==> CompareIntended(r[i], r[j], now) <= 0
  {
    var r := SortForDisplay(jobs, now);
    forall i, j | 0 <= i < j < |r| ensures CompareIntended(r[i], r[j], now) <= 0 {
      if IsClosed(r[i], now) {
        assert IsClosed(r[j], now);
      }
    }
  }

  /** The search panel's state. */
  datatype Filters = Filters(searchTerm: string, location: string, modes: seq<string>,
                             categories: seq<string>, hideClosed: bool)

  /**
   * Whether a listing survives the filters: the search term (ignoring case) in
   * the title or the company, the location (ignoring case) in the listing's
   * location unless blank, the mode and the category among the ticked ones
   * unless none are ticked, and not closed when closed listings are hidden.
   */
  predicate Matches(job: Internship, f: Filters, now: int)
    ensures f.searchTerm == "" && Text.Trim(f.location) == "" && f.modes == [] && f.categories == [] && !f.hideClosed ==>
      Matches(job, f, now)
    ensures f.hideClosed && IsClosed(job, now) ==> !Matches(job, f, now)
  {
    TermMatches(job, f.searchTerm) && LocationMatches(job, f.location) &&
    Ticked(job.mode, f.modes) && Ticked(job.category, f.categories) &&
    !(f.hideClosed && IsClosed(job, now))
  }

  /** The search term, lower-cased, is empty or occurs in the lower-cased title or company. */
  predicate TermMatches(job: Internship, searchTerm: string)
    ensures searchTerm == "" ==> TermMatches(job, searchTerm)
    ensures Text.Contains(Text.Lower(job.title), Text.Lower(searchTerm)) ==> TermMatches(job, searchTerm)
    ensures Text.Contains(Text.Lower(job.company), Text.Lower(searchTerm)) ==> TermMatches(job, searchTerm)
    ensures (searchTerm != "" && !Text.Contains(Text.Lower(job.title), Text.Lower(searchTerm)) &&
             !Text.Contains(Text.Lower(job.company), Text.Lower(searchTerm))) ==> !TermMatches(job, searchTerm)
  {
    var term := Text.Lower(searchTerm);
    term == "" || Text.Contains(Text.Lower(job.title), term) || Text.Contains(Text.Lower(job.company), term)
  }

  /** A blank location matches everything; otherwise it occurs, ignoring case, in the listing's location. */
  predicate LocationMatches(job: Internship, location: string)
    ensures Text.Trim(location) == "" ==> LocationMatches(job, location)
    ensures Text.Contains(Text.Lower(job.location.GetOr("")), Text.Lower(location)) ==> LocationMatches(job, location)
    ensures Text.Trim(location) != "" && job.location.None? ==> !LocationMatches(job, location)
  {
    Text.Trim(location) == "" || Text.Contains(Text.Lower(job.location.GetOr("")), Text.Lower(location))
  }

  /** No ticked box matches everything; otherwise the listing's value must be ticked. */
  predicate Ticked(value: Option<string>, ticked: seq<string>)
    ensures ticked == [] ==> Ticked(value, ticked)
    ensures value.None? ==> (Ticked(value, ticked) <==> ticked == [])
    ensures value.Some? && value.value in ticked ==> Ticked(value, ticked)
  {
    ticked == [] || (value.Some? && value.value in ticked)
  }

  /** The filtered list: exactly the matching listings, in their order. */
  function FilterJobs(jobs: seq<Internship>, f: Filters, now: int): (r: seq<Internship>)
    ensures Seqs.IsSubseq(r, jobs)
    ensures forall k :: 0 <= k < |r| ==> Matches(r[k], f, now)
    ensures forall k :: 0 <= k < |jobs| && Matches(jobs[k], f, now) ==> jobs[k] in r
  {
    Seqs.Filter(jobs, (j: Internship) => Matches(j, f, now))
  }

  /** The page's initial filters: nothing typed or ticked, closed listings hidden. */
  const InitialFilters: Filters := Filters("", "", [], [], true)

  /** With the initial filters, exactly the open listings are shown. */
  lemma InitialFiltersShowOpen(job: Internship, now: int)
    ensures Matches(job, InitialFilters, now) <==> !IsClosed(job, now)
  {
    assert InitialFilters == Filters("", "", [], [], true);
    EmptyFiltersShowOpen(job, now);
  }

  lemma EmptyFiltersShowOpen(job: Internship, now: int)
    ensures Matches(job, Filters("", "", [], [], true), now) <==> !IsClosed(job, now)
  {
    EmptyTermMatches(job);
    BlankLocationMatches(job);
  }

  lemma EmptyTermMatches(job: Internship)
    ensures TermMatches(job, "")
  {
    assert Text.Lower("") == [];
  }

  lemma BlankLocationMatches(job: Internship)
    ensures LocationMatches(job, "")
  {
    assert Text.TrimStart("") == [];
  }

  /** The search term is compared ignoring case: typing it in lower case changes nothing. */
  lemma {:induction false} SearchIgnoresCase(job: Internship, f: Filters, now: int)
    ensures Matches(job, f.(searchTerm := Text.Lower(f.searchTerm)), now) == Matches(job, f, now)
  {
    Text.LowerIdempotent(f.searchTerm);
  }

  /** `handleCheckboxChange`: a ticked value is removed (every copy of it), an unticked one appended. */
  function Toggle(state: seq<string>, value: string): (r: seq<string>)
    ensures value in r <==> value !in state
    ensures forall x :: x != value ==> (x in r <==> x in state)
    ensures value !in state ==> r == state + [value]
  {
    if value in state then
      var r := Seqs.Filter(state, (item: string) => item != value);
      assert forall x :: x != value && x in state ==> x in r by {
        forall x | x != value && x in state ensures x in r {
          var k :| 0 <= k < |state| && state[k] == x;
        }
      }
      r
    else state + [value]
  }

  /** Ticking a box twice leaves the same values ticked. */
  lemma ToggleTwice(state: seq<string>, value: string)
    ensures forall x :: x in Toggle(Toggle(state, value), value) <==> x in state
  {
  }

  /**
   * The status shown on a card: "Closed" for a closed listing, otherwise the
   * stored status or "Open", which then always reads "open" ignoring case.
   */
  function DisplayStatus(job: Internship, now: int): (r: string)
    ensures IsClosed(job, now) ==> r == "Closed"
    ensures !IsClosed(job, now) ==> r == (if job.status == "" then "Open" else job.status)
    ensures !IsClosed(job, now) ==> Text.Lower(r) == "open"
  {
    if IsClosed(job, now) then "Closed"
    else if job.status == "" then
      assert Text.Lower("Open") == "open";
      "Open"
    else job.status
  }

  // ----- applying -----

  /** The profile fields the apply flow looks at. */
  datatype Profile = Profile(phone: Option<string>, university: Option<string>,
                             degree: Option<string>, skills: Option<seq<string>>)

  /** Skills are missing when absent or an empty list. */
  predicate SkillsMissing(p: Profile)
    ensures SkillsMissing(p) <==> forall s :: p.skills.Some? ==> s !in p.skills.value
  {
    if p.skills.None? then true
    else
      assert p.skills.value != [] ==> p.skills.value[0] in p.skills.value;
      p.skills.value == []
  }

  /** No field the apply flow asks for is missing: `needs` stays empty. */
  predicate Complete(p: Profile)
    ensures Complete(p) ==> p.skills.Some? && exists s :: s in p.skills.value
    ensures Complete(p) ==> p.phone.Some? && p.university.Some? && p.degree.Some?
  {
    Present(p.phone) && Present(p.university) && Present(p.degree) && !SkillsMissing(p)
  }

  /** The position of each field name in the order the checks run. */
  function Rank(field: string): nat {
    if field == "phone" then 0 else if field == "university" then 1 else if field == "degree" then 2 else 3
  }

  /**
   * The `needs` list, built push by push: the missing fields among phone,
   * university, degree and skills, each once and in that order.
   */
  method ProfileNeeds(p: Profile) returns (needs: seq<string>)
    ensures "phone" in needs <==> !Present(p.phone)
    ensures "university" in needs <==> !Present(p.university)
    ensures "degree" in needs <==> !Present(p.degree)
    ensures "skills" in needs <==> SkillsMissing(p)
    ensures forall k :: 0 <= k < |needs| ==> needs[k] in {"phone", "university", "degree", "skills"}
    ensures forall i, j :: 0 <= i < j < |needs| ==> Rank(needs[i]) < Rank(needs[j])
    ensures needs == [] <==> Complete(p)
  {
    needs := [];
    if !Present(p.phone) {
      needs := needs + ["phone"];
    }
    if !Present(p.university) {
      needs := needs + ["university"];
    }
    if !Present(p.degree) {
      needs := needs + ["degree"];
    }
    if SkillsMissing(p) {
      needs := needs + ["skills"];
    }
  }

  /** The completion form shown when fields are missing, prefilled from the profile. */
  datatype ProfileForm = ProfileForm(phone: string, university: string, degree: string, skills: string)

  function PrefillForm(p: Profile): (form: ProfileForm)
    ensures form.skills == Text.Join(p.skills.GetOr([]), ", ")
    ensures form.phone == (if Present(p.phone) then p.phone.value else "")
    ensures form.university == (if Present(p.university) then p.university.value else "")
    ensures form.degree == (if Present(p.degree) then p.degree.value else "")
  {
    ProfileForm(p.phone.GetOr(""), p.university.GetOr(""), p.degree.GetOr(""), Text.Join(p.skills.GetOr([]), ", "))
  }

  /** The skills the completion form sends: the text split on commas and newlines, trimmed, blanks dropped. */
  function FormSkills(form: ProfileForm): (skills: seq<string>)
    ensures skills == Text.Tokens(form.skills)
    ensures forall k :: 0 <= k < |skills| ==> Text.CleanItem(skills[k])
  {
    var r := Text.Tokens(form.skills);
    assert forall k :: 0 <= k < |r| ==> Text.CleanItem(r[k]) by {
      forall k | 0 <= k < |r| ensures Text.CleanItem(r[k]) {
        Text.TrimOfTrimmed(r[k]);
      }
    }
    r
  }

  /** Saving the prefilled form unchanged sends the profile's skills back, when each is a clean entry. */
  lemma PrefillThenSaveKeepsSkills(p: Profile)
    requires p.skills.Some?
    requires forall k :: 0 <= k < |p.skills.value| ==> Text.CleanItem(p.skills.value[k])
    ensures FormSkills(PrefillForm(p)) == p.skills.value
  {
    Text.TokensOfJoin(p.skills.value);
  }

  /** What clicking Apply on a card leads to. */
  datatype ApplyStep =
    | LoginAlert                                       // no token: nothing is requested
    | FetchAlert                                       // the listing could not be fetched
    | DeadlineAlert                                    // the deadline has passed: nothing is sent
    | FailedAlert                                      // the profile could not be fetched: "Failed to apply"
    | AskProfile(needs: seq<string>, form: ProfileForm) // the completion form opens
    | SendApply(id: Id)                                // the application is posted

  /**
   * The page's own state: the listings applied to (they show "Applied") and
   * the listing waiting for the profile form.
   */
  class Page {
    var applied: set<Id>
    var pendingApplyId: Option<Id>

    constructor()
      ensures applied == {} && pendingApplyId == None
    {
      applied := {};
      pendingApplyId := None;
    }

    /**
     * `handleApply`: login, then the listing, then its deadline (the status is
     * left to the server), then the profile, whose failed fetch ends in the
     * handler's catch. An application is posted only for a complete profile,
     * and the id is marked applied once the server accepts it.
     */
    method HandleApply(id: Id, hasToken: bool, fetched: Option<Internship>, profile: Option<Profile>,
                       now: int, serverAccepts: bool) returns (step: ApplyStep)
      modifies this
      ensures step == LoginAlert <==> !hasToken
      ensures step == FetchAlert <==> hasToken && fetched.None?
      ensures step == DeadlineAlert <==>
        hasToken && fetched.Some? && ApplicationController.DeadlinePassed(fetched.value.applyBy, now)
      ensures step == FailedAlert <==>
        hasToken && fetched.Some? && !ApplicationController.DeadlinePassed(fetched.value.applyBy, now) && profile.None?
      ensures step.SendApply? <==>
        hasToken && fetched.Some? && !ApplicationController.DeadlinePassed(fetched.value.applyBy, now) &&
        profile.Some? && Complete(profile.value)
      ensures step.SendApply? ==> step.id == id
      ensures step.AskProfile? ==>
        profile.Some? && step.needs != [] && step.form == PrefillForm(profile.value) && pendingApplyId == Some(id)
      ensures !step.AskProfile? ==> pendingApplyId == old(pendingApplyId)
      ensures applied == if step.SendApply? && serverAccepts then old(applied) + {id} else old(applied)
    {
      if !hasToken {
        return LoginAlert;
      }
      if fetched.None? {
        return FetchAlert;
      }
      if ApplicationController.DeadlinePassed(fetched.value.applyBy, now) {
        return DeadlineAlert;
      }
      if profile.None? {
        return FailedAlert;
      }
      var needs := ProfileNeeds(profile.value);
      if needs != [] {
        pendingApplyId := Some(id);
        return AskProfile(needs, PrefillForm(profile.value));
      }
      if serverAccepts {
        applied := applied + {id};
      }
      step := SendApply(id);
    }

    /**
     * `submitProfileThenApply`: the form's skills are sent as a clean list, then
     * the waiting listing (if any) is applied to and no longer waits.
     */
    method SubmitProfileThenApply(form: ProfileForm, hasToken: bool, serverAccepts: bool)
      returns (skillsSent: Option<seq<string>>, applyTo: Option<Id>)
      modifies this
      ensures !hasToken ==> skillsSent.None? && applyTo.None? && applied == old(applied) && pendingApplyId == old(pendingApplyId)
      ensures hasToken ==> skillsSent == Some(FormSkills(form)) && applyTo == old(pendingApplyId)
      ensures hasToken && serverAccepts && old(pendingApplyId).Some? ==>
        applied == old(applied) + {old(pendingApplyId).value} && pendingApplyId.None?
      ensures !(hasToken && serverAccepts && old(pendingApplyId).Some?) ==>
        applied == old(applied) && pendingApplyId == old(pendingApplyId)
    {
      if !hasToken {
        return None, None;
      }
      skillsSent := Some(FormSkills(form));
      applyTo := pendingApplyId;
      if pendingApplyId.Some? && serverAccepts {
        applied := applied + {pendingApplyId.value};
        pendingApplyId := None;
      }
    }
  }
}
