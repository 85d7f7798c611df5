/**
 * The page of a single internship: the Apply click, the Apply button's enabled
 * state and the status line. The profile check is the same one the search page
 * runs, `FindInternship.ProfileNeeds`.
 */
module InternshipDetails {
  import opened Wrappers
  import opened Models
  import FindInternship

  /**
   * Where an Apply click ends: sent to the login page, sent to the profile page,
   * left on the page, the apply request sent, or a failed profile fetch (an alert).
   */
  datatype DetailsStep = GoLogin | GoProfile | Stay | SendApply | FetchFailed

  /**
   * `handleApply`: without a token nothing is requested and the user goes to the
   * login page; otherwise the profile is fetched, and any missing field stops the
   * apply, going to the profile page when the user confirms. Only a complete
   * profile lets the apply request go out.
   */
  method HandleApply(hasToken: bool, profile: Option<FindInternship.Profile>, confirmed: bool)
    returns (step: DetailsStep)
    ensures step == GoLogin <==> !hasToken
    ensures step == FetchFailed <==> hasToken && profile.None?
    ensures step == SendApply <==> hasToken && profile.Some? && FindInternship.Complete(profile.value)
    ensures step == GoProfile <==> hasToken && profile.Some? && !FindInternship.Complete(profile.value) && confirmed
    ensures step == Stay <==> hasToken && profile.Some? && !FindInternship.Complete(profile.value) && !confirmed
  {
    if !hasToken {
      return GoLogin;
    }
    if profile.None? {
      return FetchFailed;
    }
    var needs := FindInternship.ProfileNeeds(profile.value);
    if |needs| > 0 {
      if confirmed {
        return GoProfile;
      }
      return Stay;
    }
    return SendApply;
  }

  /** The status line: the stored status, or "Open" when there is none. */
  function ShownStatus(status: string): (shown: string)
    ensures shown != ""
    ensures status != "" ==> shown == status
    ensures status == "" ==> shown == "Open"
  {
    if status == "" then "Open" else status
  }

  /**
   * The Apply button is enabled only while no apply is running and the status is
   * exactly "Open"; a record without a status reads "Open" on the status line but
   * its button stays disabled. The deadline is not consulted.
   */
  function ApplyEnabled(applying: bool, status: string): (enabled: bool)
    ensures enabled ==> !applying && ShownStatus(status) == "Open"
    ensures !applying && ShownStatus(status) == "Open" ==> (enabled <==> status != "")
  {
    !applying && status == "Open"
  }
}
