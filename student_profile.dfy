/**
 * The student's profile page: the avatar initial, the first name in the menu,
 * the skills sent on save, the resume upload gate, and the list of the
 * student's own applications with their reason line and status label.
 */
module StudentProfile {
  import opened Wrappers
  import opened Models
  import opened Views
  import Text
  import EmployerDashboard

  /**
   * `getInitial` as the three pages write it: "?" for a missing or empty name,
   * otherwise the first character of the trimmed name in upper case. A name of
   * white space only trims to "", whose first character does not exist, and
   * the call fails; None stands for that failure.
   */
  function GetInitialAsWritten(name: Option<string>): (r: Option<string>)
    ensures !Present(name) ==> r == Some("?")
    ensures r.None? <==> Present(name) && Text.Trim(name.value) == ""
    ensures r.Some? && Present(name) ==> r.value == [Text.UpperChar(Text.Trim(name.value)[0])]
  {
    if !Present(name) then Some("?")
    else
      var t := Text.Trim(name.value);
      if t == "" then None else Some([Text.UpperChar(t[0])])
  }

  /** A name of one blank makes the as-written initial fail. */
  lemma BlankNameHasNoInitial()
    ensures GetInitialAsWritten(Some(" ")) == None
  {
    assert Text.TrimStart(" ") == "";
  }

  /**
   * The initial with the blank name handled as the empty one: always exactly one
   * character, "?" when nothing but white space is given, and otherwise what the
   * as-written function returns.
   */
  function GetInitial(name: Option<string>): (r: string)
    ensures |r| == 1
    ensures name.None? || Text.Trim(name.value) == "" ==> r == "?"
    ensures GetInitialAsWritten(name).Some? ==> r == GetInitialAsWritten(name).value
  {
    if name.None? then "?"
    else
      var t := Text.Trim(name.value);
      if t == "" then "?" else [Text.UpperChar(t[0])]
  }

  /** The initial of a name that starts with a letter is that letter in upper case. */
  lemma InitialOfTrimmedName(name: string)
    requires name != "" && 'a' <= name[0] <= 'z' && !Text.IsSpace(name[|name| - 1])
    ensures GetInitial(Some(name)) == [(name[0] as int - 32) as char]
  {
    Text.TrimOfTrimmed(name);
  }

  /** The first name in the menu: the name up to its first blank (the whole name when it has none). */
  function FirstName(name: Option<string>): (r: string)
    ensures Text.StartsWith(name.GetOr(""), r)
    ensures Text.NoSep(r, {' '})
    ensures |r| == |name.GetOr("")| || name.GetOr("")[|r|] == ' '
  {
    Text.SplitFirstPiece(name.GetOr(""), {' '});
    Text.Split(name.GetOr(""), {' '})[0]
  }

  /** The skills held in the page state: absent, typed text, or the list the server sent. */
  datatype Skills = NoSkills | SkillsText(text: string) | SkillsList(items: seq<string>)

  /** The text shown in the skills box: a list joined with ", ", typed text as it is, nothing as "". */
  function SkillsBox(s: Skills): (box: string)
    ensures s.NoSkills? ==> box == ""
    ensures s.SkillsText? ==> box == s.text
    ensures s.SkillsList? && (forall k :: 0 <= k < |s.items| ==> Text.CleanItem(s.items[k])) ==>
      Text.Tokens(box) == s.items
  {
    match s
    case NoSkills => ""
    case SkillsText(t) => t
    case SkillsList(xs) =>
      if forall k :: 0 <= k < |xs| ==> Text.CleanItem(xs[k]) then
        Text.TokensOfJoin(xs);
        Text.Join(xs, ", ")
      else Text.Join(xs, ", ")
  }

  /**
   * What `save` sends as skills: typed text is split on commas and newlines,
   * trimmed, and emptied entries are dropped; a list, or no skills, goes out unchanged.
   */
  function SkillsToSend(s: Skills): (r: Skills)
    ensures !r.SkillsText?
    ensures s.SkillsText? ==> r == SkillsList(Text.Tokens(s.text))
    ensures !s.SkillsText? ==> r == s
    ensures r.SkillsList? && s.SkillsText? ==>
      forall k :: 0 <= k < |r.items| ==> Text.CleanItem(r.items[k])
  {
    match s
    case SkillsText(t) =>
      var xs := Text.Tokens(t);
      forall k | 0 <= k < |xs| ensures Text.CleanItem(xs[k]) {
        Text.TrimOfTrimmed(xs[k]);
      }
      SkillsList(xs)
    case _ => s
  }

  /**
   * Editing the box without changing its text and saving sends the list the
   * server holds, when every skill is non-empty, trimmed and free of commas and newlines.
   */
  lemma {:induction false} EditedBoxKeepsSkills(xs: seq<string>)
    requires forall k :: 0 <= k < |xs| ==> Text.CleanItem(xs[k])
    ensures SkillsToSend(SkillsText(SkillsBox(SkillsList(xs)))) == SkillsList(xs)
  {
    Text.TokensOfJoin(xs);
  }

  /** The resume upload: a file must be a PDF before anything else; then a token is needed. */
  datatype UploadStep = RejectFile | NotAuthenticated | SendFile

  const PdfType: string := "application/pdf"

  function ResumeUpload(fileType: Option<string>, hasToken: bool): (step: UploadStep)
    ensures step == SendFile <==> fileType == Some(PdfType) && hasToken
    ensures step == RejectFile <==> fileType != Some(PdfType)
    ensures step == NotAuthenticated <==> fileType == Some(PdfType) && !hasToken
  {
    if fileType.None? || fileType.value != PdfType then RejectFile
    else if !hasToken then NotAuthenticated
    else SendFile
  }

  /**
   * Each of the student's own applications, as the server serves it, carries one of
   * four labels; the default status, and a cleared one served as that default,
   * shows in its raw lower-case form, and a reason line appears only for a
   * non-empty message.
   */
  lemma OwnApplicationLabels(a: Application, internships: map<Id, Internship>)
    ensures var v := ViewOf(a, internships);
      EmployerDashboard.StatusBadge(v.status) in {"Accepted", "Rejected", "Under Review", "applied"}
    ensures a.status == Applied ==> EmployerDashboard.StatusBadge(ViewOf(a, internships).status) == "applied"
    ensures a.status == Unset ==> EmployerDashboard.StatusBadge(ViewOf(a, internships).status) == "applied"
    ensures ReasonShown(ViewOf(a, internships).message) <==> a.message.Some? && a.message.value != ""
  {
    EmployerDashboard.BadgesOfStoredStatuses();
  }
}
