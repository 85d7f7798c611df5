/**
 * The form for posting or editing an internship: the form state as a map from
 * field name to text, its edits, the request a submit sends, and the values
 * the form is filled with when it opens.
 */
module PostInternship {
  import opened Wrappers
  import opened Models
  import Text
  import InternshipController

  type Form = map<string, string>

  /** The eleven text fields of the form. */
  const FormKeys: set<string> := {"title", "company", "location", "category", "mode", "duration",
                                  "minSalary", "maxSalary", "description", "requirements", "applyBy"}

  /** The form as it opens: every field empty. */
  function InitialForm(): (f: Form)
    ensures f.Keys == FormKeys
    ensures forall k :: k in f ==> f[k] == ""
  {
    map k | k in FormKeys :: ""
  }

  /** `handleChange`: the named field takes the typed value, every other field is left as it was. */
  function HandleChange(form: Form, name: string, value: string): (r: Form)
    ensures r.Keys == form.Keys + {name}
    ensures r[name] == value
    ensures forall k :: k in form && k != name ==> r[k] == form[k]
  {
    form[name := value]
  }

  /** Typing into one of the form's fields never adds a field. */
  lemma ChangeKeepsFields(form: Form, name: string, value: string)
    requires form.Keys == FormKeys && name in FormKeys
    ensures HandleChange(form, name, value).Keys == FormKeys
  {
  }

  /** Edit mode: an `id` query parameter that is present and not empty. */
  predicate IsEdit(editId: Option<string>) {
    editId.Some? && editId.value != ""
  }

  datatype Verb = Put | Post

  /** A request: verb, path, the text fields as typed, and the requirements list. */
  datatype Request = Request(verb: Verb, path: string, fields: Form, requirements: seq<string>)

  /**
   * `handleSubmit`: without a token nothing is sent (None). Otherwise the
   * requirements text is split on commas and newlines, trimmed and emptied entries
   * dropped, and the form goes by PUT to the edited internship in edit mode, by
   * POST to the collection otherwise.
   */
  function Submit(form: Form, editId: Option<string>, hasToken: bool): (r: Option<Request>)
    ensures r.Some? <==> hasToken
    ensures r.Some? ==> (r.value.verb == Put <==> IsEdit(editId))
    ensures r.Some? && IsEdit(editId) ==> r.value.path == "/internships/" + editId.value
    ensures r.Some? && !IsEdit(editId) ==> r.value.path == "/internships"
    ensures r.Some? ==> r.value.fields == form - {"requirements"}
    ensures r.Some? ==>
      r.value.requirements == Text.Tokens(if "requirements" in form then form["requirements"] else "")
    ensures r.Some? ==> forall k :: 0 <= k < |r.value.requirements| ==> Text.CleanItem(r.value.requirements[k])
    ensures r.Some? && "requirements" !in form ==> r.value.requirements == []
  {
    if !hasToken then None
    else
      var reqs := Text.Tokens(if "requirements" in form then form["requirements"] else "");
      forall k | 0 <= k < |reqs| ensures Text.CleanItem(reqs[k]) {
        Text.TrimOfTrimmed(reqs[k]);
      }
      assert Text.Split("", Text.ListSeps) == [""];
      if IsEdit(editId) then Some(Request(Put, "/internships/" + editId.value, form - {"requirements"}, reqs))
      else Some(Request(Post, "/internships", form - {"requirements"}, reqs))
  }

  /** A number field's text: empty for a missing value and for 0 (both falsy), else the number's text. */
  function NumberText(v: Option<int>, formatNumber: int -> string): (t: string)
    ensures v.None? || v.value == 0 ==> t == ""
    ensures v.Some? && v.value != 0 ==> t == formatNumber(v.value)
  {
    if v.None? || v.value == 0 then "" else formatNumber(v.value)
  }

  /**
   * The form filled from the internship being edited: each missing field becomes
   * "", the requirements are joined with ", ", and the deadline is written as a
   * date by `formatDate`.
   */
  function PrefillForm(item: Internship, formatNumber: int -> string, formatDate: int -> string): (f: Form)
    ensures f.Keys == FormKeys
    ensures f["title"] == item.title && f["company"] == item.company
    ensures f["requirements"] == Text.Join(item.requirements, ", ")
    ensures f["location"] == (if item.location.Some? then item.location.value else "")
    ensures f["category"] == (if item.category.Some? then item.category.value else "")
    ensures f["mode"] == (if item.mode.Some? then item.mode.value else "")
    ensures f["duration"] == (if item.duration.Some? then item.duration.value else "")
    ensures f["description"] == (if item.description.Some? then item.description.value else "")
    ensures f["minSalary"] ==
      (if item.minSalary.Some? && item.minSalary.value != 0 then formatNumber(item.minSalary.value) else "")
    ensures f["maxSalary"] ==
      (if item.maxSalary.Some? && item.maxSalary.value != 0 then formatNumber(item.maxSalary.value) else "")
    ensures f["applyBy"] == (if item.applyBy.Some? then formatDate(item.applyBy.value) else "")
  {
    map[
      "title" := item.title,
      "company" := item.company,
      "location" := item.location.GetOr(""),
      "category" := item.category.GetOr(""),
      "mode" := item.mode.GetOr(""),
      "duration" := item.duration.GetOr(""),
      "minSalary" := NumberText(item.minSalary, formatNumber),
      "maxSalary" := NumberText(item.maxSalary, formatNumber),
      "description" := item.description.GetOr(""),
      "requirements" := Text.Join(item.requirements, ", "),
      "applyBy" := if item.applyBy.Some? then formatDate(item.applyBy.value) else ""]
  }

  /** What the page knows when it opens: no token, a failed profile fetch, or the employer's profile company. */
  datatype Session = NoToken | ProfileFailed | SignedIn(company: Option<string>)

  /**
   * The form once loading ends: the profile's company goes into the empty form,
   * and in edit mode a fetched internship then replaces the whole form, its
   * company included.
   */
  function LoadedForm(session: Session, editId: Option<string>, fetched: Option<Internship>,
                      formatNumber: int -> string, formatDate: int -> string): (f: Form)
    ensures f.Keys == FormKeys
    ensures !session.SignedIn? ==> f == InitialForm()
    ensures session.SignedIn? && IsEdit(editId) && fetched.Some? ==>
      f == PrefillForm(fetched.value, formatNumber, formatDate) && f["company"] == fetched.value.company
    ensures session.SignedIn? && !(IsEdit(editId) && fetched.Some?) ==>
      f["company"] == (if Present(session.company) then session.company.value else "")
  {
    if !session.SignedIn? then InitialForm()
    else
      var start := if Present(session.company) then InitialForm()["company" := session.company.value] else InitialForm();
      if IsEdit(editId) && fetched.Some? then PrefillForm(fetched.value, formatNumber, formatDate) else start
  }

  /**
   * Opening an internship for editing and submitting the form untouched sends
   * its requirements back unchanged, and the update then keeps them, when every
   * entry is non-empty, trimmed and free of commas and newlines.
   */
  lemma EditRoundTripKeepsRequirements(item: Internship, id: string, body: InternshipBody,
                                       formatNumber: int -> string, formatDate: int -> string)
    requires id != ""
    requires forall k :: 0 <= k < |item.requirements| ==> Text.CleanItem(item.requirements[k])
    ensures var r := Submit(PrefillForm(item, formatNumber, formatDate), Some(id), true);
      r.Some? && r.value.verb == Put && r.value.path == "/internships/" + id &&
      r.value.requirements == item.requirements
    ensures var r := Submit(PrefillForm(item, formatNumber, formatDate), Some(id), true);
      body.requirements == Some(r.value.requirements) ==>
        InternshipController.Patched(item, body).requirements == item.requirements
  {
    Text.TokensOfJoin(item.requirements);
  }

  /** A requirement holding a comma does not survive the round trip: it comes back as two. */
  lemma CommaSplitsRequirement(a: string, b: string)
    requires Text.CleanItem(a) && Text.CleanItem(b)
    ensures Text.Tokens(Text.Join([a + [','] + b], ", ")) == [a, b]
  {
    Text.SingletonJoin(a + [','] + b);
    TokensOfCommaPair(a, b);
  }

  lemma TokensOfCommaPair(a: string, b: string)
    requires Text.CleanItem(a) && Text.CleanItem(b)
    ensures Text.Tokens(a + [','] + b) == [a, b]
  {
    SplitAtComma(a, b);
    Text.CleanOfCleanItems([a, b]);
  }

  lemma SplitAtComma(a: string, b: string)
    requires Text.NoSep(a, Text.ListSeps) && Text.NoSep(b, Text.ListSeps)
    ensures Text.Split(a + [','] + b, Text.ListSeps) == [a, b]
  {
    Text.SplitNoSep(b, Text.ListSeps);
    Text.SplitAfterWord(a, ',', b, Text.ListSeps);
    assert [a] + [b] == [a, b];
  }

}
