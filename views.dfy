/**
 * An application as the pages receive it in JSON: the status is plain text
 * (the pages compare it as text), the populated internship reference is null
 * once that internship is gone.
 */
module Views {
  import opened Wrappers
  import opened Models

  datatype AppView = AppView(id: Id, internship: Option<Id>, status: string, message: Option<string>, createdAt: int)

  /** The JSON the API serves for a stored application. */
  function ViewOf(a: Application, internships: map<Id, Internship>): (v: AppView)
    ensures v.id == a.id && v.createdAt == a.createdAt && v.message == a.message
    ensures ParseStatus(v.status) == Some(if a.status == Unset then Applied else a.status)
    ensures a.status == Unset ==> v.status == "applied"
    ensures v.internship.Some? <==> a.internship in internships
  {
    StatusNamesParse(a.status);
    AppView(a.id, if a.internship in internships then Some(a.internship) else None,
            StatusName(a.status), a.message, a.createdAt)
  }

  /** Whether a page shows a "Reason:" line: only for a message that is present and non-empty. */
  predicate ReasonShown(message: Option<string>)
    ensures message.None? ==> !ReasonShown(message)
    ensures message == Some("") ==> !ReasonShown(message)
    ensures message.Some? && message.value != "" ==> ReasonShown(message)
  {
    Present(message)
  }
}
