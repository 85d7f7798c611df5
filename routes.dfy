/**
 * The route tables of the two API routers: which guards run, in which order,
 * in front of each endpoint. `protect` always runs before `authorize`.
 */
module Routes {
  import opened Wrappers
  import opened Auth
  import Models

  datatype Endpoint =
    | ListInternships          // GET    /internships
    | MyInternships            // GET    /internships/my/list
    | ApplyTo                  // POST   /internships/:id/apply
    | InternshipApplications   // GET    /internships/:id/applications
    | GetInternship            // GET    /internships/:id
    | UpdateInternship         // PUT    /internships/:id
    | CreateInternship         // POST   /internships
    | DeleteInternship         // DELETE /internships/:id
    | MyApplications           // GET    /applications/my
    | ReceivedApplications     // GET    /applications/received
    | UpdateApplicationStatus  // PUT    /applications/:id/status

  /** No guard; `protect` alone; or `protect` followed by `authorize(roles)`. */
  datatype Guard = Public | SignedIn | SignedInAs(roles: seq<string>)

  /** Every `authorize` call names at least one role, and each is a role a user can have. */
  function GuardOf(e: Endpoint): (g: Guard)
    ensures g.SignedInAs? ==> g.roles != [] && forall k :: 0 <= k < |g.roles| ==> Models.ParseRole(g.roles[k]).Some?
  {
    match e
    case ListInternships => Public
    case MyInternships => SignedIn
    case ApplyTo => SignedInAs(["student"])
    case InternshipApplications => SignedInAs(["employer"])
    case GetInternship => Public
    case UpdateInternship => SignedInAs(["employer"])
    case CreateInternship => SignedInAs(["employer"])
    case DeleteInternship => SignedIn
    case MyApplications => SignedIn
    case ReceivedApplications => SignedInAs(["employer"])
    case UpdateApplicationStatus => SignedInAs(["employer"])
  }

  /** Whether the request reaches the handler, and with which caller. */
  datatype Admission = Admitted(user: Option<Claims>) | Refused(code: nat, message: string)

  /**
   * Running an endpoint's guards in order: a refusal by `protect` is final, so a
   * 403 is only ever given to a caller whose credential verified.
   */
  function Admit(e: Endpoint, header: Option<string>, verify: string -> Option<Claims>): (a: Admission)
    ensures GuardOf(e) == Public ==> a == Admitted(None)
    ensures GuardOf(e) != Public ==>
      (a.Admitted? ==> Protect(header, verify).Pass? && a.user == Some(Protect(header, verify).user))
    ensures a.Refused? ==> a.code == 401 || a.code == 403
    ensures a.Refused? && a.code == 403 ==> Protect(header, verify).Pass?
  {
    match GuardOf(e)
    case Public => Admitted(None)
    case SignedIn =>
      (match Protect(header, verify)
       case Pass(u) => Admitted(Some(u))
       case Deny(code, msg) => Refused(code, msg))
    case SignedInAs(roles) =>
      (match Protect(header, verify)
       case Deny(code, msg) => Refused(code, msg)
       case Pass(u) =>
         (match Authorize(Some(u), roles)
          case Pass(v) => Admitted(Some(v))
          case Deny(code, msg) => Refused(code, msg)))
  }

  /** A missing or malformed credential is answered 401 on every guarded endpoint, never 403. */
  lemma NoCredentialIsUnauthorized(e: Endpoint, header: Option<string>, verify: string -> Option<Claims>)
    requires GuardOf(e) != Public
    requires Protect(header, verify).Deny?
    ensures Admit(e, header, verify).Refused? && Admit(e, header, verify).code == 401
  {
  }

  /** Applying is admitted exactly for a verified caller whose role is "student". */
  lemma ApplyIsStudentOnly(header: Option<string>, verify: string -> Option<Claims>)
    ensures Admit(ApplyTo, header, verify).Admitted? <==>
      Protect(header, verify).Pass? && Protect(header, verify).user.role == "student"
  {
  }

  /**
   * Listing one internship's applications, editing and creating internships, the
   * received list and status updates are admitted exactly for verified employers.
   */
  lemma EmployerOnlyEndpoints(e: Endpoint, header: Option<string>, verify: string -> Option<Claims>)
    requires e in {InternshipApplications, UpdateInternship, CreateInternship, ReceivedApplications, UpdateApplicationStatus}
    ensures Admit(e, header, verify).Admitted? <==>
      Protect(header, verify).Pass? && Protect(header, verify).user.role == "employer"
  {
  }

  /**
   * Deleting an internship, the caller's own internships and the caller's own
   * applications need a verified credential and nothing else: any role is admitted.
   */
  lemma AnyRoleEndpoints(e: Endpoint, header: Option<string>, verify: string -> Option<Claims>)
    requires e in {DeleteInternship, MyInternships, MyApplications}
    ensures Admit(e, header, verify).Admitted? <==> Protect(header, verify).Pass?
    ensures Admit(e, header, verify).Admitted? ==> Admit(e, header, verify).user == Some(Protect(header, verify).user)
  {
  }

  /** Listing internships and reading one need no credential at all. */
  lemma PublicEndpoints(e: Endpoint, header: Option<string>, verify: string -> Option<Claims>)
    requires e in {ListInternships, GetInternship}
    ensures Admit(e, header, verify) == Admitted(None)
  {
  }
}
