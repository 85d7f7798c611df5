# InternshipFinder in Dafny

InternshipFinder is a small job board. Employers post internships and review
the applications they receive. Students search the listings, complete their
profile and apply. This project models its core in Dafny and proves properties
of the model:

- the Express back end: the three Mongoose schemas, the `protect` and
  `authorize` middleware, the route table, and both controllers, each as a
  function from the stored collections and the request to the reply
  (`Reply<T>`: status code plus value, or status code plus message);
- the database those controllers change, as a class `Store.Store` whose methods
  answer with the reply function's value and update the collections as the
  handler's `create`, `save` or `deleteOne` does;
- the React pages' logic, without the rendering: filters, sorts, counts,
  status labels, the requests each button sends, and the page state the
  search page updates while applying.

A Mongoose cast error, a failed schema validation, and the null dereference on
an application whose internship is gone all end in the controllers' `catch`
branch. They are modelled as the 500 reply that branch sends. A request's id
finds a stored record whatever the case of its hex digits, as the object-id
cast does: ids are stored in lower case and looked up by their lower-case key.
The caller's id from the token is cast the same way wherever the code casts it
(a stored owner or applicant, the list queries), while the owner checks
compare it with the stored owner as text. The current time (`Date.now()`, `new
Date()`) is an integer parameter `now`. A date is an `Option<int>`, with
`None` for a missing deadline. Token verification is a function parameter
`verify`. The browser's `confirm`, `prompt` and `alert` become parameters or
result values.

Where the code and its design description differ, the model follows the code:

- a record with no status reads "Open" on the status line but its Apply
  button stays disabled;
- the employer pages' label reads "Open" for any status other than "closed";
- the routes for the caller's own internships and for deleting one check the
  token but not the role.

## Model

| member | source | states |
|---|---|---|
| Models.ParseRole | backend/models/User.js:7 | only "student" and "employer" are accepted, and an accepted role names itself back |
| Models.NewUser | backend/models/User.js:3-19 | a user document is made exactly when name, email and password are present and a given role is in the enum; role defaults to student, skills to the empty list, profile fields are kept |
| Models.InsertUser | backend/models/User.js:5 | an insert is refused exactly when the email is already stored; otherwise the user is appended and emails stay unique |
| Models.ParseStatus | backend/models/Application.js:6 | exactly the four enum names are accepted, each to the status that names itself back |
| Models.StatusNamesParse | backend/models/Application.js:6 | the name of every enum status parses back to that status, and a cleared status is served as the default "applied" |
| Models.NewApplication | backend/models/Application.js:3-8 | a new application points at the given internship and applicant, both cast to their lower-case ids, has status "applied", no message and the creation time |
| Models.NewInternship | backend/models/Internship.js:3-17 | a document is made exactly when title and company are present and the owner is an object id, which is stored cast to lower case; status defaults to "Open", requirements to the empty list; location, deadline, category, mode, duration, both salaries and description are copied as given |
| Models.SalariesUnordered | backend/models/Internship.js:11-12 | a minimum salary above the maximum is accepted and stored as given |
| Models.IdKeyOfKey | backend/controllers/internshipController.js:25-26 | an id is well formed exactly when its lower-case key is, and the key is its own key: the store finds a record under either spelling of its id |
| Auth.BearerToken | backend/middleware/authMiddleware.js:7 | the token is the blank-free text after "Bearer ", up to the next blank or the end of the header |
| Auth.BearerTokenIsSecondWord | backend/middleware/authMiddleware.js:7 | for a blank-free t, "Bearer t" and "Bearer t more" both give t |
| Auth.Protect | backend/middleware/authMiddleware.js:3-15 | no header or a non-Bearer header is 401 "Not authorized"; an unverifiable token is 401 "Token invalid"; otherwise the request passes with exactly the token's claims |
| Auth.Authorize | backend/middleware/authMiddleware.js:17-21 | passes exactly a caller whose role is allowed, unchanged; 401 without a caller, 403 for a role not allowed |
| Routes.Admit | backend/routes/internshipRoutes.js:9-30 | public endpoints admit everyone with no caller; a refusal is 401 or 403, and 403 only after the credential verified |
| Routes.GuardOf | backend/routes/internshipRoutes.js:9-30 | the guard in front of each endpoint; every `authorize` names at least one role, and each is a role a user can have |
| Routes.NoCredentialIsUnauthorized | backend/routes/applicationRoutes.js:9-11 | on every guarded endpoint a credential that `protect` refuses gets 401, never 403 |
| Routes.ApplyIsStudentOnly | backend/routes/internshipRoutes.js:18 | applying is admitted exactly for a verified caller with role "student" |
| Routes.EmployerOnlyEndpoints | backend/routes/internshipRoutes.js:19-29 | the applications of one internship, creating and editing internships, and (applicationRoutes.js lines 10-11) the received list and status updates are admitted exactly for verified employers |
| Routes.AnyRoleEndpoints | backend/routes/internshipRoutes.js:10-30 | deleting an internship, the caller's own internships and (applicationRoutes.js line 9) the caller's own applications admit any verified caller, with the token's claims |
| Routes.PublicEndpoints | backend/routes/internshipRoutes.js:9-20 | listing internships and reading one are admitted without a credential |
| InternshipController.ListInternships | backend/controllers/internshipController.js:14-21 | every stored internship appears, each once, as stored |
| InternshipController.MyInternships | backend/routes/internshipRoutes.js:10-17 | 500 exactly for a malformed caller id; otherwise exactly the stored internships whose owner is the caller's id cast to lower case |
| InternshipController.CreateVerdict | backend/controllers/internshipController.js:4-12 | 201 exactly when title and company are present and the caller is an object id, with the caller's lower-case id as owner whatever the body says; otherwise 500 |
| InternshipController.CreatorOwnsOnlyInLowerCase | backend/controllers/internshipController.js:42 | the creator of an internship passes the uncast owner check exactly when its id is already in lower case |
| InternshipController.CreateIgnoresBodyOwner | backend/controllers/internshipController.js:6 | the owner named in the body never changes the reply |
| InternshipController.GetVerdict | backend/controllers/internshipController.js:23-33 | 400 exactly for a malformed id, 404 exactly when no record is stored under the id in any case of its hex digits, otherwise 200 with that record |
| InternshipController.GetIgnoresIdCase | backend/controllers/internshipController.js:25-28 | an id spelled with upper-case hex digits gets the answer its lower-case spelling gets |
| InternshipController.OwnerCheck | backend/controllers/internshipController.js:37-43 | the shared checks in order: 400 malformed id, 404 no record under the id in any case, 403 not the poster; none fails exactly for the poster of a stored internship |
| InternshipController.DeleteVerdict | backend/controllers/internshipController.js:35-52 | 200 "Deleted" exactly for the poster of the internship stored under the id in any case; 400, 404 and 403 with their messages exactly as the shared checks decide |
| InternshipController.CopyFields | backend/controllers/internshipController.js:62-65 | copying any list of allow-listed fields never changes id, owner, deadline or creation time |
| InternshipController.Patched | backend/controllers/internshipController.js:62-65 | each of the eleven allow-listed fields takes the body's value when the body defines it and keeps its old value otherwise; id, owner, deadline and creation time never change |
| InternshipController.CopyAllowListIsPatched | backend/controllers/internshipController.js:62-65 | the `forEach` over the allow-list gives exactly the field-by-field record |
| InternshipController.PatchedIdempotent | backend/controllers/internshipController.js:62-67 | sending the same edit twice gives the record sending it once gives |
| InternshipController.EmptyEditKeepsRecord | backend/controllers/internshipController.js:63-65 | an edit defining no allow-listed field leaves the record unchanged |
| InternshipController.PatchedIgnoresDeadline | backend/controllers/internshipController.js:62 | a deadline in the edit body has no effect |
| InternshipController.UpdateVerdict | backend/controllers/internshipController.js:55-73 | success exactly for the poster when the edited record keeps title and company, with the patched record; 400, 404 and 403 exactly as the shared checks decide; 500 "Server error" exactly when the poster's edit empties the title or the company |
| ApplicationController.ApplyVerdict | backend/controllers/applicationController.js:4-25 | 201 with a fresh "applied" application for the stored id and the caller's lower-case id exactly when the id is well formed and known in any case, the deadline has not passed, the status is empty or "open" in any case, and the caller, in any case, has not applied; each refusal's code and message in the handler's order, with 500 "Cast to ObjectId failed" exactly for a malformed id or, once the internship checks pass, a malformed caller id |
| ApplicationController.DeadlinePassed | backend/controllers/applicationController.js:9 | never without a deadline, never on or before it, always strictly after it |
| ApplicationController.StatusBlocks | backend/controllers/applicationController.js:13 | an empty status and "open" in any case never block; "closed" in any case and every other non-empty status do |
| ApplicationController.HasApplied | backend/controllers/applicationController.js:17 | some stored application has this internship and this applicant, the pair `findOne` looks up |
| ApplicationController.EmptyStatusIsOpen | backend/controllers/applicationController.js:13 | a missing status gets the same answer as "Open" |
| ApplicationController.OpenInAnyCase | backend/controllers/applicationController.js:13 | "Open", "OPEN" and "open" do not block; "Closed" does |
| ApplicationController.SecondApplyRefused | backend/controllers/applicationController.js:17-21 | after a successful apply, the same caller applying again to the same internship is refused |
| ApplicationController.NewestFirst | backend/controllers/applicationController.js:29 | exactly the matching applications, each as often as stored, newest first |
| ApplicationController.MyApplications | backend/controllers/applicationController.js:27-34 | 500 exactly for a malformed caller id; otherwise exactly the applications whose applicant is the caller's id cast to lower case, newest first |
| ApplicationController.PostedBy | backend/controllers/applicationController.js:38-39 | exactly the ids of the stored internships whose owner is the caller's id cast to lower case |
| ApplicationController.ReceivedApplications | backend/controllers/applicationController.js:36-48 | 500 exactly for a malformed caller id; otherwise exactly the applications to internships whose owner is the caller's lower-case id, newest first |
| ApplicationController.InternshipApplications | backend/controllers/applicationController.js:50-66 | 500 "Cast to ObjectId failed" exactly for a malformed id, 404 exactly for an unknown one, 403 exactly for one the caller did not post, the id looked up in any case; otherwise exactly the applications to that internship's stored id, newest first |
| ApplicationController.ReceivedCoversEachInternship | backend/controllers/applicationController.js:36-66 | for an owner stored in lower case, every application one internship's list shows is also in its poster's received list |
| ApplicationController.IndexOfApp | backend/controllers/applicationController.js:72 | the first position holding the id, or none exactly when no application has it |
| ApplicationController.StatusVerdict | backend/controllers/applicationController.js:68-83 | the application looked up by its id in any case: 500 cast failure exactly for a malformed id, 404 exactly for an unknown one, 500 null dereference exactly for a gone internship, 403 exactly when the caller is not the poster, 500 validation failure exactly for a status outside the enum sent by the poster; otherwise the sent status is set, or cleared when none is sent (then served as the default); the message is kept when left out, cleared by null, replaced by a text; nothing else changes |
| ApplicationController.Updated | backend/controllers/applicationController.js:78 | the stored message is kept when the field is left out, cleared by null, and replaced by a sent text |
| ApplicationController.OrphanUpdateFails | backend/controllers/applicationController.js:72-82 | a status change on an application whose internship was deleted is a 500 |
| Store.RemoveId | backend/controllers/internshipController.js:45 | removing an id keeps every other id, drops that one, and keeps the ids distinct |
| Store.Store.CreateInternship | backend/controllers/internshipController.js:4-12 | the reply is `CreateVerdict`'s; on success the record is stored under the fresh id and listed last; the store stays valid |
| Store.Store.DeleteInternship | backend/controllers/internshipController.js:35-52 | the reply is `DeleteVerdict`'s; on success the record stored under the id's key is removed from the collection and the order and its applications are kept; otherwise nothing changes |
| Store.Store.UpdateInternship | backend/controllers/internshipController.js:55-73 | the reply is `UpdateVerdict`'s; on success the patched record replaces the old one; otherwise nothing changes |
| Store.Store.Apply | backend/controllers/applicationController.js:4-25 | the reply is `ApplyVerdict`'s; on success the new application, under a fresh lower-case id, is appended; application ids stay findable and unique, and no pair of internship and applicant is ever stored twice |
| Store.Store.UpdateStatus | backend/controllers/applicationController.js:68-83 | the reply is `StatusVerdict`'s; on success the application found under the id is replaced by the reply's value; on failure nothing changes |
| Store.ReplaceAtFoundId | backend/controllers/applicationController.js:72-77 | with unique ids, replacing the application found under an id leaves every application with another id as it was |
| Views.ViewOf | backend/controllers/applicationController.js:72-79 | the JSON of an application keeps its id, time and message, shows a status that parses back to the stored one (the default "applied" for a cleared one), and an internship exactly when it is still stored |
| Views.ReasonShown | frontend/internshipFinder/src/pages/StudentProfile.jsx:275-277 | a "Reason:" line exactly for a present non-empty message, not for a missing or empty one |
| FindInternship.SortForDisplay | frontend/internshipFinder/src/pages/FindInternship.jsx:36-41 | a permutation of the listings with open ones first, newest first within each group (the order the comparator evidently intends; see Findings) |
| FindInternship.ClosedFlag | frontend/internshipFinder/src/pages/FindInternship.jsx:37-38 | the comparator's flag is true exactly for a closed listing and a falsy non-boolean exactly for an open listing with an empty status |
| FindInternship.EmptyStatusComparesBothWays | frontend/internshipFinder/src/pages/FindInternship.jsx:36-41 | an open listing with an empty status and one with status "Open" each compare before the other under the comparator as written |
| FindInternship.CompareAsWritten | frontend/internshipFinder/src/pages/FindInternship.jsx:36-41 | flags that differ put the truthy-flagged listing last; equal flags give a non-positive answer exactly for the newer or equally old listing first |
| FindInternship.IsClosed | frontend/internshipFinder/src/pages/FindInternship.jsx:230 | closed once the deadline has passed; otherwise closed exactly when the status is non-empty and not "open" in any case |
| FindInternship.CompareIntended | frontend/internshipFinder/src/pages/FindInternship.jsx:36-41 | open before closed, and within a group a non-positive answer exactly for the newer or equally old listing first |
| FindInternship.ComparatorsAgree | frontend/internshipFinder/src/pages/FindInternship.jsx:36-41 | the comparator as written and the intended one agree on every pair of listings whose flags are booleans |
| FindInternship.DisplayFollowsComparator | frontend/internshipFinder/src/pages/FindInternship.jsx:36-41 | the display order never puts a listing after one the intended comparator places later |
| FindInternship.FilterJobs | frontend/internshipFinder/src/pages/FindInternship.jsx:218-233 | an order-keeping subsequence holding exactly the listings that match every filter |
| FindInternship.Matches | frontend/internshipFinder/src/pages/FindInternship.jsx:218-233 | all five tests in one; with every filter empty each listing passes, and hiding closed listings removes every closed one |
| FindInternship.TermMatches | frontend/internshipFinder/src/pages/FindInternship.jsx:219-224 | an empty term matches; otherwise a match exactly when the lower-cased term occurs in the lower-cased title or company |
| FindInternship.LocationMatches | frontend/internshipFinder/src/pages/FindInternship.jsx:225-227 | a blank location matches; a lower-cased occurrence in the listing's location matches; a listing without a location fails any non-blank one |
| FindInternship.Ticked | frontend/internshipFinder/src/pages/FindInternship.jsx:228-229 | no ticked box matches everything; a ticked value matches; a listing without the field matches only when nothing is ticked |
| FindInternship.InitialFiltersShowOpen | frontend/internshipFinder/src/pages/FindInternship.jsx:11-15 | with the initial filters a listing is shown exactly when it is not closed |
| FindInternship.SearchIgnoresCase | frontend/internshipFinder/src/pages/FindInternship.jsx:219-223 | lower-casing the search term never changes which listings match |
| FindInternship.Toggle | frontend/internshipFinder/src/pages/FindInternship.jsx:25-28 | the value's membership flips, every other value's stays; a new value is appended |
| FindInternship.ToggleTwice | frontend/internshipFinder/src/pages/FindInternship.jsx:25-28 | toggling a value twice gives back the same set of values |
| FindInternship.DisplayStatus | frontend/internshipFinder/src/pages/FindInternship.jsx:267-268 | "Closed" for a closed listing; otherwise the stored status, or "Open" when there is none, which then reads "open" in lower case |
| FindInternship.ProfileNeeds | frontend/internshipFinder/src/pages/FindInternship.jsx:93-97 | each missing profile field is listed exactly when missing, in fixed order; the list is empty exactly for a complete profile |
| FindInternship.SkillsMissing | frontend/internshipFinder/src/pages/FindInternship.jsx:97 | skills are missing exactly when the profile lists no skill |
| FindInternship.Complete | frontend/internshipFinder/src/pages/FindInternship.jsx:93-98 | a complete profile has phone, university and degree and lists at least one skill |
| FindInternship.PrefillForm | frontend/internshipFinder/src/pages/FindInternship.jsx:98-104 | phone, university and degree each the profile's value, or "" when missing; the skills joined with ", " |
| FindInternship.FormSkills | frontend/internshipFinder/src/pages/FindInternship.jsx:118 | the skills sent are the tokens of the text box, each non-empty, trimmed and free of commas and newlines |
| FindInternship.PrefillThenSaveKeepsSkills | frontend/internshipFinder/src/pages/FindInternship.jsx:98-118 | saving the prefilled form unchanged sends the stored skills back unchanged |
| FindInternship.Page.HandleApply | frontend/internshipFinder/src/pages/FindInternship.jsx:72-112 | which alert, profile form or apply request a click ends in, exactly when, a failed profile fetch included; the applied set grows by the id only when the server accepts |
| FindInternship.Page.SubmitProfileThenApply | frontend/internshipFinder/src/pages/FindInternship.jsx:114-131 | the parsed skills are sent with a token; the pending apply then goes out, is marked applied and cleared when accepted, and otherwise nothing changes |
| Tally.CountBy | frontend/internshipFinder/src/pages/ManageInternships.jsx:38-43 | each key's count is its number of occurrences; the keys are distinct, exactly the present ones, and the counts add up to the present entries |
| ManageInternships.DeriveStatus | frontend/internshipFinder/src/pages/ManageInternships.jsx:59-71 | "Open" or "Closed"; "Closed" exactly for a passed deadline or a status reading "closed" in any case |
| ManageInternships.CountApplications | frontend/internshipFinder/src/pages/ManageInternships.jsx:38-43 | each internship's count is the number of applications referring to it; applications without an internship are not counted |
| ManageInternships.ApplicantsShown | frontend/internshipFinder/src/pages/ManageInternships.jsx:210 | the shown number is the stored count, 0 for an internship without one |
| ManageInternships.ShownIsOccurrences | frontend/internshipFinder/src/pages/ManageInternships.jsx:210 | the shown number equals the number of applications to that internship |
| ManageInternships.RemoveById | frontend/internshipFinder/src/pages/ManageInternships.jsx:79 | an order-keeping subsequence without the id and with every other entry |
| ManageInternships.CloseById | frontend/internshipFinder/src/pages/ManageInternships.jsx:55-57 | same length; the entries with the id get status "Closed", all others are unchanged |
| ManageInternships.ClosedEntryShowsClosed | frontend/internshipFinder/src/pages/ManageInternships.jsx:55-71 | a closed entry is labelled "Closed" afterwards |
| EmployerDashboard.ActiveCount | frontend/internshipFinder/src/pages/EmployerDashboard.jsx:118 | the number of listings not labelled "Closed": all listings minus the closed ones |
| EmployerDashboard.HiredCount | frontend/internshipFinder/src/pages/EmployerDashboard.jsx:128 | all applications minus those whose status is not exactly "accepted"; zero exactly when none is |
| EmployerDashboard.Recent4 | frontend/internshipFinder/src/pages/EmployerDashboard.jsx:69-77 | at most four listings, newest first, taken from the list; no listing left out is newer than one kept |
| EmployerDashboard.RecentOpenPosts | frontend/internshipFinder/src/pages/EmployerDashboard.jsx:140-141 | exactly the listings labelled "Open" among the four newest, in their newest-first order, each from the list |
| EmployerDashboard.OldestIsCut | frontend/internshipFinder/src/pages/EmployerDashboard.jsx:69-72 | a listing older than four others is not among the four newest |
| EmployerDashboard.OldOpenPostHidden | frontend/internshipFinder/src/pages/EmployerDashboard.jsx:140-141 | when the four newest are closed, the panel is empty even though an older listing is open |
| EmployerDashboard.RecentPanelCanHideOpenPosts | frontend/internshipFinder/src/pages/EmployerDashboard.jsx:140-141 | a concrete list of five where the recent panel shows no open post although one is open |
| EmployerDashboard.StatusBadge | frontend/internshipFinder/src/pages/EmployerDashboard.jsx:177-182 | the badge text for each status, with the raw status (or "Applied") for any other |
| EmployerDashboard.BadgesOfStoredStatuses | frontend/internshipFinder/src/pages/EmployerDashboard.jsx:177-182 | "accepted", "rejected" and "under_review" get their badges; the default "applied", and a cleared status served as it, is shown raw, in lower case |
| EmployerDashboard.HiredIgnoresCapitalised | frontend/internshipFinder/src/pages/EmployerDashboard.jsx:128 | an application with status "Accepted" is not counted as hired |
| ManageApplications.StatusFilter | frontend/internshipFinder/src/pages/ManageInternshipApplications.jsx:131-133 | no filter or "all" keeps the list; otherwise an order-keeping subsequence of exactly the entries whose status matches in any case |
| ManageApplications.AppliedOnlyUnderAll | frontend/internshipFinder/src/pages/ManageInternshipApplications.jsx:110-113 | of the filter buttons, only "all" shows an application still "applied" |
| ManageApplications.SortApps | frontend/internshipFinder/src/pages/ManageInternshipApplications.jsx:134-137 | a permutation sorted newest first for "newest" and oldest first otherwise |
| ManageApplications.Shown | frontend/internshipFinder/src/pages/ManageInternshipApplications.jsx:130-138 | exactly the entries the status filter keeps, each as often, sorted newest first for "newest" and oldest first otherwise; every entry matching the filter is shown |
| ManageApplications.PayloadFor | frontend/internshipFinder/src/pages/ManageInternshipApplications.jsx:81-86 | accepting or reviewing sends an empty message; any other status sends the message when one is given and leaves the field out otherwise |
| ManageApplications.BuildPayload | frontend/internshipFinder/src/pages/ManageInternshipApplications.jsx:81-86 | the body built step by step is the payload above |
| ManageApplications.AcceptClearsReason | frontend/internshipFinder/src/pages/ManageInternshipApplications.jsx:82-83 | an accept stores an empty message, so no reason is shown |
| ManageApplications.RejectKeepsReason | frontend/internshipFinder/src/pages/ManageInternshipApplications.jsx:157-161 | a rejection stores the reason typed into the prompt |
| ManageApplications.ReplaceById | frontend/internshipFinder/src/pages/ManageInternshipApplications.jsx:88 | same length and ids; entries with the updated id become the update, all others are unchanged |
| ManageApplications.ReplaceIdempotent | frontend/internshipFinder/src/pages/ManageInternshipApplications.jsx:88 | applying the same update twice is the same as once |
| ManageApplications.OfferedActions | frontend/internshipFinder/src/pages/ManageInternshipApplications.jsx:151-163 | exactly the three actions other than the current status, in button order |
| ManageApplications.CapitalisedStatusOffersAll | frontend/internshipFinder/src/pages/ManageInternshipApplications.jsx:152 | a status "Accepted" still offers all three actions |
| ManageApplications.ClickRequest | frontend/internshipFinder/src/pages/ManageInternshipApplications.jsx:152-161 | non-reject actions send an empty message; a rejection sends nothing exactly when the prompt is cancelled, else the typed reason |
| StudentProfile.GetInitialAsWritten | frontend/internshipFinder/src/pages/StudentProfile.jsx:9-12 | "?" for a missing or empty name, the upper-cased first character of the trimmed name otherwise, and a failure exactly for a blank name |
| StudentProfile.BlankNameHasNoInitial | frontend/internshipFinder/src/pages/StudentProfile.jsx:11 | the name " " has no initial as written |
| StudentProfile.GetInitial | frontend/internshipFinder/src/pages/StudentProfile.jsx:9-12 | always one character, "?" for a missing or blank name, and equal to the as-written result wherever that has one |
| StudentProfile.InitialOfTrimmedName | frontend/internshipFinder/src/pages/StudentProfile.jsx:11 | a trimmed lower-case name's initial is its first letter upper-cased |
| StudentProfile.FirstName | frontend/internshipFinder/src/pages/StudentProfile.jsx:139 | the greeting's name is the blank-free prefix of the name up to the first blank |
| StudentProfile.SkillsToSend | frontend/internshipFinder/src/pages/StudentProfile.jsx:57-60 | edited text is split into clean skills; a list or no skills is sent unchanged |
| StudentProfile.SkillsBox | frontend/internshipFinder/src/pages/StudentProfile.jsx:227 | nothing shows "", typed text shows as typed, and a list of clean skills is shown as text that splits back into that list |
| StudentProfile.EditedBoxKeepsSkills | frontend/internshipFinder/src/pages/StudentProfile.jsx:227 | the skills shown joined in the text box and saved untouched come back unchanged |
| StudentProfile.ResumeUpload | frontend/internshipFinder/src/pages/StudentProfile.jsx:75-80 | a non-PDF is refused, a PDF without a token is not sent, and a PDF with a token is sent |
| StudentProfile.OwnApplicationLabels | frontend/internshipFinder/src/pages/StudentProfile.jsx:275-285 | the badge is one of four labels, a fresh or cleared application shows "applied", and a reason shows exactly when a non-empty message is stored |
| InternshipDetails.HandleApply | frontend/internshipFinder/src/pages/InternshipDetails.jsx:27-59 | the login page exactly without a token, the request exactly for a complete profile, the profile page exactly when the user confirms the missing fields |
| InternshipDetails.ShownStatus | frontend/internshipFinder/src/pages/InternshipDetails.jsx:97 | the stored status, or "Open" when there is none |
| InternshipDetails.ApplyEnabled | frontend/internshipFinder/src/pages/InternshipDetails.jsx:101 | enabled only when no apply runs and the status line reads "Open"; a record with no status stays disabled |
| PostInternship.InitialForm | frontend/internshipFinder/src/pages/PostInternship.jsx:10-22 | exactly the eleven fields, all empty |
| PostInternship.HandleChange | frontend/internshipFinder/src/pages/PostInternship.jsx:32-34 | the named field takes the value and every other field keeps its own |
| PostInternship.ChangeKeepsFields | frontend/internshipFinder/src/pages/PostInternship.jsx:32-34 | typing into a form field never adds a field |
| PostInternship.Submit | frontend/internshipFinder/src/pages/PostInternship.jsx:36-58 | nothing is sent exactly without a token; PUT to the edited internship in edit mode, POST otherwise; the fields as typed, and as requirements the tokens of the requirements text |
| PostInternship.PrefillForm | frontend/internshipFinder/src/pages/PostInternship.jsx:71-87 | the eleven fields from the record: text fields as stored or "" when missing, a salary through the number format or "" when missing or 0, the deadline through the date format or "", requirements joined with ", " |
| PostInternship.NumberText | frontend/internshipFinder/src/pages/PostInternship.jsx:82-83 | a missing salary and a salary of 0 both show "", any other one its formatted number |
| PostInternship.LoadedForm | frontend/internshipFinder/src/pages/PostInternship.jsx:60-99 | the empty form when not signed in; the fetched record's form in edit mode, its company winning; otherwise the profile's company |
| PostInternship.EditRoundTripKeepsRequirements | frontend/internshipFinder/src/pages/PostInternship.jsx:44-85 | an untouched edit sends the requirements back unchanged by PUT, and the update keeps them |
| PostInternship.CommaSplitsRequirement | frontend/internshipFinder/src/pages/PostInternship.jsx:44 | for any two clean entries a and b, a requirement written "a,b" comes back as the two entries a and b |
| ProtectedRoute.Decide | frontend/internshipFinder/src/components/ProtectedRoute.jsx:5-10 | login exactly without a stored user, home exactly for a role outside a non-empty list, the page otherwise |
| ProtectedRoute.AgreesWithAuthorize | frontend/internshipFinder/src/components/ProtectedRoute.jsx:8 | with a non-empty role list the guard renders, goes to login or goes home exactly when `authorize` passes, answers 401 or answers 403 |
| ProtectedRoute.EmptyRolesDiffer | frontend/internshipFinder/src/components/ProtectedRoute.jsx:8 | an empty role list renders for any user, where `authorize` refuses everyone |
| HomePage.CompanyKey | frontend/internshipFinder/src/pages/HomePage.jsx:32 | the poster's name, else the company, else "Unknown"; never empty |
| HomePage.CompanyCounts | frontend/internshipFinder/src/pages/HomePage.jsx:31-35 | each key's count is its number of posts; the keys are distinct and exactly the keys of some post; counts add up to the posts |
| HomePage.UniqueAtMostPosts | frontend/internshipFinder/src/pages/HomePage.jsx:36-37 | the number of companies never exceeds the number of internships |
| HomePage.Entries | frontend/internshipFinder/src/pages/HomePage.jsx:38 | each key with its count, in key order |
| HomePage.TopCompanies | frontend/internshipFinder/src/pages/HomePage.jsx:38-40 | up to three entries drawn from the count map's entries (a sub-multiset), largest count first, with their counts; none left out has a larger count |
| HomePage.PostLinkShown | frontend/internshipFinder/src/pages/HomePage.jsx:62-80 | shown exactly to visitors and employers |
| HomePage.PostLinkLeadsToForm | frontend/internshipFinder/src/App.jsx:28 | where the link is shown, a visitor is sent to login and an employer reaches the form |
| Openness.SearchPageMatchesServer | backend/controllers/applicationController.js:9-15 | the server refuses an application for its deadline or status exactly when the search page shows the listing closed |
| Openness.LabelAgreesOnKnownStatuses | frontend/internshipFinder/src/pages/ManageInternships.jsx:59-71 | a "Closed" label means closed for the search page; the converse holds for a missing status and for open or closed in any case |
| Openness.PausedIsOpenOnlyForEmployers | frontend/internshipFinder/src/pages/ManageInternships.jsx:62-68 | a "Paused" listing is labelled "Open" for its employer but is closed for the search page, the details page and the server |
| Openness.DetailsIgnoreDeadline | frontend/internshipFinder/src/pages/InternshipDetails.jsx:101 | an "Open" listing past its deadline has its button enabled, while the server refuses with the deadline message |
| Openness.LowerCaseOpenIsDisabled | frontend/internshipFinder/src/pages/InternshipDetails.jsx:101 | status "open" disables the button though the search page and server accept it |
| Text.Tokens | frontend/internshipFinder/src/pages/FindInternship.jsx:118 | the split-trim-drop-empty chain yields only non-empty, trimmed entries free of commas and newlines; which entries, the two lemmas below |
| Text.TokensAtSep | frontend/internshipFinder/src/pages/FindInternship.jsx:118 | a comma or newline cuts the text into two parts whose tokens, in order, are the tokens of the whole |
| Text.TokensOfPiece | frontend/internshipFinder/src/pages/FindInternship.jsx:118 | a part without commas and newlines gives its trimmed self, or nothing when that is empty |
| Text.SplitAtSep | frontend/internshipFinder/src/pages/PostInternship.jsx:44 | splitting at a separator gives the pieces before it and then the pieces after it |
| Text.CleanAppend | frontend/internshipFinder/src/pages/PostInternship.jsx:44 | trimming and dropping blanks works piece by piece |
| Text.TokensOfJoin | frontend/internshipFinder/src/pages/StudentProfile.jsx:227 | joining clean entries with ", " and splitting again gives the entries back |
| Seqs.TopBy | frontend/internshipFinder/src/pages/EmployerDashboard.jsx:69-77 | the k largest by key, largest first, drawn from the input, none left out larger |
| Seqs.FilterSortedDesc | frontend/internshipFinder/src/pages/EmployerDashboard.jsx:140-141 | filtering a newest-first list keeps it newest first |

## Left out

- The back end's `populate` projections (name and email of the applicant, title and company of the internship): a view keeps only whether the internship is still stored.
- Token signing and verification are not part of this model; `verify` is a parameter.
- Date parsing and formatting: dates are integers, a missing date is `None`; an unparseable date is not modelled.
- Concurrency: the controllers' check-then-create is modelled sequentially, so two simultaneous applies are not covered.
- React rendering, routing and effects; `alert`, `confirm` and `prompt` are inputs or outcomes.
- The HTTP client (api.js), the server set-up (server.js), the user routes (sign-up, login, profile update, résumé storage) and the helper scripts are not part of this model; of the user routes only the client-side PDF gate and the skills parsing are modelled.
- The schemas' `updatedAt` timestamp and fields only shown on pages (description, duration, phone on the dashboard, and similar) are carried where an operation copies them, and not otherwise.
- The object-id cast is modelled on the 24-hex-digit form, in either case; the 12-byte form is not accepted.
- Case folding (`toLowerCase`, `toUpperCase`) is ASCII only; the messages of library errors in the 500 branches are fixed strings.
- The order of `Object.keys` and `Object.entries` is insertion order; integer-like keys, which JavaScript lists first, are not distinguished.
- Number and date formatting in the edit prefill are parameters.
- Sorting a copy in place (`slice().sort(...)`) is modelled on values: the result is specified as a sorted permutation, not as a particular stable order of equal keys.
- JSON `null` in an edit body or a create body is treated like a missing field. The source keeps an explicit `null` on create (a default applies only to a missing field), so an internship created with `status: null` is stored with no status; the model stores the default "Open" instead, and the details page's apply button, disabled for such a record, is enabled in the model.
- FindInternship.Page.SubmitProfileThenApply: a failed profile save (a rejected request) is not a separate outcome; only the token and the server's answer to the apply are inputs.
- ManageInternships.DeriveStatus: an unparseable deadline is ignored by the page and counts as no deadline; dates are integers here, so that case cannot be expressed, and the `catch` branch is not modelled.
- The sign-up page, the employer profile page, the navigation bar and the footer are not part of this model.
- ApplicationController.StatusVerdict: a `status` sent as null is not modelled (only a missing one, which clears the status); a message stored as null and a missing one are the same `None`, as the pages treat them alike.
- FindInternship.SortForDisplay: states the order the page's comparator evidently intends; for an open listing with an empty status the comparator as written is inconsistent, so the order the browser's sort then yields is not modelled (see Findings).

## Findings

| source | as written | input that shows it | evidently intended | confidence | as-written member | corrected member |
|---|---|---|---|---|---|---|
| frontend/internshipFinder/src/pages/StudentProfile.jsx:9-12 | for any non-empty name the initial is the first character of the trimmed name; the same helper is in FindInternship.jsx lines 7-10 and PostInternship.jsx lines 6-9 | a name made only of blanks, such as " ": the trimmed name is empty, its first character is undefined and upper-casing it throws | "?" for a blank name, as for an empty one | not executed; high | StudentProfile.BlankNameHasNoInitial | StudentProfile.GetInitial |
| frontend/internshipFinder/src/pages/FindInternship.jsx:36-41 | the closed flag is `(deadline test) || (status && status test)`, which is the empty status itself, not `false`, for an open listing with an empty status; flags are compared with `!==` | an open listing with status "" and one with status "Open": each compares before the other, so the comparator is inconsistent and the sort's result is the engine's choice | open listings first, newest first within each group, with an empty status counting as open | not executed; medium | FindInternship.EmptyStatusComparesBothWays | FindInternship.SortForDisplay |
