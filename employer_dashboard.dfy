/**
 * The employer dashboard: the three figures, the two "recent" panels, and the
 * status badge, which the student profile page shows too. The Open/Closed label
 * is `ManageInternships.DeriveStatus`, of which the dashboard holds an identical
 * copy; its delete updates the list as `ManageInternships.RemoveById` does.
 */
module EmployerDashboard {
  import opened Wrappers
  import opened Models
  import opened Views
  import Text
  import Seqs
  import ManageInternships

  /** "Active Internships": how many internships are labelled Open. */
  function ActiveCount(list: seq<Internship>, now: int): (n: nat)
    ensures n <= |list|
    ensures n == |list| - |Seqs.Filter(list, (i: Internship) => ManageInternships.DeriveStatus(i, now) == "Closed")|
  {
    var openOnes := Seqs.Filter(list, (i: Internship) => ManageInternships.DeriveStatus(i, now) == "Open");
    var closedOnes := Seqs.Filter(list, (i: Internship) => ManageInternships.DeriveStatus(i, now) == "Closed");
    Seqs.FilterPartition(list, (i: Internship) => ManageInternships.DeriveStatus(i, now) == "Open",
                               (i: Internship) => ManageInternships.DeriveStatus(i, now) == "Closed");
    assert |multiset(openOnes)| + |multiset(closedOnes)| == |multiset(list)|;
    |openOnes|
  }

  /** "Hired Interns": applications whose status is exactly "accepted"; "Total Applicants" is the list length. */
  function HiredCount(apps: seq<AppView>): (n: nat)
    ensures n <= |apps|
    ensures n == 0 <==> forall k :: 0 <= k < |apps| ==> apps[k].status != "accepted"
    ensures n == |apps| - |Seqs.Filter(apps, (a: AppView) => a.status != "accepted")|
  {
    var hired := Seqs.Filter(apps, (a: AppView) => a.status == "accepted");
    var others := Seqs.Filter(apps, (a: AppView) => a.status != "accepted");
    Seqs.FilterPartition(apps, (a: AppView) => a.status == "accepted", (a: AppView) => a.status != "accepted");
    assert |multiset(hired)| + |multiset(others)| == |multiset(apps)|;
    assert hired != [] ==> hired[0].status == "accepted" && hired[0] in apps;
    |hired|
  }

  /**
   * The four newest entries of a copy of the list, newest first: never more
   * than four, each from the list, and nothing left out is newer than what is shown.
   */
  function Recent4<T(!new)>(list: seq<T>, createdAt: T -> int): (r: seq<T>)
    ensures |r| == if |list| < 4 then |list| else 4
    ensures Seqs.SortedDesc(r, createdAt)
    ensures multiset(r) <= multiset(list)
    ensures forall x, y :: x in multiset(list) - multiset(r) && y in r ==> createdAt(x) <= createdAt(y)
  {
    Seqs.TopBy(list, createdAt, 4)
  }

  /**
   * "Recent Internship Posts": the Open ones among the four newest internships,
   * every one of them, in the newest-first order of that cut.
   */
  function RecentOpenPosts(list: seq<Internship>, now: int): (r: seq<Internship>)
    ensures |r| <= 4
    ensures Seqs.IsSubseq(r, Recent4(list, CreatedAt))
    ensures Seqs.SortedDesc(r, CreatedAt)
    ensures forall k :: 0 <= k < |r| ==> ManageInternships.DeriveStatus(r[k], now) == "Open" && r[k] in list
    ensures forall x :: x in Recent4(list, CreatedAt) && ManageInternships.DeriveStatus(x, now) == "Open" ==> x in r
  {
    var recent := Recent4(list, CreatedAt);
    var r := Seqs.Filter(recent, (i: Internship) => ManageInternships.DeriveStatus(i, now) == "Open");
    forall k | 0 <= k < |r| ensures r[k] in list {
      assert r[k] in multiset(recent);
      assert r[k] in multiset(list);
    }
    Seqs.FilterSortedDesc(recent, (i: Internship) => ManageInternships.DeriveStatus(i, now) == "Open", CreatedAt);
    r
  }

  function Job(id: Id, status: string, createdAt: int): Internship {
    Internship(id, "Intern", "Acme", None, None, None, None, None, None, None, status, None, [], id, createdAt)
  }

  /** An entry older than every other one is cut from a list of five or more. */
  lemma {:induction false} OldestIsCut<T(!new)>(list: seq<T>, createdAt: T -> int, i: nat)
    requires |list| >= 5 && i < |list| && multiset(list)[list[i]] == 1
    requires forall k :: 0 <= k < |list| && k != i ==> createdAt(list[k]) > createdAt(list[i])
    ensures list[i] !in Recent4(list, createdAt)
  {
    var recent := Recent4(list, createdAt);
    var lost := multiset(list) - multiset(recent);
    assert |multiset(recent)| == 4 && |multiset(list)| == |list|;
    assert |lost| > 0;
    var y :| y in lost;
    var k :| 0 <= k < |list| && list[k] == y;
    if k == i {
      assert multiset(recent)[list[i]] == 0;
    } else {
      assert createdAt(y) > createdAt(list[i]);
    }
  }

  /**
   * The panel filters after cutting to four: when the one open post is older
   * than four closed ones, the panel is empty although an open internship exists.
   */
  lemma {:induction false} OldOpenPostHidden(list: seq<Internship>, now: int, i: nat)
    requires |list| >= 5 && i < |list| && multiset(list)[list[i]] == 1
    requires forall k :: 0 <= k < |list| && k != i ==> list[k].createdAt > list[i].createdAt
    requires forall k :: 0 <= k < |list| && k != i ==> ManageInternships.DeriveStatus(list[k], now) == "Closed"
    ensures RecentOpenPosts(list, now) == []
  {
    OldestIsCut(list, CreatedAt, i);
    var recent := Recent4(list, CreatedAt);
    forall x | x in recent && x in list ensures ManageInternships.DeriveStatus(x, now) == "Closed" {
      var j :| 0 <= j < |list| && list[j] == x;
      assert j != i;
    }
    NoneOpenAmongRecent(list, now);
  }

  lemma NoneOpenAmongRecent(list: seq<Internship>, now: int)
    requires forall x :: x in Recent4(list, CreatedAt) && x in list ==> ManageInternships.DeriveStatus(x, now) == "Closed"
    ensures RecentOpenPosts(list, now) == []
  {
    var r := RecentOpenPosts(list, now);
    if r != [] {
      assert false;
    }
  }

  /** A concrete case: four closed posts, newer than the single open one, fill the panel's cut. */
  lemma RecentPanelCanHideOpenPosts(now: int)
    ensures var list := [Job("a", "Closed", 5), Job("b", "Closed", 4), Job("c", "Closed", 3),
                         Job("d", "Closed", 2), Job("e", "Open", 1)];
      ManageInternships.DeriveStatus(list[4], now) == "Open" && RecentOpenPosts(list, now) == []
  {
    var list := [Job("a", "Closed", 5), Job("b", "Closed", 4), Job("c", "Closed", 3),
                 Job("d", "Closed", 2), Job("e", "Open", 1)];
    JobLabels(now);
    OnlyOnce(list);
    OldOpenPostHidden(list, now, 4);
  }

  lemma JobLabels(now: int)
    ensures forall id, t :: ManageInternships.DeriveStatus(Job(id, "Closed", t), now) == "Closed"
    ensures forall id, t :: ManageInternships.DeriveStatus(Job(id, "Open", t), now) == "Open"
  {
    assert Text.Lower("Closed") == "closed";
    assert Text.Lower("Open") == "open";
  }

  lemma OnlyOnce(list: seq<Internship>)
    requires list == [Job("a", "Closed", 5), Job("b", "Closed", 4), Job("c", "Closed", 3),
                      Job("d", "Closed", 2), Job("e", "Open", 1)]
    ensures multiset(list)[list[4]] == 1
  {
    assert list == list[..4] + [list[4]];
    assert list[4] !in list[..4];
  }

  /**
   * The status badge, ignoring case: Accepted, Rejected, Under Review (for
   * "under_review" or "review"); any other status is shown as it is, and a
   * missing one as "Applied".
   */
  function StatusBadge(status: string): (badge: string)
    ensures Text.Lower(status) == "accepted" ==> badge == "Accepted"
    ensures Text.Lower(status) == "rejected" ==> badge == "Rejected"
    ensures Text.Lower(status) == "under_review" || Text.Lower(status) == "review" ==> badge == "Under Review"
    ensures Text.Lower(status) !in {"accepted", "rejected", "under_review", "review"} ==>
      badge == (if status == "" then "Applied" else status)
  {
    var s := Text.Lower(status);
    if s == "accepted" then "Accepted"
    else if s == "rejected" then "Rejected"
    else if s == "under_review" || s == "review" then "Under Review"
    else if status == "" then "Applied"
    else status
  }

  /**
   * The badge of each status the server stores: the default "applied" matches
   * no case and is shown in its raw lower-case form, and so is a cleared status,
   * which is served as that default.
   */
  lemma BadgesOfStoredStatuses()
    ensures StatusBadge(StatusName(Accepted)) == "Accepted"
    ensures StatusBadge(StatusName(Rejected)) == "Rejected"
    ensures StatusBadge(StatusName(UnderReview)) == "Under Review"
    ensures StatusBadge(StatusName(Applied)) == "applied"
    ensures StatusBadge(StatusName(Unset)) == "applied"
  {
    assert Text.Lower("accepted") == "accepted";
    assert Text.Lower("rejected") == "rejected";
    assert Text.Lower("under_review") == "under_review";
    assert Text.Lower("applied") == "applied";
  }

  /** The hired count is case-sensitive while the badge is not: "Accepted" shows as accepted but is not counted. */
  lemma HiredIgnoresCapitalised(id: Id)
    ensures var app := AppView(id, None, "Accepted", None, 0);
      StatusBadge(app.status) == "Accepted" && HiredCount([app]) == 0
  {
    assert Text.Lower("Accepted") == "accepted";
  }
}
