/**
 * The landing page: internships counted per company, the figures built from
 * those counts, the three top companies, and who is shown the link to post.
 */
module HomePage {
  import opened Wrappers
  import opened Models
  import Seqs
  import Tally
  import ProtectedRoute

  /** What the page reads of each listed internship: the poster's name, if the list carries it, and the company. */
  datatype Post = Post(posterName: Option<string>, company: string)

  /** The name a post is counted under: the poster's name, else the company, else "Unknown". */
  function CompanyKey(p: Post): (key: string)
    ensures key != ""
    ensures Present(p.posterName) ==> key == p.posterName.value
    ensures !Present(p.posterName) && p.company != "" ==> key == p.company
    ensures !Present(p.posterName) && p.company == "" ==> key == "Unknown"
  {
    if Present(p.posterName) then p.posterName.value
    else if p.company != "" then p.company
    else "Unknown"
  }

  function Keys(posts: seq<Post>): (xs: seq<Option<string>>)
    ensures |xs| == |posts|
    ensures forall i :: 0 <= i < |posts| ==> xs[i] == Some(CompanyKey(posts[i]))
  {
    seq(|posts|, i requires 0 <= i < |posts| => Some(CompanyKey(posts[i])))
  }

  /**
   * The `reduce` that counts posts per key: every post adds one to its key's
   * count, the counts add up to the number of posts, and the keys come out
   * once each, in the order first seen.
   */
  method CompanyCounts(posts: seq<Post>) returns (counts: map<string, nat>, keys: seq<string>)
    ensures forall k :: k in counts <==> exists i :: 0 <= i < |posts| && CompanyKey(posts[i]) == k
    ensures forall k :: k in counts ==> counts[k] == multiset(Keys(posts))[Some(k)] && counts[k] > 0
    ensures Tally.Distinct(keys) && forall k :: k in keys <==> k in counts
    ensures Tally.Sum(keys, counts) == |posts|
  {
    var xs := Keys(posts);
    counts, keys := Tally.CountBy(xs);
    assert None !in multiset(xs);
    forall k ensures k in counts <==> exists i :: 0 <= i < |posts| && CompanyKey(posts[i]) == k {
      if k in counts {
        var i :| 0 <= i < |xs| && xs[i] == Some(k);
      }
    }
  }

  /**
   * "Companies" and "Active Users Now" are both the number of distinct keys; as
   * every key counts at least one post, it never exceeds the number of internships.
   */
  lemma {:induction false} UniqueAtMostPosts(keys: seq<string>, counts: map<string, nat>)
    requires forall k :: k in keys ==> k in counts && counts[k] > 0
    ensures |keys| <= Tally.Sum(keys, counts)
    decreases |keys|
  {
    if keys != [] {
      var init := keys[..|keys| - 1];
      assert forall k :: k in init ==> k in keys;
      UniqueAtMostPosts(init, counts);
    }
  }

  function Count(e: (string, nat)): int {
    e.1
  }

  /** `Object.entries` of the count map: each key with its count, in key order. */
  function Entries(keys: seq<string>, counts: map<string, nat>): (es: seq<(string, nat)>)
    requires forall k :: k in keys ==> k in counts
    ensures |es| == |keys|
    ensures forall i :: 0 <= i < |keys| ==> es[i] == (keys[i], counts[keys[i]])
  {
    seq(|keys|, i requires 0 <= i < |keys| => (keys[i], counts[keys[i]]))
  }

  /**
   * The top companies: at most three entries of the count map, largest count
   * first, and no entry left out has a larger count than one that is shown.
   */
  function TopCompanies(keys: seq<string>, counts: map<string, nat>): (top: seq<(string, nat)>)
    requires forall k :: k in keys ==> k in counts
    ensures |top| == if |keys| < 3 then |keys| else 3
    ensures Seqs.SortedDesc(top, Count)
    ensures multiset(top) <= multiset(Entries(keys, counts))
    ensures forall e :: e in top ==> e.0 in counts && e.1 == counts[e.0]
    ensures forall e, f :: e in multiset(Entries(keys, counts)) - multiset(top) && f in top ==> e.1 <= f.1
  {
    var es := Entries(keys, counts);
    var top := Seqs.TopBy(es, Count, 3);
    DrawnEntries(es, top, counts);
    top
  }

  /** Entries drawn from the count map's entries carry a key of the map and its count. */
  lemma DrawnEntries(es: seq<(string, nat)>, top: seq<(string, nat)>, counts: map<string, nat>)
    requires forall i :: 0 <= i < |es| ==> es[i].0 in counts && es[i].1 == counts[es[i].0]
    requires multiset(top) <= multiset(es)
    ensures forall e :: e in top ==> e.0 in counts && e.1 == counts[e.0]
  {
    forall e | e in top ensures e.0 in counts && e.1 == counts[e.0] {
      assert e in multiset(es);
      var i :| 0 <= i < |es| && es[i] == e;
    }
  }

  /** The "Post an Internship" link: shown to visitors and to employers, hidden from students. */
  function PostLinkShown(userRole: Option<string>): (shown: bool)
    ensures shown <==> userRole.None? || userRole.value == "employer"
  {
    match userRole
    case None => true
    case Some(role) => role == "employer"
  }

  /**
   * Following the link reaches the posting form only for an employer: the route
   * guarding the form admits employers alone and sends a visitor to the login page.
   */
  lemma PostLinkLeadsToForm(userRole: Option<string>)
    requires PostLinkShown(userRole)
    ensures userRole.None? ==> ProtectedRoute.Decide(userRole, ["employer"]) == ProtectedRoute.ToLogin
    ensures userRole.Some? ==> ProtectedRoute.Decide(userRole, ["employer"]) == ProtectedRoute.Render
  {
  }
}
