/**
 * The employer's internship table: the Open/Closed label, the applicant count
 * per internship, and the local list updates after a delete or a close.
 */
module ManageInternships {
  import opened Wrappers
  import opened Models
  import Text
  import Seqs
  import Tally

  /**
   * `deriveStatus` (the dashboard defines the same function): "Closed" when the
   * status is "closed" in any case, or when the deadline lies strictly before
   * now; otherwise "Open". Any other status text, "Paused" say, reads "Open".
   */
  function DeriveStatus(job: Internship, now: int): (r: string)
    ensures r == "Open" || r == "Closed"
    ensures r == "Closed" <==>
      (job.status != "" && Text.Lower(job.status) == "closed") || (job.applyBy.Some? && job.applyBy.value < now)
  {
    if job.status != "" && Text.Lower(job.status) == "closed" then "Closed"
    else if job.applyBy.Some? && job.applyBy.value < now then "Closed"
    else "Open"
  }

  /**
   * The count map built from the received applications: every application that
   * still references an internship adds one to that internship's count; the
   * others are skipped. The counts add up to the number of applications with a
   * reference.
   */
  method CountApplications(refs: seq<Option<Id>>) returns (counts: map<Id, nat>, keys: seq<Id>)
    ensures forall id :: id in counts <==> Some(id) in refs
    ensures forall id :: id in counts ==> counts[id] == multiset(refs)[Some(id)]
    ensures Tally.Distinct(keys) && forall id :: id in keys <==> id in counts
    ensures Tally.Sum(keys, counts) == |refs| - multiset(refs)[None]
  {
    counts, keys := Tally.CountBy(refs);
  }

  /** The applicants column: the count, or 0 for an internship with no entry. */
  function ApplicantsShown(counts: map<Id, nat>, id: Id): (n: nat)
    ensures id !in counts ==> n == 0
    ensures id in counts ==> n == counts[id]
  {
    if id in counts then counts[id] else 0
  }

  /** The column shows how many received applications reference the internship, zero included. */
  lemma ShownIsOccurrences(refs: seq<Option<Id>>, counts: map<Id, nat>, id: Id)
    requires forall x :: x in counts <==> Some(x) in refs
    requires forall x :: x in counts ==> counts[x] == multiset(refs)[Some(x)]
    ensures ApplicantsShown(counts, id) == multiset(refs)[Some(id)]
  {
  }

  /** `handleDelete`'s list update: the deleted id leaves, the rest stay in order. */
  function RemoveById(list: seq<Internship>, id: Id): (r: seq<Internship>)
    ensures Seqs.IsSubseq(r, list)
    ensures forall k :: 0 <= k < |r| ==> r[k].id != id
    ensures forall k :: 0 <= k < |list| && list[k].id != id ==> list[k] in r
  {
    Seqs.Filter(list, (i: Internship) => i.id != id)
  }

  /** `handleClose`'s list update: only the matching entry changes, and only its status, to "Closed". */
  function CloseById(list: seq<Internship>, id: Id): (r: seq<Internship>)
    ensures |r| == |list|
    ensures forall k :: 0 <= k < |r| && list[k].id != id ==> r[k] == list[k]
    ensures forall k :: 0 <= k < |r| && list[k].id == id ==> r[k] == list[k].(status := "Closed")
  {
    seq(|list|, k requires 0 <= k < |list| => if list[k].id == id then list[k].(status := "Closed") else list[k])
  }

  /** A closed entry is labelled "Closed" whatever its deadline. */
  lemma ClosedEntryShowsClosed(list: seq<Internship>, id: Id, k: nat, now: int)
    requires k < |list| && list[k].id == id
    ensures DeriveStatus(CloseById(list, id)[k], now) == "Closed"
  {
    assert Text.Lower("Closed") == "closed";
  }
}
