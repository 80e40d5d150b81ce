/** The "My Sessions" page (`frontend/src/pages/MySessions.tsx`): the fetched
    records are split by status into the drafts tab and the published tab. */
module SessionTabs {
  import opened Common
  import Seqs
  import opened Sessions

  predicate IsDraft(s: Session) { s.status == Draft }

  datatype Tabs = Tabs(drafts: seq<Session>, published: seq<Session>)

  /** `sessions.filter(s => s.status === "draft")` and the same for
      "published". */
  function SplitByStatus(sessions: seq<Session>): (t: Tabs)
    ensures forall i :: 0 <= i < |t.drafts| ==> t.drafts[i] in sessions && t.drafts[i].status == Draft
    ensures forall i :: 0 <= i < |t.published| ==> t.published[i] in sessions && t.published[i].status == Published
    ensures forall i :: 0 <= i < |sessions| && sessions[i].status == Draft ==> sessions[i] in t.drafts
    ensures forall i :: 0 <= i < |sessions| && sessions[i].status == Published ==> sessions[i] in t.published
  {
    Seqs.FilterMembers(sessions, IsDraft);
    Seqs.FilterMembers(sessions, IsPublished);
    Tabs(Seqs.Filter(sessions, IsDraft), Seqs.Filter(sessions, IsPublished))
  }

  /** The two tabs share no record, and since every status is draft or
      published, together they hold every fetched record exactly once. */
  lemma TabsPartition(sessions: seq<Session>)
    ensures var t := SplitByStatus(sessions);
      && (forall i, j :: 0 <= i < |t.drafts| && 0 <= j < |t.published| ==> t.drafts[i] != t.published[j])
      && |t.drafts| + |t.published| == |sessions|
      && multiset(t.drafts) + multiset(t.published) == multiset(sessions)
  {
    Seqs.FilterSplit(sessions, IsDraft, IsPublished);
  }

  /** Splitting keeps the fetched order: the tabs of a concatenation are the
      concatenations of the tabs. */
  lemma TabsKeepOrder(a: seq<Session>, b: seq<Session>)
    ensures SplitByStatus(a + b).drafts == SplitByStatus(a).drafts + SplitByStatus(b).drafts
    ensures SplitByStatus(a + b).published == SplitByStatus(a).published + SplitByStatus(b).published
  {
    Seqs.FilterConcat(a, b, IsDraft);
    Seqs.FilterConcat(a, b, IsPublished);
  }

  /** The tabs of the caller's listing hold only the caller's records, and
      every draft of the caller appears in the drafts tab. */
  lemma MyTabsAreMine(store: Store, caller: UserId)
    ensures var t := SplitByStatus(GetMySessions(store, caller).data);
      && (forall i :: 0 <= i < |t.drafts| ==> t.drafts[i].owner == caller)
      && (forall i :: 0 <= i < |t.published| ==> t.published[i].owner == caller)
      && (forall i :: 0 <= i < |store| && store[i].owner == caller && store[i].status == Draft ==> store[i] in t.drafts)
  {
    var listed := GetMySessions(store, caller).data;
    var t := SplitByStatus(listed);
    forall i | 0 <= i < |store| && store[i].owner == caller && store[i].status == Draft
      ensures store[i] in t.drafts
    {
      var k :| 0 <= k < |listed| && listed[k] == store[i];
    }
  }
}
