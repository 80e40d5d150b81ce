/** Properties of the session controller that relate several operations:
    the store invariants every write keeps, ownership, and the
    draft/published transitions. */
module Lifecycle {
  import opened Common
  import opened Envelope
  import Seqs
  import opened Sessions

  /** Writes never remove a record, and no record changes its id or owner. */
  ghost predicate IdsAndOwnersKept(before: Store, after: Store)
  {
    && |before| <= |after|
    && forall i :: 0 <= i < |before| ==> after[i].id == before[i].id && after[i].owner == before[i].owner
  }

  /** Records of anyone other than `caller` are left exactly as they were. */
  ghost predicate OthersUntouched(before: Store, after: Store, caller: UserId)
  {
    && |before| <= |after|
    && forall i :: 0 <= i < |before| && before[i].owner != caller ==> after[i] == before[i]
  }

  /** Every record has a title and a payload URL. */
  ghost predicate Complete(store: Store)
  {
    forall i :: 0 <= i < |store| ==> store[i].title != "" && store[i].jsonFileUrl != ""
  }

  /** The store invariant kept by every write. */
  ghost predicate Valid(store: Store)
  {
    UniqueIds(store) && Complete(store)
  }

  /** A successful save-draft keeps ids unique (given a fresh id for a new
      record) and every record complete, changes no id or owner, and touches
      no record of another user. */
  lemma SaveDraftPreserves(store: Store, caller: UserId, body: Body, now: int, freshId: SessionId)
    requires Valid(store) && !IdUsed(store, freshId)
    requires SaveDraftSession(store, caller, body, now, freshId).Ok?
    ensures var after := SaveDraftSession(store, caller, body, now, freshId).value.store;
      && Valid(after)
      && IdsAndOwnersKept(store, after)
      && OthersUntouched(store, after, caller)
  {
    var after := SaveDraftSession(store, caller, body, now, freshId).value.store;
    if !FieldTruthy(body, "sessionId") {
      assert after == store + [after[|store|]];
      forall i, j | 0 <= i < j < |after| ensures after[i].id != after[j].id {
        if j == |store| {
          assert after[i] == store[i];
        }
      }
    } else {
      assert |after| == |store|;
    }
  }

  /** The same for publish, which never adds a record. */
  lemma PublishPreserves(store: Store, caller: UserId, body: Body, now: int)
    requires Valid(store)
    requires PublishSession(store, caller, body, now).Ok?
    ensures var after := PublishSession(store, caller, body, now).value.store;
      && Valid(after)
      && |after| == |store|
      && IdsAndOwnersKept(store, after)
      && OthersUntouched(store, after, caller)
  {
  }

  /** Every published record carries a title and a payload URL. Publish
      checks neither; the invariant holds only because every record was
      created by save-draft, which rejects an empty title or URL. */
  lemma PublishedRecordsComplete(store: Store)
    requires Complete(store)
    ensures forall i :: 0 <= i < |GetPublicSessions(store).data| ==>
      GetPublicSessions(store).data[i].title != "" && GetPublicSessions(store).data[i].jsonFileUrl != ""
  {
  }

  /** After a successful save-draft, the caller can look the record up under
      its id and gets exactly what was saved. */
  lemma SaveThenLookup(store: Store, caller: UserId, body: Body, now: int, freshId: SessionId)
    requires Valid(store) && !IdUsed(store, freshId)
    requires SaveDraftSession(store, caller, body, now, freshId).Ok?
    ensures var saved := SaveDraftSession(store, caller, body, now, freshId).value;
      GetSessionById(saved.store, caller, saved.response.data.id).Ok?
      && GetSessionById(saved.store, caller, saved.response.data.id).value.data == saved.response.data
  {
    var saved := SaveDraftSession(store, caller, body, now, freshId).value;
    SaveDraftPreserves(store, caller, body, now, freshId);
    var rec := saved.response.data;
    var k :| 0 <= k < |saved.store| && saved.store[k] == rec;
    assert Owns(saved.store, caller, rec.id);
    var found := FindOwned(saved.store, caller, rec.id);
    assert found.value == k;
  }

  /** Publishing the caller's record puts it into the public listing,
      with its title, tags and URL untouched. */
  lemma PublishThenListed(store: Store, caller: UserId, body: Body, now: int)
    requires UniqueIds(store)
    requires PublishSession(store, caller, body, now).Ok?
    ensures var saved := PublishSession(store, caller, body, now).value;
      && saved.response.data in GetPublicSessions(saved.store).data
      && exists i :: 0 <= i < |store| && store[i].id == saved.response.data.id
           && store[i].title == saved.response.data.title
           && store[i].tags == saved.response.data.tags
           && store[i].jsonFileUrl == saved.response.data.jsonFileUrl
  {
    var saved := PublishSession(store, caller, body, now).value;
    var i := FindOwned(store, caller, body["sessionId"].s).value;
    assert saved.store[i] == saved.response.data;
  }

  /** Saving a published record as a draft demotes it: it leaves the public
      listing. */
  lemma SaveDraftDemotes(store: Store, caller: UserId, body: Body, now: int, freshId: SessionId, i: nat)
    requires UniqueIds(store) && i < |store|
    requires store[i].status == Published && store[i].owner == caller
    requires FieldTruthy(body, "sessionId") && body["sessionId"] == Str(store[i].id)
    requires SaveDraftSession(store, caller, body, now, freshId).Ok?
    ensures var after := SaveDraftSession(store, caller, body, now, freshId).value.store;
      && after[i].id == store[i].id && after[i].status == Draft
      && forall k :: 0 <= k < |GetPublicSessions(after).data| ==>
           GetPublicSessions(after).data[k].id != store[i].id
  {
    var after := SaveDraftSession(store, caller, body, now, freshId).value.store;
    var listed := GetPublicSessions(after).data;
    forall k | 0 <= k < |listed| ensures listed[k].id != store[i].id {
      var j :| 0 <= j < |after| && after[j] == listed[k];
      if j != i {
        assert after[j] == store[j];
      }
    }
  }
}
