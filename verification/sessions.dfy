/** The wellness-session controller (`backend/controllers/session.controller.js`)
    as pure operations over an in-memory store of session records. The
    authenticated caller's id is a parameter (`req.user._id`); the clock
    (`new Date()`) is the parameter `now`; the id the store assigns to a new
    record is the parameter `freshId`. Every write is a conditional update
    keyed on both the record id and the caller. */
module Sessions {
  import opened Common
  import opened Envelope
  import Seqs

  type SessionId = string

  datatype Status = Draft | Published

  datatype Session = Session(
    id: SessionId,
    owner: UserId,
    title: string,
    tags: seq<string>,
    jsonFileUrl: string,
    status: Status,
    createdAt: int,
    updatedAt: int)

  /** The session collection, in insertion order. */
  type Store = seq<Session>

  /** A write that succeeded: the new store and the reply sent to the client. */
  datatype Saved = Saved(store: Store, response: ApiResponse<Session>)

  /** No two records share an id. */
  ghost predicate UniqueIds(store: Store)
  {
    forall i, j :: 0 <= i < j < |store| ==> store[i].id != store[j].id
  }

  predicate IdUsed(store: Store, id: SessionId)
  {
    exists i :: 0 <= i < |store| && store[i].id == id
  }

  /** The record `id` exists and belongs to `caller`. */
  predicate Owns(store: Store, caller: UserId, id: SessionId)
  {
    exists i :: 0 <= i < |store| && store[i].id == id && store[i].owner == caller
  }

  predicate IsPublished(s: Session) { s.status == Published }

  function CreatedAt(s: Session): int { s.createdAt }

  function UpdatedAt(s: Session): int { s.updatedAt }

  /** The position of the record matched by the filter `{ _id: id, user: caller }`. */
  function FindOwned(store: Store, caller: UserId, id: SessionId): (r: Option<nat>)
    ensures r.Some? ==> r.value < |store| && store[r.value].id == id && store[r.value].owner == caller
    ensures r.None? <==> !Owns(store, caller, id)
  {
    if store == [] then None
    else if store[0].id == id && store[0].owner == caller then Some(0)
    else
      var r := FindOwned(store[1..], caller, id);
      assert forall i :: 1 <= i < |store| ==> store[i] == store[1..][i - 1];
      if r.Some? then Some(r.value + 1) else None
  }

  /** `GET /sessions`, the one session route that needs no login: every
      published record, newest-created first. */
  function GetPublicSessions(store: Store): (r: ApiResponse<seq<Session>>)
    ensures r.statusCode == 200 && r.success && r.message == "Public sessions fetched"
    ensures forall i :: 0 <= i < |r.data| ==> r.data[i] in store && r.data[i].status == Published
    ensures forall i :: 0 <= i < |store| && store[i].status == Published ==> store[i] in r.data
    ensures multiset(r.data) == multiset(Seqs.Filter(store, IsPublished))
    ensures Seqs.SortedDesc(r.data, CreatedAt)
  {
    var found := Seqs.Filter(store, IsPublished);
    Seqs.FilterMembers(store, IsPublished);
    var sorted := Seqs.SortDesc(found, CreatedAt);
    Seqs.SameElements(sorted, found);
    NewApiResponse(200, sorted, Some("Public sessions fetched"))
  }

  predicate OwnedBy(caller: UserId, s: Session) { s.owner == caller }

  /** `GET /my-sessions`: every record of the caller, most recently updated first. */
  function GetMySessions(store: Store, caller: UserId): (r: ApiResponse<seq<Session>>)
    ensures r.statusCode == 200 && r.success && r.message == "User sessions fetched"
    ensures forall i :: 0 <= i < |r.data| ==> r.data[i] in store && r.data[i].owner == caller
    ensures forall i :: 0 <= i < |store| && store[i].owner == caller ==> store[i] in r.data
    ensures multiset(r.data) == multiset(Seqs.Filter(store, s => OwnedBy(caller, s)))
    ensures Seqs.SortedDesc(r.data, UpdatedAt)
  {
    var found := Seqs.Filter(store, s => OwnedBy(caller, s));
    Seqs.FilterMembers(store, s => OwnedBy(caller, s));
    var sorted := Seqs.SortDesc(found, UpdatedAt);
    Seqs.SameElements(sorted, found);
    NewApiResponse(200, sorted, Some("User sessions fetched"))
  }

  const NotFound := Fail(404, "Session not found")
  const NotFoundOrUnauthorized := Fail(404, "Session not found or unauthorized")

  /** `GET /my-sessions/:id`: the record, only if the caller owns it. */
  function GetSessionById(store: Store, caller: UserId, id: SessionId): (r: Result<ApiResponse<Session>, Thrown>)
    ensures r.Ok? <==> Owns(store, caller, id)
    ensures r.Ok? ==> r.value.statusCode == 200 && r.value.data in store
    ensures r.Ok? ==> r.value.data.id == id && r.value.data.owner == caller
    ensures r.Err? ==> r.error == NotFound
  {
    match FindOwned(store, caller, id)
    case None => Err(NotFound)
    case Some(i) => Ok(NewApiResponse(200, store[i], Some("Session details fetched")))
  }

  /** A record of someone else answers exactly as a record that does not
      exist: the reply does not reveal that the id is taken. */
  lemma {:induction false} LookupHidesForeignRecords(store: Store, caller: UserId, id: SessionId)
    requires IdUsed(store, id) && !Owns(store, caller, id)
    ensures GetSessionById(store, caller, id) == GetSessionById([], caller, id)
    ensures GetSessionById(store, caller, id).Err?
  {
    assert !Owns([], caller, id);
  }

  /** `tags = []` as destructured from the body; a single string is cast to
      a one-element list. */
  function TagsOf(body: Body): (tags: seq<string>)
    ensures "tags" !in body ==> tags == []
    ensures "tags" in body && body["tags"].StrList? ==> tags == body["tags"].items
  {
    if "tags" !in body then []
    else match body["tags"]
      case StrList(items) => items
      case Str(s) => [s]
  }

  const MissingTitleOrUrl := Fail(400, "Title and JSON file URL are required")

  /** `POST /my-sessions/save-draft`. With a `sessionId`, a conditional update
      of the caller's record that overwrites title, tags and URL and forces
      the status back to draft; without one, a new draft record. */
  function SaveDraftSession(store: Store, caller: UserId, body: Body, now: int, freshId: SessionId)
    : (r: Result<Saved, Thrown>)
    // the 400 check comes first and is exactly the falsy test on title and URL
    ensures r == Err(MissingTitleOrUrl) <==> !FieldTruthy(body, "title") || !FieldTruthy(body, "jsonFileUrl")
    ensures r.Ok? ==>
      && FieldTruthy(body, "title") && FieldTruthy(body, "jsonFileUrl")
      && body["title"].Str? && body["jsonFileUrl"].Str?
      && (FieldTruthy(body, "sessionId") ==> body["sessionId"].Str?)
    // update of the caller's record (ids are unique in the store)
    ensures UniqueIds(store) && r.Ok? && FieldTruthy(body, "sessionId") ==>
      var id := body["sessionId"].s;
      && Owns(store, caller, id)
      && |r.value.store| == |store|
      && forall i :: 0 <= i < |store| ==>
        if store[i].id == id && store[i].owner == caller then
          && r.value.store[i] == r.value.response.data
          && r.value.store[i].id == id && r.value.store[i].owner == caller
          && r.value.store[i].title == body["title"].s
          && r.value.store[i].jsonFileUrl == body["jsonFileUrl"].s
          && r.value.store[i].tags == TagsOf(body)
          && r.value.store[i].status == Draft
          && r.value.store[i].createdAt == store[i].createdAt
          && r.value.store[i].updatedAt == now
        else r.value.store[i] == store[i]
    // an id that is not the caller's record
    ensures FieldTruthy(body, "title") && FieldTruthy(body, "jsonFileUrl") && body["title"].Str?
      && body["jsonFileUrl"].Str? && FieldTruthy(body, "sessionId") && body["sessionId"].Str?
      && !Owns(store, caller, body["sessionId"].s)
      ==> r == Err(NotFoundOrUnauthorized)
    // creation of exactly one new record
    ensures r.Ok? && !FieldTruthy(body, "sessionId") ==>
      && r.value.store == store + [r.value.response.data]
      && r.value.response.data == Session(freshId, caller, body["title"].s, TagsOf(body),
           body["jsonFileUrl"].s, Draft, now, now)
    ensures r.Ok? ==> r.value.response.statusCode == 200 && r.value.response.data.status == Draft
    // a well-shaped save with no id, or with the id of a caller's record, succeeds
    ensures FieldTruthy(body, "title") && FieldTruthy(body, "jsonFileUrl")
      && body["title"].Str? && body["jsonFileUrl"].Str?
      && (!FieldTruthy(body, "sessionId") || (body["sessionId"].Str? && Owns(store, caller, body["sessionId"].s)))
      ==> r.Ok?
  {
    if !FieldTruthy(body, "title") || !FieldTruthy(body, "jsonFileUrl") then Err(MissingTitleOrUrl)
    else if !body["title"].Str? || !body["jsonFileUrl"].Str? then Err(CastFailure)
    else
      var title := body["title"].s;
      var url := body["jsonFileUrl"].s;
      var tags := TagsOf(body);
      if FieldTruthy(body, "sessionId") then
        if !body["sessionId"].Str? then Err(CastFailure)
        else
          match FindOwned(store, caller, body["sessionId"].s)
          case None => Err(NotFoundOrUnauthorized)
          case Some(i) =>
            var rec := store[i].(title := title, tags := tags, jsonFileUrl := url, status := Draft, updatedAt := now);
            Ok(Saved(store[i := rec], NewApiResponse(200, rec, Some("Draft session saved successfully"))))
      else
        var rec := Session(freshId, caller, title, tags, url, Draft, now, now);
        Ok(Saved(store + [rec], NewApiResponse(200, rec, Some("Draft session saved successfully"))))
  }

  const MissingSessionId := Fail(400, "Session ID is required to publish")

  /** `POST /my-sessions/publish`: a conditional update of the caller's record
      that only sets the status to published. It reads no other field,
      validates nothing and never creates a record. */
  function PublishSession(store: Store, caller: UserId, body: Body, now: int): (r: Result<Saved, Thrown>)
    ensures r == Err(MissingSessionId) <==> !FieldTruthy(body, "sessionId")
    ensures FieldTruthy(body, "sessionId") && body["sessionId"].Str? ==>
      (r.Ok? <==> Owns(store, caller, body["sessionId"].s))
    ensures FieldTruthy(body, "sessionId") && body["sessionId"].Str? && !Owns(store, caller, body["sessionId"].s)
      ==> r == Err(NotFoundOrUnauthorized)
    ensures r.Ok? ==> FieldTruthy(body, "sessionId") && body["sessionId"].Str?
    ensures UniqueIds(store) && r.Ok? ==>
      var id := body["sessionId"].s;
      && |r.value.store| == |store|
      && forall i :: 0 <= i < |store| ==>
        if store[i].id == id && store[i].owner == caller then
          && r.value.store[i] == r.value.response.data
          && r.value.store[i] == store[i].(status := Published, updatedAt := now)
        else r.value.store[i] == store[i]
  {
    if !FieldTruthy(body, "sessionId") then Err(MissingSessionId)
    else if !body["sessionId"].Str? then Err(CastFailure)
    else
      match FindOwned(store, caller, body["sessionId"].s)
      case None => Err(NotFoundOrUnauthorized)
      case Some(i) =>
        var rec := store[i].(status := Published, updatedAt := now);
        Ok(Saved(store[i := rec], NewApiResponse(200, rec, Some("Session published successfully"))))
  }
}
