/** The client pages composed with the server handlers they call. Three
    mismatches between what the client sends and what the server reads are
    stated as they are written, each next to a corrected client that the
    server accepts. */
module Wiring {
  import opened Common
  import opened Text
  import opened Envelope
  import opened Sessions
  import opened Users
  import opened TagEditor
  import opened LoginForm

  // ---------------------------------------------------------------------
  // Save draft: the client sends the URL as `jsonUrl`, the server reads
  // `jsonFileUrl`; the edit page also loads the URL under `jsonUrl`, so it
  // starts out `undefined` there.

  /** Every save-draft request the editor sends is answered with 400: the
      body never has a `jsonFileUrl`. */
  lemma ClientDraftAlwaysRejected(
    store: Store, caller: UserId, e: Editor, routeId: Option<string>, now: int, freshId: SessionId)
    requires SaveDraftRequest(e, routeId).Some?
    ensures SaveDraftSession(store, caller, SaveDraftRequest(e, routeId).value, now, freshId) == Err(MissingTitleOrUrl)
  {
    assert "jsonFileUrl" !in SaveDraftRequest(e, routeId).value;
  }

  /** The corrected save-draft body: the URL under `jsonFileUrl`. */
  function FixedDraftBody(e: Editor, routeId: Option<string>): (b: Body)
    ensures b.Keys == {"title", "tags"} + (if e.jsonUrl.Some? then {"jsonFileUrl"} else {})
      + (if routeId.Some? then {"sessionId"} else {})
    ensures b["title"] == Str(e.title) && b["tags"] == StrList(e.parsedTags)
    ensures e.jsonUrl.Some? ==> b["jsonFileUrl"] == Str(e.jsonUrl.value)
    ensures routeId.Some? ==> b["sessionId"] == Str(routeId.value)
  {
    WithId(FormFields(e, "jsonFileUrl"), "sessionId", routeId)
  }

  /** The corrected save: the same title guard, the corrected body. */
  function FixedSaveDraftRequest(e: Editor, routeId: Option<string>): (r: Option<Body>)
    ensures r.None? <==> AllSpace(e.title)
    ensures r.Some? ==> r.value == FixedDraftBody(e, routeId)
  {
    TrimEmptyIffAllSpace(e.title);
    if Trim(e.title) == "" then None else Some(FixedDraftBody(e, routeId))
  }

  /** With the corrected body, saving a new session with a title and a URL
      creates exactly the draft the editor shows. */
  lemma FixedDraftCreates(store: Store, caller: UserId, e: Editor, now: int, freshId: SessionId)
    requires !AllSpace(e.title) && e.jsonUrl.Some? && e.jsonUrl.value != ""
    ensures var r := SaveDraftSession(store, caller, FixedSaveDraftRequest(e, None).value, now, freshId);
      && r.Ok?
      && r.value.store == store + [Session(freshId, caller, e.title, e.parsedTags, e.jsonUrl.value, Draft, now, now)]
  {
    var url := e.jsonUrl.value;
    var body := FixedSaveDraftRequest(e, None).value;
    assert body == map["title" := Str(e.title), "tags" := StrList(e.parsedTags), "jsonFileUrl" := Str(url)];
    assert e.title != "";
    DraftFieldsCreate(store, caller, e.title, e.parsedTags, url, now, freshId);
  }

  /** A body with a title, tags and a URL and no id creates one draft. */
  lemma DraftFieldsCreate(
    store: Store, caller: UserId, title: string, tags: seq<string>, url: string, now: int, freshId: SessionId)
    requires title != "" && url != ""
    ensures var r := SaveDraftSession(store, caller,
        map["title" := Str(title), "tags" := StrList(tags), "jsonFileUrl" := Str(url)], now, freshId);
      && r.Ok?
      && r.value.store == store + [Session(freshId, caller, title, tags, url, Draft, now, now)]
  {
    var body := map["title" := Str(title), "tags" := StrList(tags), "jsonFileUrl" := Str(url)];
    assert FieldTruthy(body, "title") && FieldTruthy(body, "jsonFileUrl") && "sessionId" !in body;
    assert TagsOf(body) == tags;
  }

  /** With the corrected body and a URL in the field, saving an existing
      session of the caller overwrites its title, tags and URL and leaves it
      a draft. */
  lemma FixedDraftUpdates(store: Store, caller: UserId, e: Editor, id: SessionId, now: int, freshId: SessionId)
    requires UniqueIds(store) && Owns(store, caller, id) && id != ""
    requires !AllSpace(e.title) && e.jsonUrl.Some? && e.jsonUrl.value != ""
    ensures var r := SaveDraftSession(store, caller, FixedSaveDraftRequest(e, Some(id)).value, now, freshId);
      && r.Ok?
      && r.value.response.data.id == id
      && r.value.response.data.title == e.title
      && r.value.response.data.tags == e.parsedTags
      && r.value.response.data.jsonFileUrl == e.jsonUrl.value
      && r.value.response.data.status == Draft
  {
    assert e.title != "";
    var body := FixedSaveDraftRequest(e, Some(id)).value;
    assert FieldTruthy(body, "sessionId") && body["sessionId"].s == id;
    var i := FindOwned(store, caller, id).value;
    var r := SaveDraftSession(store, caller, body, now, freshId);
    assert r.value.store[i] == r.value.response.data;
  }

  /** Fixing the body key alone is not enough on the edit page: right after
      loading, the URL field is `undefined`, the body has no URL at all, and
      the save is answered with 400 until the user retypes the URL. */
  lemma LoadedDraftRejected(
    store: Store, caller: UserId, rec: Session, routeId: Option<string>, now: int, freshId: SessionId)
    requires FixedSaveDraftRequest(LoadSession(rec), routeId).Some?
    ensures SaveDraftSession(store, caller, FixedSaveDraftRequest(LoadSession(rec), routeId).value, now, freshId)
      == Err(MissingTitleOrUrl)
  {
    assert "jsonFileUrl" !in FixedSaveDraftRequest(LoadSession(rec), routeId).value;
  }

  /** The corrected load: the URL is read under `jsonFileUrl`. */
  function FixedLoadSession(rec: Session): (e: Editor)
    ensures e.title == rec.title && e.parsedTags == rec.tags && e.tags == JoinTags(rec.tags)
    ensures e.jsonUrl == Some(rec.jsonFileUrl)
  {
    Editor(rec.title, JoinTags(rec.tags), Some(rec.jsonFileUrl), rec.tags)
  }

  /** With the corrected load and body, opening a stored session of the
      caller and saving it unchanged keeps its title, tags and URL and
      makes it a draft. */
  lemma FixedLoadThenSave(store: Store, caller: UserId, i: nat, now: int, freshId: SessionId)
    requires UniqueIds(store) && i < |store| && store[i].owner == caller && store[i].id != ""
    requires !AllSpace(store[i].title) && store[i].jsonFileUrl != ""
    ensures var r := SaveDraftSession(store, caller,
        FixedSaveDraftRequest(FixedLoadSession(store[i]), Some(store[i].id)).value, now, freshId);
      && r.Ok?
      && r.value.store[i] == store[i].(status := Draft, updatedAt := now)
  {
    var rec := store[i];
    var e := FixedLoadSession(rec);
    assert Owns(store, caller, rec.id);
    FixedDraftUpdates(store, caller, e, rec.id, now, freshId);
    var body := FixedSaveDraftRequest(e, Some(rec.id)).value;
    assert FieldTruthy(body, "sessionId") && body["sessionId"].s == rec.id;
  }

  // ---------------------------------------------------------------------
  // Publish: the client sends the id as `_id`, the server reads `sessionId`.

  /** Every publish request the editor sends is answered with 400. */
  lemma ClientPublishAlwaysRejected(store: Store, caller: UserId, e: Editor, routeId: Option<string>, now: int)
    requires PublishRequest(e, routeId).Some?
    ensures PublishSession(store, caller, PublishRequest(e, routeId).value, now) == Err(MissingSessionId)
  {
    var body := PublishRequest(e, routeId).value;
    assert "sessionId" !in body.Keys;
    NoIdNoPublish(store, caller, body, now);
  }

  lemma NoIdNoPublish(store: Store, caller: UserId, body: Body, now: int)
    requires "sessionId" !in body
    ensures PublishSession(store, caller, body, now) == Err(MissingSessionId)
  {
  }

  /** The corrected publish request: the same guard, the id under `sessionId`. */
  function FixedPublishRequest(e: Editor, routeId: Option<string>): (r: Option<Body>)
    ensures r.Some? <==> !AllSpace(e.title) && e.jsonUrl.Some? && !AllSpace(e.jsonUrl.value)
    ensures r.Some? && routeId.Some? ==> "sessionId" in r.value && r.value["sessionId"] == Str(routeId.value)
  {
    TrimEmptyIffAllSpace(e.title);
    if Trim(e.title) == "" then None
    else
      match e.jsonUrl
      case None => None
      case Some(url) =>
        TrimEmptyIffAllSpace(url);
        if Trim(url) == "" then None else Some(WithId(FormFields(e, "jsonUrl"), "sessionId", routeId))
  }

  /** Right after the edit page loads a record, publishing sends nothing,
      with or without the corrected key: the URL field is `undefined` and
      `handlePublish` throws before any request is made. */
  lemma LoadedPublishSendsNothing(rec: Session, routeId: Option<string>)
    ensures PublishRequest(LoadSession(rec), routeId).None?
    ensures FixedPublishRequest(LoadSession(rec), routeId).None?
  {
  }

  /** With the corrected request and a URL in the field, publishing the
      caller's session from the edit page makes it public. (From the
      new-session page there is no id, and the server has no
      create-and-publish path.) */
  lemma FixedPublishPublishes(store: Store, caller: UserId, e: Editor, id: SessionId, now: int)
    requires UniqueIds(store) && Owns(store, caller, id) && id != ""
    requires !AllSpace(e.title) && e.jsonUrl.Some? && !AllSpace(e.jsonUrl.value)
    ensures var r := PublishSession(store, caller, FixedPublishRequest(e, Some(id)).value, now);
      && r.Ok?
      && r.value.response.data.id == id
      && r.value.response.data.status == Published
      && r.value.response.data in GetPublicSessions(r.value.store).data
  {
    var body := FixedPublishRequest(e, Some(id)).value;
    var i := FindOwned(store, caller, id).value;
    var r := PublishSession(store, caller, body, now);
    assert r.value.store[i] == r.value.response.data;
  }

  /** With the corrected load and request, opening a stored session of the
      caller and publishing it puts it in the public listing. */
  lemma FixedLoadThenPublish(store: Store, caller: UserId, i: nat, now: int)
    requires UniqueIds(store) && i < |store| && store[i].owner == caller && store[i].id != ""
    requires !AllSpace(store[i].title) && !AllSpace(store[i].jsonFileUrl)
    ensures var r := PublishSession(store, caller,
        FixedPublishRequest(FixedLoadSession(store[i]), Some(store[i].id)).value, now);
      && r.Ok?
      && r.value.response.data.id == store[i].id
      && r.value.response.data in GetPublicSessions(r.value.store).data
  {
    assert Owns(store, caller, store[i].id);
    FixedPublishPublishes(store, caller, FixedLoadSession(store[i]), store[i].id, now);
  }

  // ---------------------------------------------------------------------
  // Register: the client accepts passwords of 6 characters, the schema
  // needs 8.

  /** The address used by the sample registration below. */
  lemma SampleEmailAccepted()
    ensures ValidateEmail("a@b.co")
  {
    var d := "b.co";
    assert HasInnerDot(d) by { assert d[1] == '.'; }
    assert EmailPart("a") && EmailPart(d);
    ValidateEmailDecomposed("a", d);
    assert "a" + "@" + d == "a@b.co";
  }

  /** A registration the client lets through and the server rejects: the
      schema's minimum length fails and the reply is a 500. */
  lemma ClientAcceptsShortPassword(hasher: Hasher, nodeEnv: string)
    ensures RegisterRequest(RegisterFields("a@b.co", "secret", "secret")).Some?
    ensures CreateUser([], RegisterRequest(RegisterFields("a@b.co", "secret", "secret")).value, "u1", hasher)
      == Err(ValidationFailure)
    ensures ErrorMiddleware(ValidationFailure, nodeEnv).status == 500
  {
    SampleEmailAccepted();
    var f := RegisterFields("a@b.co", "secret", "secret");
    assert |f.password| == 6;
    ShortPasswordRejected([], f.email, f.password, "u1", hasher);
  }

  /** A short password with a non-empty, unused address fails validation. */
  lemma ShortPasswordRejected(users: UserStore, email: string, password: string, freshId: UserId, hasher: Hasher)
    requires email != "" && password != "" && |password| < MinPasswordLength
    requires !EmailTaken(users, NormalizeEmail(email))
    ensures CreateUser(users, map["email" := Str(email), "password" := Str(password)], freshId, hasher)
      == Err(ValidationFailure)
  {
    var body := map["email" := Str(email), "password" := Str(password)];
    assert FieldTruthy(body, "email") && FieldTruthy(body, "password");
    assert !PassesSchema(NormalizeEmail(email), password);
  }

  /** The password check of the register form with the schema's bounds. */
  function AlignedPasswordError(password: string): (r: Option<string>)
    ensures r.Some? <==> !(MinPasswordLength <= |password| <= MaxPasswordLength)
    ensures password == "" ==> r == Some("Password is required")
  {
    if password == "" then Some("Password is required")
    else if |password| < MinPasswordLength then Some("Password must be at least 8 characters")
    else if |password| > MaxPasswordLength then Some("Password must be at most 255 characters")
    else None
  }

  /** The register form's error map with the schema's bounds. */
  function AlignedRegisterErrors(f: RegisterFields): (errs: map<string, string>)
    ensures errs.Keys <= {"email", "password", "confirmPassword"}
    ensures "email" in errs <==> EmailError(f.email).Some?
    ensures "email" in errs ==> errs["email"] == EmailError(f.email).value
    ensures "password" in errs <==> AlignedPasswordError(f.password).Some?
    ensures "password" in errs ==> errs["password"] == AlignedPasswordError(f.password).value
    ensures "confirmPassword" in errs <==> ConfirmError(f).Some?
    ensures "confirmPassword" in errs ==> errs["confirmPassword"] == "Passwords do not match"
  {
    var e1 := AddError(map[], "email", EmailError(f.email));
    var e2 := AddError(e1, "password", AlignedPasswordError(f.password));
    assert "email" in e1 ==> e2["email"] == e1["email"];
    var e3 := AddError(e2, "confirmPassword", ConfirmError(f));
    assert "email" in e2 ==> e3["email"] == e2["email"];
    assert "password" in e2 ==> e3["password"] == e2["password"];
    e3
  }

  function AlignedRegisterRequest(f: RegisterFields): (r: Option<Body>)
    ensures r.Some? <==>
      f.email != "" && ValidateEmail(f.email) && MinPasswordLength <= |f.password| <= MaxPasswordLength
      && f.password == f.confirmPassword
    ensures r.Some? ==> r.value == map["email" := Str(f.email), "password" := Str(f.password)]
  {
    var errs := AlignedRegisterErrors(f);
    assert |errs| == 0 <==> errs.Keys == {};
    if |errs| == 0 then Some(map["email" := Str(f.email), "password" := Str(f.password)]) else None
  }

  /** An email the client accepts normalises to a non-empty address. */
  lemma AcceptedEmailNormalizesNonEmpty(s: string)
    requires ValidateEmail(s)
    ensures NormalizeEmail(s) != ""
  {
    AcceptedEmailShape(s);
    var low := Lower(s);
    assert !IsSpace(low[0]) by {
      assert !IsSpace(s[0]);
    }
    TrimEmptyIffAllSpace(low);
  }

  /** With the aligned form, every request the client sends registers a
      user unless the address is already taken. */
  lemma AlignedRequestRegisters(users: UserStore, f: RegisterFields, freshId: UserId, hasher: Hasher)
    requires AlignedRegisterRequest(f).Some?
    requires !EmailTaken(users, NormalizeEmail(f.email))
    ensures CreateUser(users, AlignedRegisterRequest(f).value, freshId, hasher).Ok?
  {
    AcceptedEmailNormalizesNonEmpty(f.email);
    FreshEmailRegisters(users, f.email, f.password, freshId, hasher);
  }

  /** A password within the schema's bounds and an unused address that
      normalises to something non-empty register a user. */
  lemma FreshEmailRegisters(users: UserStore, email: string, password: string, freshId: UserId, hasher: Hasher)
    requires NormalizeEmail(email) != "" && MinPasswordLength <= |password| <= MaxPasswordLength
    requires !EmailTaken(users, NormalizeEmail(email))
    ensures CreateUser(users, map["email" := Str(email), "password" := Str(password)], freshId, hasher).Ok?
  {
    var body := map["email" := Str(email), "password" := Str(password)];
    assert FieldTruthy(body, "email") && FieldTruthy(body, "password");
    assert PassesSchema(NormalizeEmail(email), password);
  }
}
