/** The pure logic of the session editor page
    (`frontend/src/pages/SessionEditor.tsx`): parsing the comma-separated
    tags field, removing a tag chip, and the guards that decide whether a
    save or publish request is sent and what body it carries. */
module TagEditor {
  import opened Common
  import opened Text
  import Sessions

  /** A tag as parsing produces it: non-empty, trimmed, without a comma. */
  predicate WellFormedTag(t: string)
  {
    t != "" && Trimmed(t) && ',' !in t
  }

  predicate WellFormedTags(tags: seq<string>)
  {
    forall i :: 0 <= i < |tags| ==> WellFormedTag(tags[i])
  }

  /** `.map((tag) => tag.trim()).filter(Boolean)` over the split pieces. */
  function CleanPieces(pieces: seq<string>): (tags: seq<string>)
    requires forall i :: 0 <= i < |pieces| ==> ',' !in pieces[i]
    ensures WellFormedTags(tags)
    ensures |tags| <= |pieces|
  {
    if pieces == [] then []
    else
      var t := Trim(pieces[0]);
      TrimKeepsAbsent(pieces[0], ',');
      var rest := CleanPieces(pieces[1..]);
      if t == "" then rest else [t] + rest
  }

  /** `handleTagsChange`: split on commas, trim every piece, drop empty ones. */
  function ParseTags(value: string): (tags: seq<string>)
    ensures WellFormedTags(tags)
  {
    CleanPieces(Split(value, ','))
  }

  /** The tag a single comma-free piece contributes: its trim, unless that
      is empty. */
  function PieceTag(piece: string): (tags: seq<string>)
  {
    if Trim(piece) == "" then [] else [Trim(piece)]
  }

  /** Text without a comma is one piece: it parses to its trim, or to no
      tag when it is blank. */
  lemma ParsePiece(a: string)
    requires ',' !in a
    ensures ParseTags(a) == PieceTag(a)
  {
    SplitWithoutSep(a, ',');
  }

  /** Parsing works piece by piece, in order: the text before the first
      comma contributes its trimmed tag (or nothing when blank), followed by
      the tags of the rest. With `ParsePiece` this determines `ParseTags`
      on every input. */
  lemma ParseCons(a: string, b: string)
    requires ',' !in a
    ensures ParseTags(a + [','] + b) == PieceTag(a) + ParseTags(b)
  {
    SplitAtFirstSep(a, b, ',');
    var pieces := Split(a + [','] + b, ',');
    assert pieces[1..] == Split(b, ',');
  }

  /** The text the field shows after a chip is removed: `newTags.join(", ")`. */
  function JoinTags(tags: seq<string>): string
  {
    Join(tags, ", ")
  }

  /** Whitespace alone parses to no tags. */
  lemma ParseSpaces(lead: string)
    requires AllSpace(lead) && ',' !in lead
    ensures ParseTags(lead) == []
  {
    SplitWithoutSep(lead, ',');
    TrimAfterSpaces(lead, []);
    assert lead + [] == lead;
  }

  /** The first piece of a split is trimmed into the first tag. */
  lemma ParseFirstPiece(lead: string, t: string, tail: string)
    requires AllSpace(lead) && ',' !in lead && WellFormedTag(t)
    ensures ParseTags(lead + t + [','] + tail) == [t] + ParseTags(tail)
  {
    assert ',' !in lead + t;
    SplitAtFirstSep(lead + t, tail, ',');
    TrimAfterSpaces(lead, t);
    var pieces := Split(lead + t + [','] + tail, ',');
    assert pieces[1..] == Split(tail, ',');
  }

  lemma ParseOneTag(lead: string, t: string)
    requires AllSpace(lead) && ',' !in lead && WellFormedTag(t)
    ensures ParseTags(lead + JoinTags([t])) == [t]
  {
    assert ',' !in lead + t;
    SplitWithoutSep(lead + t, ',');
    TrimAfterSpaces(lead, t);
  }

  lemma JoinTagsUnfold(lead: string, tags: seq<string>)
    requires |tags| >= 2
    ensures lead + JoinTags(tags) == lead + tags[0] + [','] + (" " + JoinTags(tags[1..]))
  {
    assert JoinTags(tags) == tags[0] + ", " + JoinTags(tags[1..]);
  }

  /** Parsing whitespace followed by the joined tags gives the tags back. */
  lemma {:induction false} ParseJoinAfterSpaces(lead: string, tags: seq<string>)
    requires AllSpace(lead) && ',' !in lead
    requires WellFormedTags(tags)
    ensures ParseTags(lead + JoinTags(tags)) == tags
    decreases |tags|
  {
    if |tags| == 0 {
      assert lead + JoinTags(tags) == lead;
      ParseSpaces(lead);
    } else if |tags| == 1 {
      ParseOneTag(lead, tags[0]);
    } else {
      var rest := JoinTags(tags[1..]);
      JoinTagsUnfold(lead, tags);
      ParseFirstPiece(lead, tags[0], " " + rest);
      ParseJoinAfterSpaces(" ", tags[1..]);
      assert [tags[0]] + tags[1..] == tags;
    }
  }

  /** Well-formed tags survive the round trip through the text field. */
  lemma ParseJoin(tags: seq<string>)
    requires WellFormedTags(tags)
    ensures ParseTags(JoinTags(tags)) == tags
  {
    assert "" + JoinTags(tags) == JoinTags(tags);
    ParseJoinAfterSpaces("", tags);
  }

  /** Re-joining parsed tags and parsing again changes nothing. */
  lemma ParseIdempotent(value: string)
    ensures ParseTags(JoinTags(ParseTags(value))) == ParseTags(value)
  {
    ParseJoin(ParseTags(value));
  }

  /** `parsedTags.filter((_, i) => i !== index)`. */
  function RemoveAt(tags: seq<string>, index: int): (r: seq<string>)
    ensures 0 <= index < |tags| ==> r == tags[..index] + tags[index + 1..]
    ensures !(0 <= index < |tags|) ==> r == tags
    ensures 0 <= index < |tags| ==> |r| == |tags| - 1
    ensures forall i :: 0 <= i < |r| ==> r[i] in tags
  {
    if 0 <= index < |tags| then tags[..index] + tags[index + 1..] else tags
  }

  /** The editor's form state and the chips derived from it. The URL field
      is `None` while it holds `undefined`, which happens after the edit page
      has loaded a record (see `LoadSession`); it holds a string on a new
      page and after the user types into the URL input. */
  datatype Editor = Editor(title: string, tags: string, jsonUrl: Option<string>, parsedTags: seq<string>)

  /** The chips show exactly the parse of the tags field. */
  predicate InSync(e: Editor)
  {
    e.parsedTags == ParseTags(e.tags)
  }

  /** `fetchSession` on the edit page: the form takes the stored record's
      title and its tags joined with ", ", the chips take the tags, and the
      URL is read under `jsonUrl`, a key the stored record does not have
      (it stores `jsonFileUrl`), so the URL field becomes `undefined`. */
  function LoadSession(rec: Sessions.Session): (e: Editor)
    ensures e.title == rec.title && e.parsedTags == rec.tags && e.tags == JoinTags(rec.tags)
    ensures e.jsonUrl.None?
  {
    Editor(rec.title, JoinTags(rec.tags), None, rec.tags)
  }

  /** A record whose tags are well formed loads into a synchronised editor:
      the joined field parses back to the chips. */
  lemma LoadKeepsSync(rec: Sessions.Session)
    requires WellFormedTags(rec.tags)
    ensures InSync(LoadSession(rec))
  {
    ParseJoin(rec.tags);
  }

  /** The URL input's `onChange`: the field holds the typed string again. */
  function HandleUrlChange(e: Editor, value: string): (r: Editor)
    ensures r.jsonUrl == Some(value)
    ensures r.title == e.title && r.tags == e.tags && r.parsedTags == e.parsedTags
  {
    e.(jsonUrl := Some(value))
  }

  /** `handleTagsChange(value)`. */
  function HandleTagsChange(e: Editor, value: string): (r: Editor)
    ensures InSync(r)
    ensures r.tags == value && r.title == e.title && r.jsonUrl == e.jsonUrl
  {
    e.(tags := value, parsedTags := ParseTags(value))
  }

  /** `removeTag(index)`. */
  function RemoveTag(e: Editor, index: int): (r: Editor)
    ensures r.parsedTags == RemoveAt(e.parsedTags, index)
    ensures r.tags == JoinTags(r.parsedTags)
    ensures r.title == e.title && r.jsonUrl == e.jsonUrl
  {
    var newTags := RemoveAt(e.parsedTags, index);
    e.(tags := JoinTags(newTags), parsedTags := newTags)
  }

  /** Removing a chip from a synchronised editor keeps it synchronised:
      the rewritten field parses back to the remaining chips. */
  lemma RemoveTagKeepsSync(e: Editor, index: int)
    requires InSync(e)
    ensures InSync(RemoveTag(e, index))
    ensures WellFormedTags(RemoveTag(e, index).parsedTags)
  {
    var newTags := RemoveAt(e.parsedTags, index);
    assert WellFormedTags(newTags) by {
      if 0 <= index < |e.parsedTags| {
        forall i | 0 <= i < |newTags| ensures WellFormedTag(newTags[i]) {
          if i < index {
            assert newTags[i] == e.parsedTags[i];
          } else {
            assert newTags[i] == e.parsedTags[i + 1];
          }
        }
      }
    }
    ParseJoin(newTags);
  }

  /** The `sessionId` the editor sends: the route's id in edit mode,
      otherwise `undefined` (so the key is dropped from the JSON body). */
  function WithId(body: Body, key: string, routeId: Option<string>): (r: Body)
    ensures routeId.Some? ==> r == body[key := Str(routeId.value)]
    ensures routeId.None? ==> r == body
  {
    if routeId.Some? then body[key := Str(routeId.value)] else body
  }

  /** The title, the chips and the URL under `urlKey`. JSON serialisation
      drops a key whose value is `undefined`, so without a URL the key is
      absent. */
  function FormFields(e: Editor, urlKey: string): (b: Body)
    requires urlKey != "title" && urlKey != "tags"
    ensures b.Keys == {"title", "tags"} + (if e.jsonUrl.Some? then {urlKey} else {})
    ensures b["title"] == Str(e.title) && b["tags"] == StrList(e.parsedTags)
    ensures e.jsonUrl.Some? ==> b[urlKey] == Str(e.jsonUrl.value)
  {
    var base := map["title" := Str(e.title), "tags" := StrList(e.parsedTags)];
    if e.jsonUrl.Some? then base[urlKey := Str(e.jsonUrl.value)] else base
  }

  /** The save-draft body built by `saveDraft` and `handleSaveDraft`; the URL
      goes under the key `jsonUrl`. */
  function DraftBody(e: Editor, routeId: Option<string>): Body
  {
    WithId(FormFields(e, "jsonUrl"), "sessionId", routeId)
  }

  /** Autosave and manual save: nothing is sent when the title trims to
      empty; otherwise the draft body. */
  function SaveDraftRequest(e: Editor, routeId: Option<string>): (r: Option<Body>)
    ensures r.None? <==> AllSpace(e.title)
    ensures r.Some? ==>
      r.value.Keys == {"title", "tags"} + (if e.jsonUrl.Some? then {"jsonUrl"} else {})
        + (if routeId.Some? then {"sessionId"} else {})
    ensures r.Some? ==> r.value["title"] == Str(e.title) && r.value["tags"] == StrList(e.parsedTags)
    ensures r.Some? && e.jsonUrl.Some? ==> r.value["jsonUrl"] == Str(e.jsonUrl.value)
    ensures r.Some? && routeId.Some? ==> r.value["sessionId"] == Str(routeId.value)
  {
    TrimEmptyIffAllSpace(e.title);
    if Trim(e.title) == "" then None else Some(DraftBody(e, routeId))
  }

  /** The publish body built by `handlePublish`: the id goes under `_id`. */
  function PublishBody(e: Editor, routeId: Option<string>): Body
  {
    WithId(FormFields(e, "jsonUrl"), "_id", routeId)
  }

  /** `handlePublish`: a blank title stops it with a validation message.
      Otherwise `formData.jsonUrl.trim()` is evaluated, which throws a
      `TypeError` when the field is `undefined`, and a blank URL stops it
      with the same message. Only a non-blank title and a non-blank URL
      string send a request. */
  function PublishRequest(e: Editor, routeId: Option<string>): (r: Option<Body>)
    ensures r.Some? <==> !AllSpace(e.title) && e.jsonUrl.Some? && !AllSpace(e.jsonUrl.value)
    ensures r.Some? ==> r.value.Keys == {"title", "tags", "jsonUrl"} + (if routeId.Some? then {"_id"} else {})
    ensures r.Some? ==> r.value["title"] == Str(e.title) && r.value["jsonUrl"] == Str(e.jsonUrl.value)
    ensures r.Some? ==> r.value["tags"] == StrList(e.parsedTags)
    ensures r.Some? && routeId.Some? ==> r.value["_id"] == Str(routeId.value)
  {
    TrimEmptyIffAllSpace(e.title);
    if Trim(e.title) == "" then None
    else
      match e.jsonUrl
      case None => None
      case Some(url) =>
        TrimEmptyIffAllSpace(url);
        if Trim(url) == "" then None else Some(PublishBody(e, routeId))
  }
}
