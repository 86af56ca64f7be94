/**
 * The client's post form, used both to create a post and to edit one: the
 * comma-separated tag field, its parsing on submit and its filling on load,
 * and the choice between a create and an update request.
 */
module PostForm {
  import opened Wrappers
  import Text
  import Posts

  /** The form's fields as the user edits them; `tags` is the raw comma-separated text. */
  datatype FormData = FormData(title: string, content: string, tags: string)

  /** The fields of a fetched post that the form shows; `tags` may be absent. */
  datatype LoadedPost = LoadedPost(title: string, content: string, tags: Option<seq<string>>)

  /** The input a change event names. */
  datatype Field = Title | Content | Tags

  datatype Verb = POST | PUT

  /** The API request a submit sends. */
  datatype Submission = Submission(verb: Verb, path: string, body: Posts.PostBody)

  const PostsPath := "/posts"
  const TagSeparator := ", "
  const FetchFailedMessage := "Failed to fetch post data"
  const SaveFailedMessage := "Failed to save post"

  /** Each of `parts`, trimmed, in order. */
  function TrimAll(parts: seq<string>): (r: seq<string>)
    ensures |r| == |parts|
  {
    if parts == [] then [] else [Text.Trim(parts[0])] + TrimAll(parts[1..])
  }

  /** The `i`th trimmed piece is the `i`th piece, trimmed. */
  lemma {:induction false} TrimAllAt(parts: seq<string>, i: nat)
    requires i < |parts|
    ensures TrimAll(parts)[i] == Text.Trim(parts[i])
  {
    if i > 0 {
      TrimAllAt(parts[1..], i - 1);
    }
  }

  /**
   * The tags a submit sends for the tag field `field`: none for an empty
   * field, otherwise its comma-separated pieces, trimmed, in order, one more
   * than there are commas, empty pieces kept.
   */
  function ParseTags(field: string): (tags: seq<string>)
    ensures field == "" ==> tags == []
    ensures field != "" ==> |tags| == multiset(field)[','] + 1
    ensures field != "" ==> |tags| == |Text.Split(field, ',')|
    ensures field != "" ==> forall i :: 0 <= i < |tags| ==> tags[i] == Text.Trim(Text.Split(field, ',')[i])
    ensures forall i :: 0 <= i < |tags| ==> PlainTag(tags[i])
  {
    if field == "" then []
    else
      var pieces := Text.Split(field, ',');
      Text.SplitCount(field, ',');
      assert forall i :: 0 <= i < |pieces| ==> TrimAll(pieces)[i] == Text.Trim(pieces[i]) by {
        forall i | 0 <= i < |pieces| ensures TrimAll(pieces)[i] == Text.Trim(pieces[i]) {
          TrimAllAt(pieces, i);
        }
      }
      TrimAll(pieces)
  }

  /** The tag field shown for a loaded post: its tags joined by ", ", or "" when it has none. */
  function JoinTags(tags: Option<seq<string>>): (field: string)
    ensures tags.None? || tags == Some([]) ==> field == ""
    ensures tags.Some? && |tags.value| == 1 ==> field == tags.value[0]
  {
    match tags
    case None => ""
    case Some(ts) => Text.Join(ts, TagSeparator)
  }

  /** Trimming a list of pieces trims its first piece and then the rest. */
  lemma TrimAllHead(a: string, rest: seq<string>)
    ensures TrimAll([a] + rest) == [Text.Trim(a)] + TrimAll(rest)
  {
    assert ([a] + rest)[1..] == rest;
  }

  /** A space in front of the first piece is trimmed away with the rest of its white space. */
  lemma SpacedFirstPiece(p0: string, rest: seq<string>)
    ensures TrimAll([[' '] + p0] + rest) == TrimAll([p0] + rest)
  {
    Text.TrimSkipsLeadingSpace(' ', p0);
    TrimAllHead([' '] + p0, rest);
    TrimAllHead(p0, rest);
  }

  /** A leading space changes no piece of a split string once the pieces are trimmed. */
  lemma LeadingSpaceIgnored(x: string)
    ensures TrimAll(Text.Split([' '] + x, ',')) == TrimAll(Text.Split(x, ','))
  {
    var pieces := Text.Split(x, ',');
    assert ([' '] + x)[1..] == x;
    assert Text.Split([' '] + x, ',') == [[' '] + pieces[0]] + pieces[1..];
    SpacedFirstPiece(pieces[0], pieces[1..]);
    assert [pieces[0]] + pieces[1..] == pieces;
  }

  /** A tag the form carries unchanged: it holds no comma and no surrounding white space. */
  predicate PlainTag(t: string) {
    ',' !in t && Text.Trimmed(t)
  }

  /** Every tag of `ts` is plain, stated head first. */
  predicate PlainTags(ts: seq<string>) {
    ts == [] || (PlainTag(ts[0]) && PlainTags(ts[1..]))
  }

  /** Tags that are each plain satisfy the head-first statement. */
  lemma {:induction false} EachPlainTag(ts: seq<string>)
    requires forall i :: 0 <= i < |ts| ==> PlainTag(ts[i])
    ensures PlainTags(ts)
  {
    if ts != [] {
      EachPlainTag(ts[1..]);
    }
  }

  /** Joining a tag in front of others by ", " puts the tag, a comma, then a space before the rest. */
  lemma JoinCons(t: string, tail: seq<string>)
    requires tail != []
    ensures Text.Join([t] + tail, TagSeparator) == t + [','] + ([' '] + Text.Join(tail, TagSeparator))
  {
    assert ([t] + tail)[1..] == tail;
  }

  /** A plain tag before the first comma comes out of the parse as it is, ahead of the pieces after the comma. */
  lemma PlainPieceFirst(t: string, rest: string)
    requires PlainTag(t)
    ensures TrimAll(Text.Split(t + [','] + ([' '] + rest), ',')) == [t] + TrimAll(Text.Split([' '] + rest, ','))
  {
    Text.SplitAfterPiece(t, ',', [' '] + rest);
    TrimAllHead(t, Text.Split([' '] + rest, ','));
  }

  /** If the joined `tail` parses back to `tail`, so does a joined plain tag in front of it. */
  lemma ParseJoinedCons(t: string, tail: seq<string>)
    requires tail != [] && PlainTag(t)
    requires TrimAll(Text.Split(Text.Join(tail, TagSeparator), ',')) == tail
    ensures TrimAll(Text.Split(Text.Join([t] + tail, TagSeparator), ',')) == [t] + tail
  {
    var rest := Text.Join(tail, TagSeparator);
    JoinCons(t, tail);
    PlainPieceFirst(t, rest);
    LeadingSpaceIgnored(rest);
  }

  /** Plain tags survive being joined by ", ", split at the commas and trimmed. */
  lemma {:induction false} ParseJoined(ts: seq<string>)
    requires ts != [] && PlainTags(ts)
    ensures TrimAll(Text.Split(Text.Join(ts, TagSeparator), ',')) == ts
  {
    var t, tail := ts[0], ts[1..];
    if tail == [] {
      assert ts == [t];
      Text.SplitWithoutSeparator(t, ',');
      TrimAllHead(t, []);
    } else {
      assert ts == [t] + tail;
      ParseJoined(tail);
      ParseJoinedCons(t, tail);
    }
  }

  /**
   * Loading a post into the form and submitting it unchanged sends its tags
   * back, as long as no tag holds a comma or surrounding white space; the one
   * exception is the single empty tag (see SingleEmptyTagIsLost).
   */
  lemma TagsRoundTrip(ts: seq<string>)
    requires ts != [""]
    requires forall i :: 0 <= i < |ts| ==> PlainTag(ts[i])
    ensures ParseTags(JoinTags(Some(ts))) == ts
  {
    if ts != [] {
      EachPlainTag(ts);
      ParseJoined(ts);
      if |ts| > 1 {
        JoinCons(ts[0], ts[1..]);
        assert ts == [ts[0]] + ts[1..];
      }
    }
  }

  /** A post without tags shows an empty tag field, which submits as no tags. */
  lemma MissingTagsRoundTrip()
    ensures ParseTags(JoinTags(None)) == [] && ParseTags(JoinTags(Some([]))) == []
  {
  }

  /** A post whose only tag is "" shows an empty field and so loses that tag on a round trip. */
  lemma SingleEmptyTagIsLost()
    ensures ParseTags(JoinTags(Some([""]))) == []
  {
  }

  /** The form page, for the route parameter `id` ("" on the create route). */
  class PostForm {
    const id: string
    var formData: FormData
    var loading: bool
    var error: Option<string>

    /** `Boolean(id)`: edit mode exactly when the route carries an id. */
    predicate IsEditing() {
      id != ""
    }

    constructor (id: string)
      ensures this.id == id
      ensures formData == FormData("", "", "") && !loading && error == None
    {
      this.id := id;
      formData := FormData("", "", "");
      loading := false;
      error := None;
    }

    /** In edit mode the form fetches the post first; this is the path it asks for. */
    method BeginFetch() returns (path: string)
      requires IsEditing()
      modifies this
      ensures path == PostsPath + "/" + id
      ensures loading && formData == old(formData) && error == old(error)
    {
      loading := true;
      path := PostsPath + "/" + id;
    }

    /** The fetched post fills the form; its tags are shown joined by ", ". */
    method Fetched(post: LoadedPost)
      modifies this
      ensures formData == FormData(post.title, post.content, JoinTags(post.tags))
      ensures !loading && error == old(error)
    {
      formData := FormData(post.title, post.content, JoinTags(post.tags));
      loading := false;
    }

    method FetchFailed()
      modifies this
      ensures error == Some(FetchFailedMessage) && !loading && formData == old(formData)
    {
      error := Some(FetchFailedMessage);
      loading := false;
    }

    /** An input's change event replaces that one field. */
    method Change(field: Field, value: string)
      modifies this
      ensures formData == match field
        case Title => old(formData).(title := value)
        case Content => old(formData).(content := value)
        case Tags => old(formData).(tags := value)
      ensures loading == old(loading) && error == old(error)
    {
      match field
      case Title => formData := formData.(title := value);
      case Content => formData := formData.(content := value);
      case Tags => formData := formData.(tags := value);
    }

    /**
     * A submit clears the error, starts loading and sends the trimmed title and
     * content with the parsed tags: PUT to the post's path in edit mode, POST
     * to the collection otherwise.
     */
    method Submit() returns (s: Submission)
      modifies this
      ensures error == None && loading && formData == old(formData)
      ensures s.body == Posts.PostBody(Text.Trim(formData.title), Text.Trim(formData.content), ParseTags(formData.tags), None)
      ensures IsEditing() ==> s.verb == PUT && s.path == PostsPath + "/" + id
      ensures !IsEditing() ==> s.verb == POST && s.path == PostsPath
    {
      error := None;
      loading := true;
      var body := Posts.PostBody(Text.Trim(formData.title), Text.Trim(formData.content), ParseTags(formData.tags), None);
      if IsEditing() {
        s := Submission(PUT, PostsPath + "/" + id, body);
      } else {
        s := Submission(POST, PostsPath, body);
      }
    }

    /**
     * The save of the post with id `postId` succeeded: the page goes to that
     * post, with a message naming what happened.
     */
    method Saved(postId: string) returns (path: string, message: string)
      modifies this
      ensures path == "/post/" + postId
      ensures message == if IsEditing() then "Post updated successfully" else "Post created successfully"
      ensures !loading && error == old(error) && formData == old(formData)
    {
      loading := false;
      path := "/post/" + postId;
      message := if IsEditing() then "Post updated successfully" else "Post created successfully";
    }

    /** The save failed with the server's `message` ("" when it sent none). */
    method SaveFailed(message: string)
      modifies this
      ensures error == Some(if message != "" then message else SaveFailedMessage)
      ensures !loading && formData == old(formData)
    {
      error := Some(if message != "" then message else SaveFailedMessage);
      loading := false;
    }
  }
}
