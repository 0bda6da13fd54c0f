/**
  A post's details page: the view-model that loads the post, observes its
  comments and adds a comment under the author's display name, and the
  screen's comment box, comment construction and display fallbacks.
 */
module PostDetails {
  import opened Outcomes
  import opened Domain
  import Flows

  /** The view-model's state flows. */
  datatype DetailsState = DetailsState(post: Option<Post>, comments: seq<Comment>, errorComments: Option<string>)

  /** Nothing loaded, no comments, no error. */
  function Initial(): (s: DetailsState)
    ensures s.post.None? && |s.comments| == 0 && s.errorComments.None?
  {
    DetailsState(None, [], None)
  }

  /**
    `loadPost` given the lookup's outcome: a success stores whatever it
    returned (null when the document does not exist); a failure clears the post.
   */
  function LoadPost(s: DetailsState, lookup: Result<Option<Post>>): (r: DetailsState)
    ensures r == s.(post := r.post)
    ensures lookup.Success? ==> r.post == lookup.value
    ensures lookup.Failure? ==> r.post.None?
  {
    match lookup
    case Success(p) => s.(post := p)
    case Failure(_) => s.(post := None)
  }

  /**
    The display name stored with a comment: the first name, one space, the
    last name, and a trailing space.
   */
  function AuthorName(user: User): (n: string)
    ensures |n| == |user.firstname| + |user.lastname| + 2
    ensures n[..|user.firstname|] == user.firstname
    ensures n[|user.firstname|] == ' '
    ensures n[|user.firstname| + 1..|n| - 1] == user.lastname
    ensures n[|n| - 1] == ' '
  {
    var n := user.firstname + " " + user.lastname + " ";
    assert n[|user.firstname| + 1..|n| - 1] == user.lastname;
    n
  }

  /** The calls adding a comment makes into the repositories. */
  datatype CommentCall = GetUser(userId: string) | StoreComment(postId: string, comment: Comment)

  /**
    `addCommentToPost(postId, comment)` given the outcome of looking up the
    comment's author: the author is looked up by `authorId`; on success the
    comment is sent with only its author name replaced.
   */
  function AddCommentToPost(postId: string, comment: Comment, lookup: Result<User>): (calls: seq<CommentCall>)
    ensures |calls| >= 1 && calls[0] == GetUser(comment.authorId)
    ensures lookup.Failure? ==> |calls| == 1
    ensures lookup.Success? ==> |calls| == 2 && calls[1].StoreComment? && calls[1].postId == postId
    ensures lookup.Success? ==>
      var sent := calls[1].comment;
      sent == comment.(authorName := sent.authorName) && sent.authorName == AuthorName(lookup.value)
  {
    match lookup
    case Failure(_) => [GetUser(comment.authorId)]
    case Success(user) =>
      [GetUser(comment.authorId), StoreComment(postId, comment.(authorName := AuthorName(user)))]
  }

  /** The name sent for the user of the view-model's unit test is "John Doe " with its trailing space. */
  lemma AuthorNameOfTestUser()
    ensures AddCommentToPost("testPostId", Comment("1", "user1", "", "This is a test comment", 0),
                       Success(User("user1", "John", "Doe")))[1].comment.authorName == "John Doe "
  {
  }

  /**
    For any comment and any user the lookup finds, the stored comment's author
    name is the first name and a space, then the last name and a space; the
    comment is otherwise the one the screen built, stored for the given post.
   */
  lemma StoredCommentNamesAuthor(postId: string, comment: Comment, user: User)
    ensures var calls := AddCommentToPost(postId, comment, Success(user));
      var name := calls[1].comment.authorName;
      && calls[1].postId == postId
      && |name| >= |user.firstname| + 1
      && name[..|user.firstname| + 1] == user.firstname + " "
      && name[|name| - |user.lastname| - 1..] == user.lastname + " "
      && calls[1].comment.(authorName := comment.authorName) == comment
  {
    var name := AuthorName(user);
    assert name[..|user.firstname|] == user.firstname;
    assert name[..|user.firstname| + 1] == user.firstname + " ";
    assert name[|name| - |user.lastname| - 1..] == name[|user.firstname| + 1..|name| - 1] + [' '];
  }

  /** `observeComments`: each snapshot replaces the list wholesale; the first error records its message and ends it. */
  function ObserveComments(s: DetailsState, upstream: seq<Flows.StreamEvent<Comment>>): (r: DetailsState)
    ensures r.post == s.post
    ensures var k := Flows.FirstError(upstream);
      && r.comments == Flows.Latest(s.comments, upstream[..k], Flows.SnapshotOf)
      && r.errorComments == (if k < |upstream| then upstream[k].message else s.errorComments)
  {
    var view := Flows.Observe(Flows.ListView(s.comments, s.errorComments), upstream);
    Flows.ObserveIsLastSnapshot(Flows.ListView(s.comments, s.errorComments), upstream);
    s.(comments := view.items, errorComments := view.error)
  }

  /** Before the first error, each comment snapshot becomes the list exactly; the post is untouched. */
  lemma CommentsSnapshotReplaces(s: DetailsState, upstream: seq<Flows.StreamEvent<Comment>>, comments: seq<Comment>)
    requires Flows.FirstError(upstream) == |upstream|
    ensures ObserveComments(s, upstream + [Flows.Emit(comments)]) == ObserveComments(s, upstream).(comments := comments)
  {
    Flows.ObserveSnapshotReplaces(Flows.ListView(s.comments, s.errorComments), upstream, comments);
  }

  /** An upstream error records its message and leaves the comments at the last snapshot. */
  lemma CommentsErrorKeepsList(s: DetailsState, upstream: seq<Flows.StreamEvent<Comment>>, m: Option<string>)
    requires Flows.FirstError(upstream) == |upstream|
    ensures ObserveComments(s, upstream + [Flows.Error(m)]) == ObserveComments(s, upstream).(errorComments := m)
  {
    Flows.FirstErrorAtEnd(upstream, m);
    assert (upstream + [Flows.Error(m)])[..|upstream|] == upstream;
  }

  /**
    JVM whitespace as Kotlin's `isWhitespace` sees it: the ASCII controls
    tab to carriage return and the four separators U+001C to U+001F, and
    every Unicode space, line and paragraph separator.
   */
  function IsWhitespace(c: char): (w: bool)
    ensures c == ' ' || c == '\t' || c == '\n' || c == '\r' ==> w
    ensures 'a' <= c <= 'z' || 'A' <= c <= 'Z' || '0' <= c <= '9' ==> !w
  {
    || ('\t' <= c <= '\r')
    || ('\U{1C}' <= c <= '\U{1F}')
    || c == ' ' || c == '\U{A0}' || c == '\U{1680}'
    || ('\U{2000}' <= c <= '\U{200A}')
    || c == '\U{2028}' || c == '\U{2029}' || c == '\U{202F}' || c == '\U{205F}' || c == '\U{3000}'
  }

  /** `isBlank`, scanning from the front: empty, or whitespace only. */
  function IsBlank(text: string): (blank: bool)
    ensures blank <==> forall i :: 0 <= i < |text| ==> IsWhitespace(text[i])
  {
    if text == [] then true
    else IsWhitespace(text[0]) && IsBlank(text[1..])
  }

  /** The comment box: its text and the result of one click on "Envoyer". */
  datatype Submission = Submission(text: string, submitted: Option<string>)

  /** The send button accepts clicks exactly when the text is not blank. */
  function SendEnabled(text: string): (enabled: bool)
    ensures enabled <==> exists i :: 0 <= i < |text| && !IsWhitespace(text[i])
  {
    !IsBlank(text)
  }

  /** A click submits non-blank text exactly as typed and clears the box; blank text stays and nothing is submitted. */
  function OnSend(text: string): (r: Submission)
    ensures r.submitted.Some? <==> SendEnabled(text)
    ensures r.submitted.Some? ==> r.submitted.value == text && r.text == ""
    ensures r.submitted.None? ==> r.text == text
  {
    if !IsBlank(text) then Submission("", Some(text)) else Submission(text, None)
  }

  /** Whatever a click did, the box is left blank, so an immediate second click submits nothing. */
  lemma SecondSendSubmitsNothing(text: string)
    ensures OnSend(OnSend(text).text).submitted.None?
  {
  }

  /** A text the form would accept as a post title can still be refused as a comment. */
  lemma BlankButNotEmpty()
    ensures " " != "" && OnSend(" ").submitted.None?
  {
  }

  /**
    The screen's `onAddComment`: only a signed-in user's text becomes a
    comment, with that user as author, the text verbatim and the current time.
   */
  function BuildComment(userAuthId: Option<string>, text: string, now: int): (c: Option<Comment>)
    ensures c.Some? <==> userAuthId.Some?
    ensures c.Some? ==> c.value.authorId == userAuthId.value && c.value.content == text && c.value.timestamp == now
    ensures c.Some? ==> c.value.id == "" && c.value.authorName == ""
  {
    match userAuthId
    case None => None
    case Some(uid) => Some(Comment("", uid, "", text, now))
  }

  /**
    A click on "Envoyer" end to end: the box's submission, turned into a
    comment when someone is signed in, handed to `addCommentToPost` together
    with the post's id.
   */
  function SubmitComment(userAuthId: Option<string>, postId: string, text: string, now: int): (r: (string, Option<(string, Comment)>))
    ensures r.1.Some? <==> SendEnabled(text) && userAuthId.Some?
    ensures r.1.Some? ==> r.1.value.0 == postId && r.1.value.1.content == text && r.1.value.1.authorId == userAuthId.value
    ensures r.0 == (if SendEnabled(text) then "" else text)
  {
    var sub := OnSend(text);
    if sub.submitted.None? then (sub.text, None)
    else match BuildComment(userAuthId, sub.submitted.value, now)
      case None => (sub.text, None)
      case Some(c) => (sub.text, Some((postId, c)))
  }

  /** How the comments section is filled. */
  datatype CommentsSection = Placeholder | Items(comments: seq<Comment>)

  /** What `PostContent` renders, date formatting aside. */
  datatype PostView = PostView(
    photoShown: bool,
    title: string,
    authorLine: string,
    countLine: string,
    description: string,
    section: CommentsSection)

  predicate IsDigit(c: char) {
    '0' <= c <= '9'
  }

  function DigitValue(c: char): nat
    requires IsDigit(c)
  {
    c as int - '0' as int
  }

  /** The number a string of decimal digits denotes, most significant digit first. */
  function DigitsValue(digits: string): nat
    requires forall i :: 0 <= i < |digits| ==> IsDigit(digits[i])
    decreases |digits|
  {
    if digits == [] then 0
    else DigitsValue(digits[..|digits| - 1]) * 10 + DigitValue(digits[|digits| - 1])
  }

  /**
    Kotlin's decimal rendering of a count: digits only, no leading zero
    except for 0 itself, and reading the digits back gives the number.
   */
  function NatToString(n: nat): (text: string)
    ensures |text| >= 1
    ensures forall i :: 0 <= i < |text| ==> IsDigit(text[i])
    ensures |text| > 1 ==> text[0] != '0'
    ensures DigitsValue(text) == n
    decreases n
  {
    if n < 10 then [DigitChar(n)]
    else
      var front := NatToString(n / 10);
      var text := front + [DigitChar(n % 10)];
      assert text[..|text| - 1] == front;
      text
  }

  function DigitChar(d: nat): (c: char)
    requires d < 10
    ensures IsDigit(c) && DigitValue(c) == d
  {
    "0123456789"[d]
  }

  const NoDescription: string := "No description available."
  const NoComments: string := "Aucun commentaire pour ce post."

  /**
    A post's content: the photo only for a non-empty URL, the author falling
    back to "Anonymous" and " ", the description to a fixed text, the count of
    the comment list, and a placeholder for an empty list.
   */
  function Render(post: Post, comments: seq<Comment>): (v: PostView)
    ensures v.photoShown <==> post.photoUrl.Some? && post.photoUrl.value != ""
    ensures v.title == post.title
    ensures post.author.None? ==> v.authorLine == "Author: Anonymous  "
    ensures post.author.Some? ==>
      v.authorLine == "Author: " + post.author.value.firstname + " " + post.author.value.lastname
    ensures v.countLine == NatToString(|comments|) + " commentaires"
    ensures v.description == (if post.description.Some? then post.description.value else NoDescription)
    ensures v.section.Placeholder? <==> |comments| == 0
    ensures v.section.Items? ==> v.section.comments == comments
  {
    var first := if post.author.Some? then post.author.value.firstname else "Anonymous";
    var last := if post.author.Some? then post.author.value.lastname else " ";
    PostView(
      post.photoUrl.Some? && post.photoUrl.value != "",
      post.title,
      "Author: " + first + " " + last,
      NatToString(|comments|) + " commentaires",
      post.description.GetOr(NoDescription),
      if |comments| == 0 then Placeholder else Items(comments))
  }

  /** The page shows the post's content once a post is loaded, and a loading text otherwise. */
  datatype Page = Loading | Content(view: PostView)

  function Screen(s: DetailsState): (p: Page)
    ensures p.Loading? <==> s.post.None?
    ensures p.Content? ==> p.view == Render(s.post.value, s.comments)
  {
    if s.post.None? then Loading else Content(Render(s.post.value, s.comments))
  }

  /**
    The page after a lookup: a failed lookup, or one that found no document,
    leaves the loading text; a found post is rendered with the comments
    already collected.
   */
  lemma LoadedPostIsShown(s: DetailsState, lookup: Result<Option<Post>>)
    ensures lookup.Failure? ==> Screen(LoadPost(s, lookup)) == Loading
    ensures lookup == Success(None) ==> Screen(LoadPost(s, lookup)) == Loading
    ensures lookup.Success? && lookup.value.Some? ==>
      Screen(LoadPost(s, lookup)) == Content(Render(lookup.value.value, s.comments))
  {
  }

  /**
    The page while comments are observed: with a post loaded, the count line
    shows the size of the last snapshot before the first upstream error, and
    the placeholder shows exactly when that snapshot is empty.
   */
  lemma ObservedCommentsAreShown(s: DetailsState, upstream: seq<Flows.StreamEvent<Comment>>)
    requires s.post.Some?
    ensures var shown := Flows.Latest(s.comments, upstream[..Flows.FirstError(upstream)], Flows.SnapshotOf);
      var page := Screen(ObserveComments(s, upstream));
      && page.Content?
      && page.view.countLine == NatToString(|shown|) + " commentaires"
      && (page.view.section.Placeholder? <==> shown == [])
      && (page.view.section.Items? ==> page.view.section.comments == shown)
  {
  }
}
