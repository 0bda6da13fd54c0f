/**
  The post-creation form: the view-model's reducer over form events, its
  title validator, the three-step save pipeline (fetch the author, upload the
  optional image, store the post), and the screen's guards around them.
 */
module AddPost {
  import opened Outcomes
  import opened Domain
  import Flows

  datatype FormEvent = TitleChanged(title: string) | DescriptionChanged(description: string)

  datatype FormError = TitleError

  /** The view-model's state flows: the edited post, the fetched author, and the upload outcome. */
  datatype AddState = AddState(
    post: Post,
    currentUser: Option<User>,
    uploadResult: Option<string>,
    uploadError: Option<string>)

  /** A fresh view-model edits the default post and knows no author and no upload. */
  function Initial(): (s: AddState)
    ensures s.post == DefaultPost
    ensures s.post.id == "" && s.post.title == "" && s.post.timestamp == 0
    ensures s.post.description.None? && s.post.author.None? && s.post.photoUrl.None?
    ensures s.currentUser.None? && s.uploadResult.None? && s.uploadError.None?
  {
    AddState(DefaultPost, None, None, None)
  }

  /** The derived `error` flow starts out null, before it has looked at any post. */
  const InitialError: Option<FormError> := None

  /** Each form event rewrites exactly one field of the edited post. */
  function OnAction(s: AddState, e: FormEvent): (r: AddState)
    ensures r == s.(post := r.post)
    ensures r.post == s.post.(title := r.post.title, description := r.post.description)
    ensures e.TitleChanged? ==> r.post.title == e.title && r.post.description == s.post.description
    ensures e.DescriptionChanged? ==> r.post.description == Some(e.description) && r.post.title == s.post.title
  {
    match e
    case DescriptionChanged(d) => s.(post := s.post.(description := Some(d)))
    case TitleChanged(t) => s.(post := s.post.(title := t))
  }

  /** The title is the only mandatory field, and only the empty string fails it. */
  function VerifyPost(post: Post): (r: Option<FormError>)
    ensures r.Some? <==> |post.title| == 0
    ensures r.Some? ==> r.value == TitleError
  {
    if post.title == "" then Some(TitleError) else None
  }

  function Replay(s: AddState, events: seq<FormEvent>): AddState
    decreases |events|
  {
    if events == [] then s else Replay(OnAction(s, events[0]), events[1..])
  }

  function TitleOf(e: FormEvent): Option<string> {
    if e.TitleChanged? then Some(e.title) else None
  }

  function DescriptionOf(e: FormEvent): Option<Option<string>> {
    if e.DescriptionChanged? then Some(Some(e.description)) else None
  }

  /**
    After any sequence of form events the title is the one last typed and the
    description the one last typed (each falling back to its earlier value),
    and nothing else in the state has moved.
   */
  lemma {:induction false} ReplayKeepsLatestEdits(s: AddState, events: seq<FormEvent>)
    ensures Replay(s, events).post ==
      s.post.(title := Flows.Latest(s.post.title, events, TitleOf),
              description := Flows.Latest(s.post.description, events, DescriptionOf))
    ensures Replay(s, events) == s.(post := Replay(s, events).post)
    decreases |events|
  {
    if events != [] {
      var e := events[0];
      var t := events[1..];
      assert events == [e] + t;
      ReplayKeepsLatestEdits(OnAction(s, e), t);
      Flows.LatestCons(s.post.title, e, t, TitleOf);
      Flows.LatestCons(s.post.description, e, t, DescriptionOf);
    }
  }

  /** Title and description edits commute. */
  lemma EditsCommute(s: AddState, t: string, d: string)
    ensures OnAction(OnAction(s, TitleChanged(t)), DescriptionChanged(d))
         == OnAction(OnAction(s, DescriptionChanged(d)), TitleChanged(t))
  {
  }

  /** Repeating an edit changes nothing more. */
  lemma EditIdempotent(s: AddState, e: FormEvent)
    ensures OnAction(OnAction(s, e), e) == OnAction(s, e)
  {
  }

  /** What the form shows for a post and the current value of the error flow. */
  datatype FormView = FormView(
    title: string,
    description: string,
    titleFlagged: bool,
    titleMessageShown: bool,
    saveEnabled: bool)

  function View(post: Post, error: Option<FormError>): (v: FormView)
    ensures v.saveEnabled <==> error.None?
    ensures v.titleFlagged <==> error == Some(TitleError)
    ensures v.titleMessageShown <==> error == Some(TitleError)
    ensures v.title == post.title
    ensures v.description == (if post.description.Some? then post.description.value else "")
  {
    FormView(post.title, post.description.GetOr(""), error == Some(TitleError),
             error == Some(TitleError), error.None?)
  }

  /**
    Until the derived error flow first emits, the save button of a fresh form
    is enabled, although the empty title fails validation.
   */
  lemma InitialErrorIsStale()
    ensures View(Initial().post, InitialError).saveEnabled
    ensures VerifyPost(Initial().post) == Some(TitleError)
  {
  }

  /** The calls the save pipeline makes into the repositories, in order. */
  datatype Call = GetUser(userId: string) | UploadImage(uri: Uri) | StorePost(post: Post)

  datatype AddRun = AddRun(state: AddState, calls: seq<Call>)

  function StoredOf(c: Call): Option<Option<Post>> {
    if c.StorePost? then Some(Some(c.post)) else None
  }

  /** The post handed to the post store by a run, if any. */
  function StoredPost(calls: seq<Call>): Option<Post> {
    Flows.Latest(None, calls, StoredOf)
  }

  /** A run that never calls the post store stores nothing. */
  lemma {:induction false} NoStoreCallStoresNothing(calls: seq<Call>)
    requires forall i :: 0 <= i < |calls| ==> !calls[i].StorePost?
    ensures StoredPost(calls) == None
    decreases |calls|
  {
    if calls != [] {
      NoStoreCallStoresNothing(calls[..|calls| - 1]);
    }
  }

  function IsUpload(c: Call): bool {
    c.UploadImage?
  }

  /**
    `addPost(userId, imageUri)` given the outcomes of the user lookup and of
    the image upload (consulted only when an image was picked), at time `now`.
    The store call's own outcome is only logged by the source and so is not
    an input.
   */
  function AddPostFlow(s: AddState, userId: string, imageUri: Option<Uri>,
                       lookup: Result<User>, upload: Result<string>, now: int): (r: AddRun)
    ensures |r.calls| >= 1 && r.calls[0] == GetUser(userId)
    ensures r.state.post == s.post
    ensures lookup.Failure? ==> r.state == s.(currentUser := None) && |r.calls| == 1
    ensures lookup.Success? ==> r.state.currentUser == Some(lookup.value)
    ensures (exists i :: 0 <= i < |r.calls| && IsUpload(r.calls[i])) <==> lookup.Success? && imageUri.Some?
    ensures lookup.Success? && imageUri.Some? ==> r.calls[1] == UploadImage(imageUri.value)
    ensures StoredPost(r.calls).Some? <==> lookup.Success? && (imageUri.None? || upload.Success?)
    ensures StoredPost(r.calls).Some? ==>
      var p := StoredPost(r.calls).value;
      && r.calls[|r.calls| - 1] == StorePost(p)
      && p.author == Some(lookup.value)
      && p.id == s.post.id && p.title == s.post.title && p.description == s.post.description
      && p.timestamp == now
      && p.photoUrl == (if imageUri.Some? then Some(upload.value) else s.post.photoUrl)
    ensures lookup.Success? && imageUri.Some? && upload.Failure? ==>
      r.state.uploadError == upload.message && r.state.uploadResult == s.uploadResult
    ensures lookup.Success? && imageUri.Some? && upload.Success? ==>
      r.state.uploadResult == Some(upload.value) && r.state.uploadError == s.uploadError
    ensures imageUri.None? ==> r.state.uploadResult == s.uploadResult && r.state.uploadError == s.uploadError
  {
    match lookup
    case Failure(_) =>
      NoStoreCallStoresNothing([GetUser(userId)]);
      AddRun(s.(currentUser := None), [GetUser(userId)])
    case Success(user) =>
      var s1 := s.(currentUser := Some(user));
      match imageUri
      case None =>
        AddRun(s1, [GetUser(userId), StorePost(s.post.(author := Some(user), timestamp := now))])
      case Some(uri) =>
        match upload
        case Failure(m) =>
          var calls := [GetUser(userId), UploadImage(uri)];
          assert IsUpload(calls[1]);
          NoStoreCallStoresNothing(calls);
          AddRun(s1.(uploadError := m), calls)
        case Success(url) =>
          var calls := [GetUser(userId), UploadImage(uri),
                        StorePost(s.post.(author := Some(user), photoUrl := Some(url), timestamp := now))];
          assert IsUpload(calls[1]);
          AddRun(s1.(uploadResult := Some(url)), calls)
  }

  /**
    When the save button reflects the current form (the error flow has caught
    up), every post the pipeline stores has a non-empty title.
   */
  lemma SavedPostHasTitle(s: AddState, userId: string, imageUri: Option<Uri>,
                          lookup: Result<User>, upload: Result<string>, now: int)
    requires View(s.post, VerifyPost(s.post)).saveEnabled
    ensures var stored := StoredPost(AddPostFlow(s, userId, imageUri, lookup, upload, now).calls);
      stored.Some? ==> stored.value.title != ""
  {
  }

  /** The screen's inputs: typing, the image picker's report, and the save click. */
  datatype ScreenEvent =
    | TitleTyped(title: string)
    | DescriptionTyped(description: string)
    | ImagePicked(uri: Option<Uri>)
    | SaveClicked

  /** What a save click sets off: the pipeline, then the navigation callback. */
  datatype ScreenEffect = AddPostRequested(userId: string, imageUri: Option<Uri>) | SaveCallback

  /** The form's view-model together with the screen's remembered image URI. */
  datatype AddScreen = AddScreen(form: AddState, selectedImageUri: Option<Uri>)

  datatype ScreenStep = ScreenStep(screen: AddScreen, effects: seq<ScreenEffect>)

  /** One screen event, with `error` the value the screen currently collects from the error flow. */
  function OnScreenEvent(sc: AddScreen, userAuthId: string, error: Option<FormError>, e: ScreenEvent): (r: ScreenStep)
    ensures e.SaveClicked? && error.None? ==>
      r.effects == [AddPostRequested(userAuthId, sc.selectedImageUri), SaveCallback]
    ensures !(e.SaveClicked? && error.None?) ==> r.effects == []
    ensures e.ImagePicked? ==> r.screen == sc.(selectedImageUri := e.uri)
    ensures e.TitleTyped? ==> r.screen == sc.(form := OnAction(sc.form, TitleChanged(e.title)))
    ensures e.DescriptionTyped? ==> r.screen == sc.(form := OnAction(sc.form, DescriptionChanged(e.description)))
    ensures e.SaveClicked? ==> r.screen == sc
  {
    match e
    case TitleTyped(t) => ScreenStep(sc.(form := OnAction(sc.form, TitleChanged(t))), [])
    case DescriptionTyped(d) => ScreenStep(sc.(form := OnAction(sc.form, DescriptionChanged(d))), [])
    case ImagePicked(u) => ScreenStep(sc.(selectedImageUri := u), [])
    case SaveClicked =>
      if View(sc.form.post, error).saveEnabled
      then ScreenStep(sc, [AddPostRequested(userAuthId, sc.selectedImageUri), SaveCallback])
      else ScreenStep(sc, [])
  }

  /**
    The screen after a sequence of events, with the error flow caught up at
    every step: only the form's post is edited, and the effects come in
    pairs, each `addPost` request for the signed-in user followed by the
    save callback.
   */
  function Run(sc: AddScreen, userAuthId: string, events: seq<ScreenEvent>): (r: ScreenStep)
    ensures r.screen.form == sc.form.(post := r.screen.form.post)
    ensures r.screen.form.post == sc.form.post.(title := r.screen.form.post.title, description := r.screen.form.post.description)
    ensures |r.effects| % 2 == 0
    ensures forall i :: 0 <= i < |r.effects| ==> (r.effects[i].AddPostRequested? <==> i % 2 == 0)
    ensures forall i :: 0 <= i < |r.effects| && r.effects[i].AddPostRequested? ==> r.effects[i].userId == userAuthId
    decreases |events|
  {
    if events == [] then ScreenStep(sc, [])
    else
      var before := Run(sc, userAuthId, events[..|events| - 1]);
      var step := OnScreenEvent(before.screen, userAuthId, VerifyPost(before.screen.form.post), events[|events| - 1]);
      ScreenStep(step.screen, before.effects + step.effects)
  }

  function PickedOf(e: ScreenEvent): Option<Option<Uri>> {
    if e.ImagePicked? then Some(e.uri) else None
  }

  /** The remembered image URI is whatever the picker reported last, `null` included. */
  lemma {:induction false} RunRemembersLastPick(sc: AddScreen, userAuthId: string, events: seq<ScreenEvent>)
    ensures Run(sc, userAuthId, events).screen.selectedImageUri == Flows.Latest(sc.selectedImageUri, events, PickedOf)
    decreases |events|
  {
    if events != [] {
      RunRemembersLastPick(sc, userAuthId, events[..|events| - 1]);
    }
  }

  /**
    A save click on a form whose title is filled asks for `addPost` with the
    signed-in user's id and the last picked URI, then calls the save callback;
    with an empty title it does nothing.
   */
  lemma SaveUsesLastPick(sc: AddScreen, userAuthId: string, events: seq<ScreenEvent>)
    ensures var before := Run(sc, userAuthId, events);
      var after := Run(sc, userAuthId, events + [SaveClicked]);
      after.effects == before.effects +
        (if before.screen.form.post.title != ""
         then [AddPostRequested(userAuthId, Flows.Latest(sc.selectedImageUri, events, PickedOf)), SaveCallback]
         else [])
  {
    var all := events + [SaveClicked];
    assert all[..|all| - 1] == events;
    RunRemembersLastPick(sc, userAuthId, events);
  }
}
