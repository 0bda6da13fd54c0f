# Hexagonal Games — a Dafny model of the app's screen and view-model logic

Hexagonal Games is an Android app where users sign up, publish game posts with an optional picture,
comment on posts, and manage their account and notification settings. The model covers the parts
of the app that decide things rather than draw them:

- the post form's reducer, its title validator, the three-step save pipeline (look up the author,
  upload the picture, store the post) and the screen's save-button and title-error rules (module `AddPost`);
- the authentication screen's ordered empty-field checks, its button locks, the rule that turns
  sign-in and sign-up results into navigation or a message, and the password-recovery dialog; the
  view-model's forwarding of results, including the fact that a failed registration is never emitted
  on the sign-up result flow (module `Auth`);
- loading a post, sending a comment with the stored author name `first + " " + last + " "`,
  observing comments, the blank-comment guard and the fallbacks of the post page (module `PostDetails`);
- sign-out and the two-step account deletion (database record first, then the auth account only if
  that succeeded), the "Non défini" defaults and the confirmation dialogs (module `Account`);
- the home feed, which starts observing at construction and replaces its list on every snapshot
  (module `Homefeed`);
- the `notifications_enabled` preference, which reads as true while unset, the enable/disable operations
  and the settings screen's button guards (module `Settings`);
- the navigation routes and `createRoute` (module `Routes`).

Shared pieces live in `Outcomes` (nullable values, `Result`, Kotlin's "null" rendering of a missing
message), `Domain` (users, posts, comments, auth users) and `Flows`. `Flows` holds the stream
semantics: re-emission of a flow (`Relay`), and the list observer that stops at its first error
(`Observe`). Its reference definition `Latest` gives the last value picked from a sequence.

Coroutines and flows are modelled as sequences of events handled one after another. Each repository
call becomes an entry in a call log, and its outcome is a parameter (`Result`). Timestamps are
parameters. A screen's event trace is folded left to right by a `Run` function.

## Model

| member | source | states |
|---|---|---|
| Flows.Relay | app/src/main/java/com/openclassrooms/hexagonal/games/screen/auth/AuthViewModel.kt:75-81 | Collecting a flow and emitting each element appends exactly the upstream, in order, to what was already emitted |
| Outcomes.MessageText | app/src/main/java/com/openclassrooms/hexagonal/games/screen/auth/AuthenticationScreen.kt:78-87 | A message interpolated into a snackbar text shows as itself, and a null one as "null" |
| Flows.FirstError | app/src/main/java/com/openclassrooms/hexagonal/games/screen/homefeed/HomefeedViewModel.kt:37-43 | The position where a `catch`ed stream stops: every earlier event is a snapshot, and the event there is the error |
| Flows.Observe | app/src/main/java/com/openclassrooms/hexagonal/games/screen/homefeed/HomefeedViewModel.kt:37-43 | The list the observer ends with is the one it started with or one the upstream emitted, and likewise its error is the starting one or one the upstream raised |
| Flows.LatestConcat | app/src/main/java/com/openclassrooms/hexagonal/games/screen/ad/AddScreen.kt:158-166 | The last picked value of a concatenation is the tail's, with the head's answer as fallback |
| Flows.LatestCons | app/src/main/java/com/openclassrooms/hexagonal/games/screen/ad/AddScreen.kt:158-166 | The last picked value of one element plus a rest takes the element's answer as fallback |
| Flows.ObserveIsLastSnapshot | app/src/main/java/com/openclassrooms/hexagonal/games/screen/postdetails/PostDetailsViewModel.kt:90-99 | The state an observer reaches holds the last snapshot before the first error. Its error is that error's message, or unchanged if none came |
| Flows.ObserveSnapshotReplaces | app/src/main/java/com/openclassrooms/hexagonal/games/screen/postdetails/PostDetailsViewModel.kt:96-98 | Before any error, a new snapshot replaces the list wholesale and touches nothing else |
| Flows.ObserveIgnoresAfterError | app/src/main/java/com/openclassrooms/hexagonal/games/screen/postdetails/PostDetailsViewModel.kt:93-95 | Nothing delivered after the first error reaches the state |
| Flows.FirstErrorPrefix | app/src/main/java/com/openclassrooms/hexagonal/games/screen/homefeed/HomefeedViewModel.kt:38-40 | Extending a stream that already failed does not move its first error |
| Flows.FirstErrorAtEnd | app/src/main/java/com/openclassrooms/hexagonal/games/screen/homefeed/HomefeedViewModel.kt:38-40 | An error appended to an error-free stream is its first error |
| Routes.CreateRoute | app/src/main/java/com/openclassrooms/hexagonal/games/screen/Screen.kt:20 | The created route is "postDetails/" followed by the id verbatim |
| Routes.Route | app/src/main/java/com/openclassrooms/hexagonal/games/screen/Screen.kt:9-19 | Every destination registers a non-empty route, and exactly the post-details route starts with "postDetails/" |
| Routes.PostIdOf | app/src/main/java/com/openclassrooms/hexagonal/games/screen/Screen.kt:19-20 | A reference inverse of `createRoute`: a value exactly for strings with the "postDetails/" prefix, and prefix + value gives back the string |
| Routes.PostIdOfCreateRoute | app/src/main/java/com/openclassrooms/hexagonal/games/screen/Screen.kt:19-20 | Reading the id back from a created route gives the id it was built from |
| Routes.CreateRouteInjective | app/src/main/java/com/openclassrooms/hexagonal/games/screen/Screen.kt:20 | Two created routes are equal exactly when their ids are |
| Routes.CreateRouteSharesTemplatePrefix | app/src/main/java/com/openclassrooms/hexagonal/games/screen/Screen.kt:19-20 | A created route and the registered template "postDetails/{postId}" share the prefix "postDetails/" |
| Routes.RoutesDistinct | app/src/main/java/com/openclassrooms/hexagonal/games/screen/Screen.kt:9-19 | The six registered routes are pairwise distinct |
| Routes.CreateRouteAvoidsFixedRoutes | app/src/main/java/com/openclassrooms/hexagonal/games/screen/Screen.kt:9-20 | A created route equals a registered route only for the literal id "{postId}", and then only the template |
| AddPost.Initial | app/src/main/java/com/openclassrooms/hexagonal/games/screen/ad/AddViewModel.kt:33-44 | A fresh form edits `Post()`: empty id and title, no description, author or photo URL, timestamp 0; it has no user and no upload outcome |
| AddPost.OnAction | app/src/main/java/com/openclassrooms/hexagonal/games/screen/ad/AddViewModel.kt:69-83 | `TitleChanged` sets only the title and `DescriptionChanged` sets only the description; nothing else in the state changes |
| AddPost.VerifyPost | app/src/main/java/com/openclassrooms/hexagonal/games/screen/ad/AddViewModel.kt:136-142 | `TitleError` exactly when the title is the empty string; a whitespace-only title passes |
| AddPost.ReplayKeepsLatestEdits | app/src/main/java/com/openclassrooms/hexagonal/games/screen/ad/AddViewModel.kt:69-83 | After any sequence of edits, the title and description are the last ones typed, or the starting ones; no other field moves |
| AddPost.EditsCommute | app/src/main/java/com/openclassrooms/hexagonal/games/screen/ad/AddViewModel.kt:71-81 | A title edit and a description edit give the same post in either order |
| AddPost.EditIdempotent | app/src/main/java/com/openclassrooms/hexagonal/games/screen/ad/AddViewModel.kt:71-81 | Repeating an edit changes nothing more |
| AddPost.View | app/src/main/java/com/openclassrooms/hexagonal/games/screen/ad/AddScreen.kt:77-166 | Save is enabled exactly when the error is null. The title is flagged and its message shown exactly on `TitleError`. A null description shows as "" |
| AddPost.InitialErrorIsStale | app/src/main/java/com/openclassrooms/hexagonal/games/screen/ad/AddViewModel.kt:56-62 | Before the error flow first evaluates, it is null, so save is enabled although the default post fails validation |
| AddPost.NoStoreCallStoresNothing | app/src/main/java/com/openclassrooms/hexagonal/games/screen/ad/AddViewModel.kt:94-125 | A run that never calls the post store stores no post |
| AddPost.AddPostFlow | app/src/main/java/com/openclassrooms/hexagonal/games/screen/ad/AddViewModel.kt:90-128 | The user is looked up first. A failed lookup nulls `currentUser` and stops there. An upload happens exactly when the lookup succeeded and an image was given. A post is stored exactly when the lookup succeeded and (no image, or the upload succeeded). It carries the form's id, title and description, the fetched author, the given time, and the uploaded URL when there was an image or the form's photo URL when there was not. A failed upload records its message |
| AddPost.SavedPostHasTitle | app/src/main/java/com/openclassrooms/hexagonal/games/screen/ad/AddScreen.kt:164-166 | When the save button reflects the current form, every stored post has a non-empty title |
| AddPost.OnScreenEvent | app/src/main/java/com/openclassrooms/hexagonal/games/screen/ad/AddScreen.kt:84-166 | Typing goes to the reducer and a pick replaces the remembered URI. A save click with a null error asks for `addPost(userAuthId, uri)` and then calls the save callback; otherwise it does nothing |
| AddPost.Run | app/src/main/java/com/openclassrooms/hexagonal/games/screen/ad/AddScreen.kt:77-90 | Over any trace, only the form's post is edited. The effects come in pairs: each `addPost` request carries the signed-in user's id and is followed directly by the save callback |
| AddPost.RunRemembersLastPick | app/src/main/java/com/openclassrooms/hexagonal/games/screen/ad/AddScreen.kt:158-166 | The URI the screen remembers is whatever the picker reported last, null included |
| AddPost.SaveUsesLastPick | app/src/main/java/com/openclassrooms/hexagonal/games/screen/ad/AddScreen.kt:87-90 | After any trace, a save click on a filled title requests `addPost` with the user id and the last picked URI, then the save callback |
| Auth.FirstEmpty | app/src/main/java/com/openclassrooms/hexagonal/games/screen/auth/AuthenticationScreen.kt:111-130 | Valid exactly when no value is empty; otherwise names the first empty field, all before it being non-empty |
| Auth.CheckSignUp | app/src/main/java/com/openclassrooms/hexagonal/games/screen/auth/AuthenticationScreen.kt:111-131 | Sign-up checks email, password, first name, last name in that order, and reports the first empty one, or valid when none is |
| Auth.CheckSignIn | app/src/main/java/com/openclassrooms/hexagonal/games/screen/auth/AuthenticationScreen.kt:161-171 | Sign-in checks email, then password, and reports the first empty one, or valid |
| Auth.SignUpMessage | app/src/main/java/com/openclassrooms/hexagonal/games/screen/auth/AuthenticationScreen.kt:113-128 | Each sign-up message is "Veuillez entrer votre " followed by the field's own word: "adresse email", "mot de passe", "Prenom" or "Nom" |
| Auth.SignInMessage | app/src/main/java/com/openclassrooms/hexagonal/games/screen/auth/AuthenticationScreen.kt:163-168 | The sign-in email message is "Veuillez entrer votre email", unlike the sign-up one; the password message is the sign-up text. Both start with "Veuillez entrer " |
| Auth.MessagesNameTheirField | app/src/main/java/com/openclassrooms/hexagonal/games/screen/auth/AuthenticationScreen.kt:113-168 | Distinct fields get distinct sign-up messages, and the two sign-in messages differ |
| Auth.OnSignUp | app/src/main/java/com/openclassrooms/hexagonal/games/screen/auth/AuthenticationScreen.kt:108-138 | The click leaves the button locked exactly when all four values are non-empty. `signUpUser` is requested, with the values unchanged, exactly then. Otherwise the first empty field's message is shown and the button unlocks |
| Auth.OnSignIn | app/src/main/java/com/openclassrooms/hexagonal/games/screen/auth/AuthenticationScreen.kt:159-178 | The same lock and request discipline over email and password |
| Auth.OnLostPassword | app/src/main/java/com/openclassrooms/hexagonal/games/screen/auth/AuthenticationScreen.kt:148-157 | The email is always recorded. A non-empty one opens the dialog; an empty one shows a message and opens nothing |
| Auth.OnRecoveryConfirmed | app/src/main/java/com/openclassrooms/hexagonal/games/screen/auth/AuthenticationScreen.kt:198-210 | Confirming sends the reset to the recorded email and closes the dialog |
| Auth.OnRecoveryDismissed | app/src/main/java/com/openclassrooms/hexagonal/games/screen/auth/AuthenticationScreen.kt:200 | Dismissing only closes the dialog |
| Auth.OnSignInResult | app/src/main/java/com/openclassrooms/hexagonal/games/screen/auth/AuthenticationScreen.kt:71-81 | Navigates home exactly on a success carrying a user. A failure shows "Echec de la connexion: " + message and unlocks sign-in. A success without a user does nothing |
| Auth.OnSignUpResult | app/src/main/java/com/openclassrooms/hexagonal/games/screen/auth/AuthenticationScreen.kt:83-90 | The same rule for sign-up results and the sign-up button |
| Auth.Step | app/src/main/java/com/openclassrooms/hexagonal/games/screen/auth/AuthenticationScreen.kt:71-210 | A click reaches the screen only when its button is unlocked and no recovery dialog covers it; an undelivered click changes nothing. The recorded email changes only through a delivered "lost password" click. A reset request comes only from confirming an open dialog, for the email it holds |
| Auth.Run | app/src/main/java/com/openclassrooms/hexagonal/games/screen/auth/AuthenticationScreen.kt:71-210 | Over any trace from a screen whose open dialog holds an email, the dialog keeps holding one, and no reset request goes to an empty email |
| Auth.OpenDialogKeepsEmail | app/src/main/java/com/openclassrooms/hexagonal/games/screen/auth/AuthenticationScreen.kt:148-211 | A non-empty "lost password" click on a screen without the dialog, then events that do not answer it: the dialog stays shown with that email, and no reset has been requested |
| Auth.ResetGoesToEmailThatOpenedDialog | app/src/main/java/com/openclassrooms/hexagonal/games/screen/auth/AuthenticationScreen.kt:148-211 | A non-empty "lost password" click, any unanswering events, then a confirmation: a reset to that email is requested, the dialog closes, and no reset goes elsewhere |
| Auth.NoResetToEmptyEmail | app/src/main/java/com/openclassrooms/hexagonal/games/screen/auth/AuthenticationScreen.kt:148-157 | From the initial screen, no reset request ever goes to an empty email |
| Auth.Pending | app/src/main/java/com/openclassrooms/hexagonal/games/screen/auth/AuthenticationScreen.kt:148-211 | The email the dialog should hold, read off the clicks alone: the first non-empty "lost password" email since the dialog was last answered. It is never empty and was typed in some click |
| Auth.DialogFollowsPending | app/src/main/java/com/openclassrooms/hexagonal/games/screen/auth/AuthenticationScreen.kt:148-211 | From the initial screen, the dialog is shown exactly when the clicks leave an email pending, and then it holds that email |
| Auth.ResetGoesToPendingEmail | app/src/main/java/com/openclassrooms/hexagonal/games/screen/auth/AuthenticationScreen.kt:198-208 | Every reset request comes from a confirmation of the dialog, and goes to the email pending at that moment |
| Auth.SignUpStaysLockedUntilFailure | app/src/main/java/com/openclassrooms/hexagonal/games/screen/auth/AuthenticationScreen.kt:83-137 | Once locked, the sign-up button stays locked through any trace without a failed sign-up result |
| Auth.NavigationNeedsSignedInUser | app/src/main/java/com/openclassrooms/hexagonal/games/screen/auth/AuthenticationScreen.kt:71-90 | Whenever the screen navigates home, some result in the trace was a success carrying a user |
| Auth.OnRegistrationResult | app/src/main/java/com/openclassrooms/hexagonal/games/screen/auth/AuthViewModel.kt:39-52 | A success with a user stores the profile (uid, first name, last name) and then emits the result. A success without a user only emits. A failure does nothing |
| Auth.EmittedConcat | app/src/main/java/com/openclassrooms/hexagonal/games/screen/auth/AuthViewModel.kt:39-52 | The results emitted by two logs in sequence are the first's followed by the second's |
| Auth.EmittedOne | app/src/main/java/com/openclassrooms/hexagonal/games/screen/auth/AuthViewModel.kt:51 | A single effect emits its own result, if any |
| Auth.CollectRegistration | app/src/main/java/com/openclassrooms/hexagonal/games/screen/auth/AuthViewModel.kt:36-55 | Exactly the successful results are emitted, in order. Every stored profile carries the given names and is immediately followed by the emission of that user's result |
| Auth.SignUpUser | app/src/main/java/com/openclassrooms/hexagonal/games/screen/auth/AuthViewModel.kt:36-55 | Registers with email and password unchanged, and emits exactly the successes among the results |
| Auth.NoFailureEmitted | app/src/main/java/com/openclassrooms/hexagonal/games/screen/auth/AuthViewModel.kt:42-52 | No failed registration ever reaches the sign-up result flow |
| Auth.DbAnswerIrrelevant | app/src/main/java/com/openclassrooms/hexagonal/games/screen/auth/AuthViewModel.kt:58-64 | The users collection's answer to the profile write is recorded with the write, and does not change what `signUpUser` emits |
| Auth.CollectIgnoresDb | app/src/main/java/com/openclassrooms/hexagonal/games/screen/auth/AuthViewModel.kt:58-64 | For any sequence of registration results, two answer functions give the same writes, in the same order, and the same emissions; only the recorded answers differ |
| Auth.SignUpButtonNeverUnlockedByResults | app/src/main/java/com/openclassrooms/hexagonal/games/screen/auth/AuthViewModel.kt:42-52 | Fed only what the view-model emits, a locked sign-up button is never unlocked |
| Auth.AsSignUpEvents | app/src/main/java/com/openclassrooms/hexagonal/games/screen/auth/AuthenticationScreen.kt:67 | The screen receives each emitted sign-up result as one event, in order |
| Auth.SignInUser | app/src/main/java/com/openclassrooms/hexagonal/games/screen/auth/AuthViewModel.kt:75-82 | Signs in with email and password unchanged and re-emits every result unchanged and in order |
| Auth.SendPasswordResetEmail | app/src/main/java/com/openclassrooms/hexagonal/games/screen/auth/AuthViewModel.kt:89-96 | Sends to the given email and re-emits every result unchanged and in order |
| PostDetails.Initial | app/src/main/java/com/openclassrooms/hexagonal/games/screen/postdetails/PostDetailsViewModel.kt:29-37 | No post, no comments, no error |
| PostDetails.LoadPost | app/src/main/java/com/openclassrooms/hexagonal/games/screen/postdetails/PostDetailsViewModel.kt:44-55 | A success stores the returned post, which may be null. A failure resets it to null. Nothing else changes |
| PostDetails.AuthorName | app/src/main/java/com/openclassrooms/hexagonal/games/screen/postdetails/PostDetailsViewModel.kt:72 | The author name is the first name, one space, the last name and a trailing space |
| PostDetails.AddCommentToPost | app/src/main/java/com/openclassrooms/hexagonal/games/screen/postdetails/PostDetailsViewModel.kt:63-83 | The author is looked up by `authorId`. A failed lookup sends nothing. On success the comment goes to the given post with only its author name replaced |
| PostDetails.AuthorNameOfTestUser | app/src/test/java/com/openclassrooms/hexagonal/games/viewmodelUnitTest/PostDetailsViewModelTest.kt:140 | The unit test's user John Doe is stored as "John Doe " |
| PostDetails.StoredCommentNamesAuthor | app/src/main/java/com/openclassrooms/hexagonal/games/screen/postdetails/PostDetailsViewModel.kt:63-83 | For every comment and every user found by the lookup, the stored comment's author name starts with the first name and a space, ends with the last name and a space, and the rest of the comment is as the screen built it |
| PostDetails.ObserveComments | app/src/main/java/com/openclassrooms/hexagonal/games/screen/postdetails/PostDetailsViewModel.kt:90-100 | The comments are the last snapshot before the first error. `errorComments` is that error's message. The post is untouched |
| PostDetails.CommentsSnapshotReplaces | app/src/main/java/com/openclassrooms/hexagonal/games/screen/postdetails/PostDetailsViewModel.kt:96-98 | Before any error, each comment snapshot becomes the list exactly |
| PostDetails.CommentsErrorKeepsList | app/src/main/java/com/openclassrooms/hexagonal/games/screen/postdetails/PostDetailsViewModel.kt:93-95 | An error records its message and leaves the comments at the last snapshot |
| PostDetails.IsWhitespace | app/src/main/java/com/openclassrooms/hexagonal/games/screen/postdetails/PostDetailsScreen.kt:263-268 | Space, tab, line feed and carriage return are whitespace; ASCII letters and digits are not |
| PostDetails.IsBlank | app/src/main/java/com/openclassrooms/hexagonal/games/screen/postdetails/PostDetailsScreen.kt:263-268 | A text is blank exactly when every character in it is whitespace, the empty text included |
| PostDetails.SendEnabled | app/src/main/java/com/openclassrooms/hexagonal/games/screen/postdetails/PostDetailsScreen.kt:268 | The send button is enabled exactly when the text has a non-whitespace character |
| PostDetails.OnSend | app/src/main/java/com/openclassrooms/hexagonal/games/screen/postdetails/PostDetailsScreen.kt:261-268 | A click submits exactly the non-blank text as typed and clears the box. Blank text stays, and nothing is submitted |
| PostDetails.SecondSendSubmitsNothing | app/src/main/java/com/openclassrooms/hexagonal/games/screen/postdetails/PostDetailsScreen.kt:263-265 | Whatever a click did, an immediate second click submits nothing |
| PostDetails.BlankButNotEmpty | app/src/main/java/com/openclassrooms/hexagonal/games/screen/postdetails/PostDetailsScreen.kt:263 | A single space is not empty, yet is refused as a comment |
| PostDetails.BuildComment | app/src/main/java/com/openclassrooms/hexagonal/games/screen/postdetails/PostDetailsScreen.kt:95-105 | A comment exists exactly when a user is signed in. It has their id as author, the text as content, and the given time |
| PostDetails.SubmitComment | app/src/main/java/com/openclassrooms/hexagonal/games/screen/postdetails/PostDetailsScreen.kt:95-105 | A comment for the post is requested exactly when the text is not blank and a user is signed in. Non-blank text clears the box either way |
| PostDetails.Render | app/src/main/java/com/openclassrooms/hexagonal/games/screen/postdetails/PostDetailsScreen.kt:132-229 | The photo shows exactly when the URL is non-empty. A missing author reads "Author: Anonymous  ". The count is the list's length. A missing description gets a fixed text. The placeholder shows exactly when there are no comments |
| PostDetails.NatToString | app/src/main/java/com/openclassrooms/hexagonal/games/screen/postdetails/PostDetailsScreen.kt:171 | The count renders as decimal digits only, without a leading zero except for 0 itself, and the digits read back as the count |
| PostDetails.Screen | app/src/main/java/com/openclassrooms/hexagonal/games/screen/postdetails/PostDetailsScreen.kt:78-120 | The page shows a loading text exactly while no post is loaded, and otherwise the rendered post and comments |
| PostDetails.LoadedPostIsShown | app/src/main/java/com/openclassrooms/hexagonal/games/screen/postdetails/PostDetailsScreen.kt:69-120 | After a failed lookup, or one that found no post, the page shows the loading text; a found post is rendered with the comments already collected |
| PostDetails.ObservedCommentsAreShown | app/src/main/java/com/openclassrooms/hexagonal/games/screen/postdetails/PostDetailsScreen.kt:69-107 | With a post loaded, the count line shows the size of the last comment snapshot before the first error, and the placeholder shows exactly when that snapshot is empty |
| Account.SignOutUser | app/src/main/java/com/openclassrooms/hexagonal/games/screen/account/MyAccountViewModel.kt:31-38 | Signs out once and re-emits every result unchanged and in order |
| Account.RemoveUserAuth | app/src/main/java/com/openclassrooms/hexagonal/games/screen/account/MyAccountViewModel.kt:67-75 | Deletes the given user's auth account and re-emits every result unchanged |
| Account.DeleteUserAccount | app/src/main/java/com/openclassrooms/hexagonal/games/screen/account/MyAccountViewModel.kt:45-61 | A null user does nothing. Otherwise the record with the user's uid is deleted first. The auth account is removed, for that uid, exactly when that deletion succeeded; only then are its results emitted |
| Account.AuthRemovalNeedsRecordDeletion | app/src/main/java/com/openclassrooms/hexagonal/games/screen/account/MyAccountViewModel.kt:50-56 | Any auth removal comes right after a record deletion that succeeded |
| Account.Info | app/src/main/java/com/openclassrooms/hexagonal/games/screen/account/MyAccountScreen.kt:63-66 | A missing user, email or timestamp shows "Non défini"; present values show as they are |
| Account.OnSignOutResult | app/src/main/java/com/openclassrooms/hexagonal/games/screen/account/MyAccountScreen.kt:79-87 | Logs out exactly on success. A failure shows only the fixed retry text "Echec de la deconnexion, veuillez réessayer.", whatever the exception says |
| Account.OnDeleteResult | app/src/main/java/com/openclassrooms/hexagonal/games/screen/account/MyAccountScreen.kt:95-102 | Logs out exactly on success. A failure shows only the fixed retry text "Echec de la suppression du compte, veuillez réessayer.", whatever the exception says |
| Account.TextsFor | app/src/main/java/com/openclassrooms/hexagonal/games/screen/account/MyAccountScreen.kt:256-272 | Type 1 gives the log-out title, message and button, and type 2 the deletion title, two-line warning and button, word for word. Every other type gives all-empty texts, and only those do |
| Account.OnDialogEvent | app/src/main/java/com/openclassrooms/hexagonal/games/screen/account/MyAccountScreen.kt:155-214 | The buttons open their dialog only while no dialog covers them. Confirming a shown dialog triggers its action alone and closes it. Dismissing only closes. No action happens any other way, and the two dialogs are never shown together |
| Account.RunDialogs | app/src/main/java/com/openclassrooms/hexagonal/games/screen/account/MyAccountScreen.kt:155-214 | Over any trace from a page with at most one dialog shown, at most one dialog is ever shown |
| Account.ShownDialogWasOpened | app/src/main/java/com/openclassrooms/hexagonal/games/screen/account/MyAccountScreen.kt:155-214 | A dialog shown after a trace from the closed page was opened by a click that no answer to that dialog has followed |
| Account.ActionNeedsOpenedDialog | app/src/main/java/com/openclassrooms/hexagonal/games/screen/account/MyAccountScreen.kt:184-214 | Sign-out or account deletion is requested only by a confirmation of its dialog that follows the click opening it, with no answer to that dialog in between |
| Account.PageTexts | app/src/main/java/com/openclassrooms/hexagonal/games/screen/account/MyAccountScreen.kt:63-66 | Signed out, every card reads "Non défini". Signed in, a card reads "Non défini" exactly when its value is missing or is that text, and users with different uids are shown differently. The two dialogs have different, non-empty messages |
| Account.LogOutAfterDeletionNeedsBothSteps | app/src/main/java/com/openclassrooms/hexagonal/games/screen/account/MyAccountViewModel.kt:45-75 | The page leaves after a deletion only if the record deletion succeeded and the auth removal then reported success |
| Homefeed.Initial | app/src/main/java/com/openclassrooms/hexagonal/games/screen/homefeed/HomefeedViewModel.kt:24-28 | An empty feed without error |
| Homefeed.ObservePosts | app/src/main/java/com/openclassrooms/hexagonal/games/screen/homefeed/HomefeedViewModel.kt:35-45 | The posts are the last snapshot before the first error, and the error is that error's message |
| Homefeed.Created | app/src/main/java/com/openclassrooms/hexagonal/games/screen/homefeed/HomefeedViewModel.kt:24-33 | A fresh view-model has already observed the whole upstream from the empty feed |
| Homefeed.SnapshotReplacesFeed | app/src/main/java/com/openclassrooms/hexagonal/games/screen/homefeed/HomefeedViewModel.kt:41-43 | Before any error, each snapshot replaces the feed wholesale, in the order delivered |
| Homefeed.ErrorKeepsPosts | app/src/main/java/com/openclassrooms/hexagonal/games/screen/homefeed/HomefeedViewModel.kt:38-40 | An error records its message and leaves the posts at the last snapshot |
| Settings.SetNotificationsEnabled | app/src/main/java/com/openclassrooms/hexagonal/games/screen/settings/PreferencesManager.kt:35-39 | After the write the preference reads the written value. Only the notifications key is added or changed |
| Settings.NotificationsEnabled | app/src/main/java/com/openclassrooms/hexagonal/games/screen/settings/PreferencesManager.kt:29-32 | The reading is the stored value when the key is set; it can only be false when the key is set, so an unset key reads as true |
| Settings.UnsetReadsEnabled | app/src/main/java/com/openclassrooms/hexagonal/games/screen/settings/PreferencesManager.kt:29-32 | A store without the key reads as enabled |
| Settings.SetIdempotent | app/src/main/java/com/openclassrooms/hexagonal/games/screen/settings/PreferencesManager.kt:35-39 | Writing the same value twice is writing it once |
| Settings.LastWriteWins | app/src/main/java/com/openclassrooms/hexagonal/games/screen/settings/PreferencesManager.kt:35-39 | Of two writes, the second decides the store |
| Settings.AreNotificationsEnabled | app/src/main/java/com/openclassrooms/hexagonal/games/screen/settings/SettingsViewModel.kt:26 | Exactly the store's readings, one per stored state, in order |
| Settings.EnableNotifications | app/src/main/java/com/openclassrooms/hexagonal/games/screen/settings/SettingsViewModel.kt:30-37 | Writes true. The filter becomes ALL when policy access is granted and is left alone otherwise |
| Settings.DisableNotifications | app/src/main/java/com/openclassrooms/hexagonal/games/screen/settings/SettingsViewModel.kt:40-47 | Writes false. The filter becomes NONE when policy access is granted and is left alone otherwise |
| Settings.EnableDisableAlternate | app/src/main/java/com/openclassrooms/hexagonal/games/screen/settings/SettingsViewModel.kt:30-47 | Enable then disable leaves the store as disable alone would, and the reverse reads as enabled |
| Settings.Shown | app/src/main/java/com/openclassrooms/hexagonal/games/screen/settings/SettingsScreen.kt:51 | The screen shows the latest reading, and false before the first |
| Settings.ShownFollowsStore | app/src/main/java/com/openclassrooms/hexagonal/games/screen/settings/SettingsScreen.kt:51 | Fed by the store, the screen shows the reading of the latest stored state, and "disabled" before any |
| Settings.ButtonsFor | app/src/main/java/com/openclassrooms/hexagonal/games/screen/settings/SettingsScreen.kt:91-103 | Enable accepts clicks exactly while notifications show as disabled, and disable exactly while they show as enabled |
| Settings.OnEnableClick | app/src/main/java/com/openclassrooms/hexagonal/games/screen/settings/SettingsScreen.kt:84-94 | A click while shown enabled does nothing. Otherwise it asks for notification access and then enables |
| Settings.OnDisableClick | app/src/main/java/com/openclassrooms/hexagonal/games/screen/settings/SettingsScreen.kt:96-106 | A click while shown disabled does nothing. Otherwise it asks for notification access and then disables |
| Settings.ClicksReachTheirValue | app/src/main/java/com/openclassrooms/hexagonal/games/screen/settings/SettingsScreen.kt:84-106 | A click the guard lets through leaves the preference at the value its button names; a guarded-off click changes nothing |
| Settings.FreshScreenDisagreesWithStore | app/src/main/java/com/openclassrooms/hexagonal/games/screen/settings/SettingsScreen.kt:51 | Before the first reading, the screen shows "disabled" and offers enable, although a fresh store reads as enabled |

## Left out

- The Firestore, Storage and Authentication services and the repositories: each call is a log entry whose outcome is a parameter. Query ordering, id generation and deserialisation happen inside those services.
- The outcome of storing a post or a comment is only logged by the app, so the model records the call and nothing about its answer.
- Coroutines, `viewModelScope`, SharedFlow/StateFlow and `callbackFlow`: callbacks and flow elements are handled one after another, in the order given.
- The save pipeline reads the form as it is when the pipeline runs; edits made while a lookup or upload is pending are not interleaved.
- `System.currentTimeMillis` becomes a parameter `now`.
- Date rendering: `Account.Info` takes the timestamp-to-text conversion as a parameter, and comment dates are not rendered.
- Compose layout, styling, icons and `CustomShapeComponent` geometry.
- Snackbar timing. The app unlocks a button only after its snackbar is dismissed; the model unlocks it together with the message.
- `LaunchedEffect` re-keying: Compose skips a result equal to the previous one, and the model handles every delivered result.
- Clicks on a disabled button are not delivered, so the authentication trace ignores them.
- NotificationsService, FirebaseAuthUI, ImagePickerButton, SignInScreen, SignUpScreen, the settings intents and the dependency-injection module are Android plumbing that only passes values through.
- SignUpScreen's two-argument `onSignUp` does not match the four-argument handler of AuthenticationScreen, and the account screen calls `deleteUserAccount()` without the user the view-model takes. The model follows AuthenticationScreen and the view-model's signatures, and does not reconcile either mismatch.
- The `Post` class is not part of this model's sources. Its fields (id, title, optional description, author and photo URL, timestamp) and its default value (empty strings, nulls, 0) are inferred from how the screens and view-models use it.
- PostDetails.IsBlank: the whitespace set is that of the JVM's `Character.isWhitespace` or `isSpaceChar`, fixed at one Unicode version. Dafny strings are sequences of Unicode scalar values, whereas Kotlin strings are UTF-16 code units.
- PostDetails.IsWhitespace: its contract only pins ASCII spaces and controls as whitespace and ASCII letters and digits as not; the full set is the definition itself.
- Routes.PostIdOf: the Navigation library's matching of "postDetails/{postId}" against a route (one non-empty path segment, percent-decoded) is not modelled. PostIdOf is only the inverse of `createRoute`, so ids are taken as non-empty, free of "/" and free of escapes.
- AddPost.Run: the error flow is taken as caught up with the form at every step. In the app it starts at null and catches up later (AddViewModel.kt:56-62), which `InitialErrorIsStale` shows separately.
- Screen.navArguments: every destination keeps the default `emptyList()`, so argument declarations are not modelled.
- AlertDialogs are modal: while one is shown, the screen behind it takes no click. The authentication and account traces drop such clicks, and do not model a tap outside the dialog other than as a dismissal.
- PostDetails.Render: the comment count is a Kotlin `Int`; the model renders a natural number and does not model overflow, which no list can reach.
