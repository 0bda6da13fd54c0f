/**
  The authentication front-end: the screen's ordered empty-field checks for
  sign-up and sign-in, the lock on each submit button, the password-recovery
  dialog, the rule that turns results into navigation, and the view-model that
  forwards requests to the auth service.
 */
module Auth {
  import opened Outcomes
  import opened Domain
  import Flows

  datatype Field = Email | Password | FirstName | LastName

  datatype Check = Valid | Missing(field: Field)

  /** The first entry, in order, whose value is the empty string. */
  function FirstEmpty(entries: seq<(Field, string)>): (r: Check)
    ensures r.Valid? <==> forall i :: 0 <= i < |entries| ==> entries[i].1 != ""
    ensures r.Missing? ==>
      exists i :: 0 <= i < |entries| && entries[i] == (r.field, "") &&
        forall j :: 0 <= j < i ==> entries[j].1 != ""
    decreases |entries|
  {
    if entries == [] then Valid
    else if entries[0].1 == "" then Missing(entries[0].0)
    else
      FirstEmpty(entries[1..])
  }

  /** Sign-up names the first empty field among email, password, first name and last name, in that order. */
  function CheckSignUp(email: string, password: string, firstName: string, lastName: string): (c: Check)
    ensures c ==
      if email == "" then Missing(Email)
      else if password == "" then Missing(Password)
      else if firstName == "" then Missing(FirstName)
      else if lastName == "" then Missing(LastName)
      else Valid
  {
    var entries := [(Email, email), (Password, password), (FirstName, firstName), (LastName, lastName)];
    var e1 := [(Password, password), (FirstName, firstName), (LastName, lastName)];
    var e2 := [(FirstName, firstName), (LastName, lastName)];
    var e3 := [(LastName, lastName)];
    assert entries[1..] == e1 && e1[1..] == e2 && e2[1..] == e3 && e3[1..] == [];
    assert FirstEmpty(entries) == if email == "" then Missing(Email) else FirstEmpty(e1);
    assert FirstEmpty(e1) == if password == "" then Missing(Password) else FirstEmpty(e2);
    assert FirstEmpty(e2) == if firstName == "" then Missing(FirstName) else FirstEmpty(e3);
    assert FirstEmpty(e3) == if lastName == "" then Missing(LastName) else FirstEmpty([]);
    FirstEmpty(entries)
  }

  /** Sign-in names email when it is empty, else password when that is empty. */
  function CheckSignIn(email: string, password: string): (c: Check)
    ensures c ==
      if email == "" then Missing(Email)
      else if password == "" then Missing(Password)
      else Valid
  {
    var entries := [(Email, email), (Password, password)];
    var e1 := [(Password, password)];
    assert entries[1..] == e1 && e1[1..] == [];
    assert FirstEmpty(entries) == if email == "" then Missing(Email) else FirstEmpty(e1);
    assert FirstEmpty(e1) == if password == "" then Missing(Password) else FirstEmpty([]);
    FirstEmpty(entries)
  }

  const Prompt: string := "Veuillez entrer "

  /** How the sign-up screen names each field. */
  function FieldWord(f: Field): string {
    match f
    case Email => "adresse email"
    case Password => "mot de passe"
    case FirstName => "Prenom"
    case LastName => "Nom"
  }

  /** The sign-up screen's message for a missing field: a "Veuillez entrer votre" prompt naming it. */
  function SignUpMessage(f: Field): (m: string)
    ensures m == Prompt + "votre " + FieldWord(f)
  {
    match f
    case Email => "Veuillez entrer votre adresse email"
    case Password => "Veuillez entrer votre mot de passe"
    case FirstName => "Veuillez entrer votre Prenom"
    case LastName => "Veuillez entrer votre Nom"
  }

  /** The sign-in screen's message: its own wording for email, the sign-up wording for the password. */
  function SignInMessage(f: Field): (m: string)
    ensures f == Email ==> m == Prompt + "votre email" && m != SignUpMessage(Email)
    ensures f == Password ==> m == SignUpMessage(Password)
    ensures |m| > |Prompt| && m[..|Prompt|] == Prompt
  {
    if f == Email then "Veuillez entrer votre email" else "Veuillez entrer votre mot de passe"
  }

  /** Distinct missing fields get distinct sign-up messages, and the two screens word the email prompt differently. */
  lemma MessagesNameTheirField(f: Field, g: Field)
    ensures SignUpMessage(f) == SignUpMessage(g) ==> f == g
    ensures SignInMessage(Email) != SignInMessage(Password)
  {
  }

  const SignUpPending: string := "Inscription en cours..."
  const SignInPending: string := "Connexion en cours..."
  const RecoveryEmailRequired: string := "Un email est requis pour la récupération du mot de passe"
  const RecoveryEmailSent: string := "Un email de réinitialisation du mot de passe vous a ete envoyé!"

  /** Screen state: whether each submit button accepts clicks, and the recovery dialog. */
  datatype AuthScreen = AuthScreen(
    signInEnabled: bool,
    signUpEnabled: bool,
    showRecoveryDialog: bool,
    recoveryEmail: string)

  const InitialScreen: AuthScreen := AuthScreen(true, true, false, "")

  /** What the screen does besides changing its own state. */
  datatype Effect =
    | Snackbar(text: string)
    | SignUpRequested(email: string, password: string, firstName: string, lastName: string)
    | SignInRequested(email: string, password: string)
    | PasswordResetRequested(email: string)
    | NavigateHome

  datatype Reaction = Reaction(screen: AuthScreen, effects: seq<Effect>)

  /**
    A sign-up click: the button locks; a missing field shows its message and
    unlocks it; four filled fields go to `signUpUser` unchanged and keep it locked.
   */
  function OnSignUp(s: AuthScreen, email: string, password: string, firstName: string, lastName: string): (r: Reaction)
    ensures r.screen == s.(signUpEnabled := r.screen.signUpEnabled)
    ensures !r.screen.signUpEnabled <==> email != "" && password != "" && firstName != "" && lastName != ""
    ensures SignUpRequested(email, password, firstName, lastName) in r.effects <==>
      email != "" && password != "" && firstName != "" && lastName != ""
    ensures forall i :: 0 <= i < |r.effects| && r.effects[i].SignUpRequested? ==>
      r.effects[i] == SignUpRequested(email, password, firstName, lastName)
    ensures CheckSignUp(email, password, firstName, lastName).Missing? ==>
      r.effects == [Snackbar(SignUpMessage(CheckSignUp(email, password, firstName, lastName).field))]
  {
    var locked := s.(signUpEnabled := false);
    match CheckSignUp(email, password, firstName, lastName)
    case Missing(f) => Reaction(locked.(signUpEnabled := true), [Snackbar(SignUpMessage(f))])
    case Valid =>
      Reaction(locked, [SignUpRequested(email, password, firstName, lastName), Snackbar(SignUpPending)])
  }

  /** A sign-in click: the same lock discipline over email and password. */
  function OnSignIn(s: AuthScreen, email: string, password: string): (r: Reaction)
    ensures r.screen == s.(signInEnabled := r.screen.signInEnabled)
    ensures !r.screen.signInEnabled <==> email != "" && password != ""
    ensures SignInRequested(email, password) in r.effects <==> email != "" && password != ""
    ensures forall i :: 0 <= i < |r.effects| && r.effects[i].SignInRequested? ==>
      r.effects[i] == SignInRequested(email, password)
    ensures CheckSignIn(email, password).Missing? ==>
      r.effects == [Snackbar(SignInMessage(CheckSignIn(email, password).field))]
  {
    var locked := s.(signInEnabled := false);
    match CheckSignIn(email, password)
    case Missing(f) => Reaction(locked.(signInEnabled := true), [Snackbar(SignInMessage(f))])
    case Valid => Reaction(locked, [SignInRequested(email, password), Snackbar(SignInPending)])
  }

  /**
    "Lost password": the typed email is always recorded; a non-empty one opens
    the recovery dialog, an empty one only shows a message.
   */
  function OnLostPassword(s: AuthScreen, email: string): (r: Reaction)
    ensures r.screen.recoveryEmail == email
    ensures r.screen.signInEnabled == s.signInEnabled && r.screen.signUpEnabled == s.signUpEnabled
    ensures email != "" ==> r.screen.showRecoveryDialog && r.effects == []
    ensures email == "" ==> r.screen.showRecoveryDialog == s.showRecoveryDialog && r.effects == [Snackbar(RecoveryEmailRequired)]
  {
    var recorded := s.(recoveryEmail := email);
    if email != "" then Reaction(recorded.(showRecoveryDialog := true), [])
    else Reaction(recorded, [Snackbar(RecoveryEmailRequired)])
  }

  /** Confirming the dialog sends the reset to the recorded email and closes it. */
  function OnRecoveryConfirmed(s: AuthScreen): (r: Reaction)
    ensures r.screen == s.(showRecoveryDialog := false)
    ensures PasswordResetRequested(s.recoveryEmail) in r.effects
    ensures forall i :: 0 <= i < |r.effects| ==> r.effects[i].Snackbar? || r.effects[i] == PasswordResetRequested(s.recoveryEmail)
  {
    Reaction(s.(showRecoveryDialog := false), [PasswordResetRequested(s.recoveryEmail), Snackbar(RecoveryEmailSent)])
  }

  /** Dismissing the dialog only closes it. */
  function OnRecoveryDismissed(s: AuthScreen): (r: Reaction)
    ensures r.screen == s.(showRecoveryDialog := false) && r.effects == []
  {
    Reaction(s.(showRecoveryDialog := false), [])
  }

  /** A result with a signed-in user: the only kind that leads to the home screen. */
  predicate SignedIn(result: Result<Option<AuthUser>>) {
    result.Success? && result.value.Some?
  }

  /**
    A collected sign-in result: navigate home on a success carrying a user;
    on a failure show its message and unlock the button; a success without a
    user does nothing at all.
   */
  function OnSignInResult(s: AuthScreen, result: Result<Option<AuthUser>>): (r: Reaction)
    ensures NavigateHome in r.effects <==> SignedIn(result)
    ensures result.Failure? ==>
      r.screen == s.(signInEnabled := true) &&
      r.effects == [Snackbar("Echec de la connexion: " + MessageText(result.message))]
    ensures result.Success? ==> r.screen == s
    ensures result.Success? && result.value.None? ==> r.effects == []
  {
    match result
    case Success(user) => Reaction(s, if user.Some? then [NavigateHome] else [])
    case Failure(m) => Reaction(s.(signInEnabled := true), [Snackbar("Echec de la connexion: " + MessageText(m))])
  }

  /** A collected sign-up result, handled by the same rule for the sign-up button. */
  function OnSignUpResult(s: AuthScreen, result: Result<Option<AuthUser>>): (r: Reaction)
    ensures NavigateHome in r.effects <==> SignedIn(result)
    ensures result.Failure? ==>
      r.screen == s.(signUpEnabled := true) &&
      r.effects == [Snackbar("Echec de l'inscription: " + MessageText(result.message))]
    ensures result.Success? ==> r.screen == s
    ensures result.Success? && result.value.None? ==> r.effects == []
  {
    match result
    case Success(user) => Reaction(s, if user.Some? then [NavigateHome] else [])
    case Failure(m) => Reaction(s.(signUpEnabled := true), [Snackbar("Echec de l'inscription: " + MessageText(m))])
  }

  datatype ScreenEvent =
    | SignUpSubmitted(email: string, password: string, firstName: string, lastName: string)
    | SignInSubmitted(email: string, password: string)
    | LostPassword(email: string)
    | RecoveryConfirmed
    | RecoveryDismissed
    | SignInResultArrived(result: Result<Option<AuthUser>>)
    | SignUpResultArrived(result: Result<Option<AuthUser>>)

  /** While the recovery dialog is shown it carries the email it was opened for. */
  predicate DialogHasEmail(s: AuthScreen) {
    s.showRecoveryDialog ==> s.recoveryEmail != ""
  }

  /** A click that reaches the screen: the recovery dialog is modal, and a locked button takes no click. */
  predicate Delivered(s: AuthScreen, e: ScreenEvent) {
    match e
    case SignUpSubmitted(_, _, _, _) => s.signUpEnabled && !s.showRecoveryDialog
    case SignInSubmitted(_, _) => s.signInEnabled && !s.showRecoveryDialog
    case LostPassword(_) => !s.showRecoveryDialog
    case RecoveryConfirmed => s.showRecoveryDialog
    case RecoveryDismissed => s.showRecoveryDialog
    case SignInResultArrived(_) => true
    case SignUpResultArrived(_) => true
  }

  /**
    One event. A click that does not reach the screen changes nothing. The
    recorded email changes only through a delivered "lost password" click, and
    a reset request always goes to the recorded email from the open dialog.
   */
  function Step(s: AuthScreen, e: ScreenEvent): (r: Reaction)
    ensures !Delivered(s, e) ==> r == Reaction(s, [])
    ensures DialogHasEmail(s) ==> DialogHasEmail(r.screen)
    ensures r.screen.recoveryEmail != s.recoveryEmail ==>
      e.LostPassword? && !s.showRecoveryDialog && r.screen.recoveryEmail == e.email
    ensures s.showRecoveryDialog && !e.RecoveryConfirmed? && !e.RecoveryDismissed? ==> r.screen.showRecoveryDialog
    ensures forall i :: 0 <= i < |r.effects| && r.effects[i].PasswordResetRequested? ==>
      e.RecoveryConfirmed? && s.showRecoveryDialog && r.effects[i].email == s.recoveryEmail
  {
    if !Delivered(s, e) then Reaction(s, [])
    else match e
      case SignUpSubmitted(em, pw, fn, ln) => OnSignUp(s, em, pw, fn, ln)
      case SignInSubmitted(em, pw) => OnSignIn(s, em, pw)
      case LostPassword(em) => OnLostPassword(s, em)
      case RecoveryConfirmed => OnRecoveryConfirmed(s)
      case RecoveryDismissed => OnRecoveryDismissed(s)
      case SignInResultArrived(res) => OnSignInResult(s, res)
      case SignUpResultArrived(res) => OnSignUpResult(s, res)
  }

  /**
    The screen after a sequence of events. From a screen whose dialog (if
    any) has an email, no reset request ever goes to an empty email.
   */
  function Run(s: AuthScreen, events: seq<ScreenEvent>): (r: Reaction)
    ensures DialogHasEmail(s) ==> DialogHasEmail(r.screen)
    ensures DialogHasEmail(s) ==>
      forall i :: 0 <= i < |r.effects| && r.effects[i].PasswordResetRequested? ==> r.effects[i].email != ""
    decreases |events|
  {
    if events == [] then Reaction(s, [])
    else
      var before := Run(s, events[..|events| - 1]);
      var step := Step(before.screen, events[|events| - 1]);
      Reaction(step.screen, before.effects + step.effects)
  }

  /**
    A "lost password" click with a non-empty email on a screen without the
    dialog, then events that do not answer it: the dialog stays open on that
    email and no reset has been requested.
   */
  lemma {:induction false} OpenDialogKeepsEmail(s: AuthScreen, email: string, mid: seq<ScreenEvent>)
    requires !s.showRecoveryDialog && email != ""
    requires forall i :: 0 <= i < |mid| ==> !mid[i].RecoveryConfirmed? && !mid[i].RecoveryDismissed?
    ensures var r := Run(s, [LostPassword(email)] + mid);
      && r.screen.showRecoveryDialog && r.screen.recoveryEmail == email
      && (forall i :: 0 <= i < |r.effects| ==> !r.effects[i].PasswordResetRequested?)
    decreases |mid|
  {
    var trace := [LostPassword(email)] + mid;
    if mid == [] {
      assert trace[..0] == [];
      assert Run(s, []) == Reaction(s, []);
      assert Step(s, LostPassword(email)) == OnLostPassword(s, email);
    } else {
      assert trace[..|trace| - 1] == [LostPassword(email)] + mid[..|mid| - 1];
      assert trace[|trace| - 1] == mid[|mid| - 1];
      OpenDialogKeepsEmail(s, email, mid[..|mid| - 1]);
    }
  }

  /**
    The recovery flow end to end: a "lost password" click with a non-empty
    email on a screen without the dialog, then any events that do not answer
    the dialog, then a confirmation: a reset is requested for that email, and
    no reset goes anywhere else.
   */
  lemma ResetGoesToEmailThatOpenedDialog(s: AuthScreen, email: string, mid: seq<ScreenEvent>)
    requires !s.showRecoveryDialog && email != ""
    requires forall i :: 0 <= i < |mid| ==> !mid[i].RecoveryConfirmed? && !mid[i].RecoveryDismissed?
    ensures var r := Run(s, [LostPassword(email)] + mid + [RecoveryConfirmed]);
      && PasswordResetRequested(email) in r.effects
      && !r.screen.showRecoveryDialog
      && (forall i :: 0 <= i < |r.effects| && r.effects[i].PasswordResetRequested? ==> r.effects[i].email == email)
  {
    OpenDialogKeepsEmail(s, email, mid);
    var waiting := Run(s, [LostPassword(email)] + mid);
    var all := [LostPassword(email)] + mid + [RecoveryConfirmed];
    assert all[..|all| - 1] == [LostPassword(email)] + mid;
    var last := Step(waiting.screen, RecoveryConfirmed);
    assert last.effects == [PasswordResetRequested(email), Snackbar(RecoveryEmailSent)];
    assert Run(s, all).effects == waiting.effects + last.effects;
  }

  /** From the initial screen, every reset request goes to a non-empty email. */
  lemma NoResetToEmptyEmail(events: seq<ScreenEvent>)
    ensures forall i :: 0 <= i < |Run(InitialScreen, events).effects| && Run(InitialScreen, events).effects[i].PasswordResetRequested? ==>
      Run(InitialScreen, events).effects[i].email != ""
  {
  }

  /** An event that answers the recovery dialog. */
  predicate Answers(e: ScreenEvent) {
    e.RecoveryConfirmed? || e.RecoveryDismissed?
  }

  /**
    The recovery dialog told from the clicks alone: it holds the email of the
    first "lost password" click with a non-empty email since the dialog was
    last answered, and is closed when there is none.
   */
  function Pending(events: seq<ScreenEvent>): (p: Option<string>)
    ensures p.Some? ==> p.value != "" && exists i :: 0 <= i < |events| && events[i] == LostPassword(p.value)
    decreases |events|
  {
    if events == [] then None
    else
      var before := Pending(events[..|events| - 1]);
      var e := events[|events| - 1];
      var p :=
        if Answers(e) then None
        else if e.LostPassword? && e.email != "" && before.None? then Some(e.email)
        else before;
      assert p.Some? && p != before ==> events[|events| - 1] == LostPassword(p.value);
      assert before.Some? ==> events[..|events| - 1] <= events;
      p
  }

  /** From the initial screen the screen's dialog is exactly the one `Pending` reads off the clicks. */
  lemma {:induction false} DialogFollowsPending(events: seq<ScreenEvent>)
    ensures Run(InitialScreen, events).screen.showRecoveryDialog <==> Pending(events).Some?
    ensures Pending(events).Some? ==> Run(InitialScreen, events).screen.recoveryEmail == Pending(events).value
    decreases |events|
  {
    if events != [] {
      DialogFollowsPending(events[..|events| - 1]);
    }
  }

  /**
    Every reset request comes from a confirmation of the dialog, and goes to
    the email the dialog was holding when it was confirmed.
   */
  lemma {:induction false} ResetGoesToPendingEmail(events: seq<ScreenEvent>, email: string)
    requires PasswordResetRequested(email) in Run(InitialScreen, events).effects
    ensures exists j :: 0 <= j < |events| && events[j] == RecoveryConfirmed && Pending(events[..j]) == Some(email)
    decreases |events|
  {
    var prefix := events[..|events| - 1];
    var before := Run(InitialScreen, prefix);
    if PasswordResetRequested(email) in before.effects {
      ResetGoesToPendingEmail(prefix, email);
      var j :| 0 <= j < |prefix| && prefix[j] == RecoveryConfirmed && Pending(prefix[..j]) == Some(email);
      assert events[j] == prefix[j] && events[..j] == prefix[..j];
    } else {
      var step := Step(before.screen, events[|events| - 1]);
      var i :| 0 <= i < |step.effects| && step.effects[i] == PasswordResetRequested(email);
      DialogFollowsPending(prefix);
      assert events[..|events| - 1] == prefix;
    }
  }

  predicate SignUpFailure(e: ScreenEvent) {
    e.SignUpResultArrived? && e.result.Failure?
  }

  /** Once locked, the sign-up button stays locked until a failed sign-up result arrives. */
  lemma {:induction false} SignUpStaysLockedUntilFailure(s: AuthScreen, events: seq<ScreenEvent>)
    requires !s.signUpEnabled
    requires forall i :: 0 <= i < |events| ==> !SignUpFailure(events[i])
    ensures !Run(s, events).screen.signUpEnabled
    decreases |events|
  {
    if events != [] {
      SignUpStaysLockedUntilFailure(s, events[..|events| - 1]);
    }
  }

  predicate BringsUser(e: ScreenEvent) {
    (e.SignInResultArrived? || e.SignUpResultArrived?) && SignedIn(e.result)
  }

  /** The screen navigates home only in response to a success result that carries a user. */
  lemma {:induction false} NavigationNeedsSignedInUser(s: AuthScreen, events: seq<ScreenEvent>)
    requires NavigateHome in Run(s, events).effects
    ensures exists i :: 0 <= i < |events| && BringsUser(events[i])
    decreases |events|
  {
    var prefix := events[..|events| - 1];
    var last := events[|events| - 1];
    var before := Run(s, prefix);
    if NavigateHome in before.effects {
      NavigationNeedsSignedInUser(s, prefix);
      var i :| 0 <= i < |prefix| && BringsUser(prefix[i]);
      assert events[i] == prefix[i];
    } else {
      assert NavigateHome in Step(before.screen, last).effects;
      assert BringsUser(events[|events| - 1]);
    }
  }

  // The view-model.

  /** The requests the view-model makes of the auth service. */
  datatype AuthCall = RegisterUser(email: string, password: string) | SignInCall(email: string, password: string) | PasswordResetCall(email: string)

  /** A request and what the view-model emitted while collecting its answers. */
  datatype Forwarded<T> = Forwarded(call: AuthCall, emitted: seq<T>)

  /** What collecting one registration result does: store a profile, emit the result. */
  datatype SignUpEffect = UserStored(user: User, answer: Result<Unit>) | SignUpEmitted(result: Result<Option<AuthUser>>)

  /**
    One collected registration result. `dbAnswer` is what the users
    collection answers to a profile write; the answer is recorded with the
    write and otherwise only logged.
   */
  function OnRegistrationResult(firstName: string, lastName: string, result: Result<Option<AuthUser>>,
                                dbAnswer: User -> Result<Unit>): (effects: seq<SignUpEffect>)
    ensures result.Failure? ==> effects == []
    ensures result.Success? && result.value.Some? ==>
      var profile := User(result.value.value.uid, firstName, lastName);
      effects == [UserStored(profile, dbAnswer(profile)), SignUpEmitted(result)]
    ensures result.Success? && result.value.None? ==> effects == [SignUpEmitted(result)]
  {
    match result
    case Failure(_) => []
    case Success(None) => [SignUpEmitted(result)]
    case Success(Some(user)) =>
      var profile := User(user.uid, firstName, lastName);
      [UserStored(profile, dbAnswer(profile)), SignUpEmitted(result)]
  }

  function EmittedOf(e: SignUpEffect): seq<Result<Option<AuthUser>>> {
    if e.SignUpEmitted? then [e.result] else []
  }

  /** The results a log of sign-up effects emitted, in order. */
  function Emitted(effects: seq<SignUpEffect>): seq<Result<Option<AuthUser>>>
    decreases |effects|
  {
    if effects == [] then [] else EmittedOf(effects[0]) + Emitted(effects[1..])
  }

  lemma {:induction false} EmittedConcat(a: seq<SignUpEffect>, b: seq<SignUpEffect>)
    ensures Emitted(a + b) == Emitted(a) + Emitted(b)
    decreases |a|
  {
    if a == [] {
      assert a + b == b;
    } else {
      assert (a + b)[0] == a[0];
      assert (a + b)[1..] == a[1..] + b;
      EmittedConcat(a[1..], b);
    }
  }

  lemma EmittedOne(e: SignUpEffect)
    ensures Emitted([e]) == EmittedOf(e)
  {
    assert [e][1..] == [];
  }

  /** The successful results among `results`, in order. */
  function Successes(results: seq<Result<Option<AuthUser>>>): seq<Result<Option<AuthUser>>>
    decreases |results|
  {
    if results == [] then []
    else (if results[0].Success? then [results[0]] else []) + Successes(results[1..])
  }

  function CollectRegistration(firstName: string, lastName: string, results: seq<Result<Option<AuthUser>>>,
                               dbAnswer: User -> Result<Unit>): (effects: seq<SignUpEffect>)
    ensures Emitted(effects) == Successes(results)
    ensures forall i :: 0 <= i < |effects| && effects[i].UserStored? ==>
      effects[i].user.firstname == firstName && effects[i].user.lastname == lastName &&
      effects[i].answer == dbAnswer(effects[i].user) &&
      i + 1 < |effects| && effects[i + 1].SignUpEmitted? && SignedIn(effects[i + 1].result) &&
      effects[i + 1].result.value.value.uid == effects[i].user.id
    decreases |results|
  {
    if results == [] then []
    else
      var head := OnRegistrationResult(firstName, lastName, results[0], dbAnswer);
      var tail := CollectRegistration(firstName, lastName, results[1..], dbAnswer);
      assert Emitted(head) == (if results[0].Success? then [results[0]] else []) by {
        if |head| == 2 {
          assert head == [head[0]] + [head[1]];
          EmittedOne(head[0]);
          EmittedOne(head[1]);
          EmittedConcat([head[0]], [head[1]]);
        } else if |head| == 1 {
          EmittedOne(head[0]);
        }
      }
      EmittedConcat(head, tail);
      head + tail
  }

  /**
    `signUpUser`: registers with email and password unchanged, and while
    collecting the registration results stores a profile for every signed-up
    user and re-emits every success; failures are never emitted.
   */
  function SignUpUser(email: string, password: string, firstName: string, lastName: string,
                      results: seq<Result<Option<AuthUser>>>, dbAnswer: User -> Result<Unit>): (r: (AuthCall, seq<SignUpEffect>))
    ensures r.0 == RegisterUser(email, password)
    ensures Emitted(r.1) == Successes(results)
  {
    (RegisterUser(email, password), CollectRegistration(firstName, lastName, results, dbAnswer))
  }

  /** No failed registration ever reaches the sign-up result flow. */
  lemma {:induction false} NoFailureEmitted(results: seq<Result<Option<AuthUser>>>)
    ensures forall i :: 0 <= i < |Successes(results)| ==> Successes(results)[i].Success?
    decreases |results|
  {
    if results != [] {
      NoFailureEmitted(results[1..]);
    }
  }

  /** Two effect logs that differ at most in the recorded answers of the profile writes. */
  predicate SameUpToAnswers(a: seq<SignUpEffect>, b: seq<SignUpEffect>) {
    && |a| == |b|
    && forall i :: 0 <= i < |a| ==>
         if a[i].UserStored? then b[i].UserStored? && b[i].user == a[i].user else b[i] == a[i]
  }

  /** Whatever the users collection answers, `signUpUser` emits the same results. */
  lemma DbAnswerIrrelevant(email: string, password: string, firstName: string, lastName: string,
                           results: seq<Result<Option<AuthUser>>>, a: User -> Result<Unit>, b: User -> Result<Unit>)
    ensures Emitted(SignUpUser(email, password, firstName, lastName, results, a).1) ==
            Emitted(SignUpUser(email, password, firstName, lastName, results, b).1)
  {
  }

  /** Whatever the users collection answers, the same profiles are written in the same order, between the same emissions. */
  lemma {:induction false} CollectIgnoresDb(firstName: string, lastName: string, results: seq<Result<Option<AuthUser>>>,
                                            a: User -> Result<Unit>, b: User -> Result<Unit>)
    ensures SameUpToAnswers(CollectRegistration(firstName, lastName, results, a), CollectRegistration(firstName, lastName, results, b))
    decreases |results|
  {
    if results != [] {
      CollectIgnoresDb(firstName, lastName, results[1..], a, b);
      var ha := OnRegistrationResult(firstName, lastName, results[0], a);
      var hb := OnRegistrationResult(firstName, lastName, results[0], b);
      SameUpToAnswersConcat(ha, hb, CollectRegistration(firstName, lastName, results[1..], a),
                            CollectRegistration(firstName, lastName, results[1..], b));
    }
  }

  lemma SameUpToAnswersConcat(a1: seq<SignUpEffect>, b1: seq<SignUpEffect>, a2: seq<SignUpEffect>, b2: seq<SignUpEffect>)
    requires SameUpToAnswers(a1, b1) && SameUpToAnswers(a2, b2)
    ensures SameUpToAnswers(a1 + a2, b1 + b2)
  {
    var a, b := a1 + a2, b1 + b2;
    forall i | 0 <= i < |a|
      ensures if a[i].UserStored? then b[i].UserStored? && b[i].user == a[i].user else b[i] == a[i]
    {
      if i < |a1| {
        assert a[i] == a1[i] && b[i] == b1[i];
      } else {
        assert a[i] == a2[i - |a1|] && b[i] == b2[i - |a1|];
      }
    }
  }

  /**
    Fed back to the screen, the sign-up results can never unlock a locked
    sign-up button, whatever the registration reports.
   */
  lemma SignUpButtonNeverUnlockedByResults(s: AuthScreen, results: seq<Result<Option<AuthUser>>>)
    requires !s.signUpEnabled
    ensures !Run(s, AsSignUpEvents(Successes(results))).screen.signUpEnabled
  {
    NoFailureEmitted(results);
    SignUpStaysLockedUntilFailure(s, AsSignUpEvents(Successes(results)));
  }

  function AsSignUpEvents(results: seq<Result<Option<AuthUser>>>): (events: seq<ScreenEvent>)
    ensures |events| == |results|
    ensures forall i :: 0 <= i < |results| ==> events[i] == SignUpResultArrived(results[i])
  {
    seq(|results|, i requires 0 <= i < |results| => SignUpResultArrived(results[i]))
  }

  /** `signInUser`: every result is re-emitted unchanged and in order. */
  function SignInUser(email: string, password: string, results: seq<Result<Option<AuthUser>>>): (r: Forwarded<Result<Option<AuthUser>>>)
    ensures r.call == SignInCall(email, password)
    ensures r.emitted == results
  {
    Forwarded(SignInCall(email, password), Flows.Relay([], results))
  }

  /** `sendPasswordResetEmail`: every result is re-emitted unchanged and in order. */
  function SendPasswordResetEmail(email: string, results: seq<Result<Unit>>): (r: Forwarded<Result<Unit>>)
    ensures r.call == PasswordResetCall(email)
    ensures r.emitted == results
  {
    Forwarded(PasswordResetCall(email), Flows.Relay([], results))
  }
}
