/**
  The account page: signing out, and account teardown, which deletes the
  user's database record first and removes the auth account only when that
  succeeded; plus the page's defaults, result handling and confirmation dialogs.
 */
module Account {
  import opened Outcomes
  import opened Domain
  import Flows

  /** The calls the view-model makes into the repositories, in order. */
  datatype AccountCall = SignOut | DeleteUserRecord(userId: string) | DeleteAuthAccount(uid: string)

  /** The calls made and the results emitted on one of the view-model's result flows. */
  datatype Emission = Emission(calls: seq<AccountCall>, emitted: seq<Result<Unit>>)

  /** `signOutUser`: every result of the sign-out is re-emitted unchanged and in order. */
  function SignOutUser(results: seq<Result<Unit>>): (r: Emission)
    ensures r.calls == [SignOut]
    ensures r.emitted == results
  {
    Emission([SignOut], Flows.Relay([], results))
  }

  /** `removeUserAuth`: the deletion results are re-emitted unchanged on the deletion flow. */
  function RemoveUserAuth(user: AuthUser, results: seq<Result<Unit>>): (r: Emission)
    ensures r.calls == [DeleteAuthAccount(user.uid)]
    ensures r.emitted == results
  {
    Emission([DeleteAuthAccount(user.uid)], Flows.Relay([], results))
  }

  /**
    `deleteUserAccount(user)` given the outcome of deleting the database
    record and the results of removing the auth account: no user, nothing
    happens; the record goes first, and only its success leads to the auth
    removal and to anything being emitted.
   */
  function DeleteUserAccount(user: Option<AuthUser>, recordDeletion: Result<Unit>, authResults: seq<Result<Unit>>): (r: Emission)
    ensures user.None? ==> r.calls == [] && r.emitted == []
    ensures user.Some? ==> |r.calls| >= 1 && r.calls[0] == DeleteUserRecord(user.value.uid)
    ensures (exists i :: 0 <= i < |r.calls| && r.calls[i].DeleteAuthAccount?) <==> user.Some? && recordDeletion.Success?
    ensures forall i :: 0 <= i < |r.calls| && r.calls[i].DeleteAuthAccount? ==>
      r.calls[i].uid == user.value.uid && 0 < i && r.calls[i - 1] == DeleteUserRecord(user.value.uid)
    ensures recordDeletion.Failure? ==> r.emitted == []
    ensures user.Some? && recordDeletion.Success? ==> r.emitted == authResults
  {
    match user
    case None => Emission([], [])
    case Some(u) =>
      match recordDeletion
      case Failure(_) => Emission([DeleteUserRecord(u.uid)], [])
      case Success(_) =>
        var removal := RemoveUserAuth(u, authResults);
        var calls := [DeleteUserRecord(u.uid)] + removal.calls;
        assert calls[1].DeleteAuthAccount?;
        Emission(calls, removal.emitted)
  }

  /** The auth account is never removed unless the record deletion reported success. */
  lemma AuthRemovalNeedsRecordDeletion(user: Option<AuthUser>, recordDeletion: Result<Unit>, authResults: seq<Result<Unit>>, i: int)
    requires 0 <= i < |DeleteUserAccount(user, recordDeletion, authResults).calls|
    requires DeleteUserAccount(user, recordDeletion, authResults).calls[i].DeleteAuthAccount?
    ensures user.Some? && recordDeletion.Success?
    ensures i > 0 && DeleteUserAccount(user, recordDeletion, authResults).calls[i - 1] == DeleteUserRecord(user.value.uid)
  {
  }

  const Undefined: string := "Non défini"

  /** The four values the account card shows. */
  datatype AccountInfo = AccountInfo(email: string, uid: string, creationDate: string, lastSignInDate: string)

  /**
    A missing user, email, uid or timestamp shows as "Non défini"; `render`
    stands for the locale-dependent date formatting.
   */
  function Info(user: Option<AuthUser>, render: int -> string): (info: AccountInfo)
    ensures user.None? ==> info == AccountInfo(Undefined, Undefined, Undefined, Undefined)
    ensures user.Some? ==> info.uid == user.value.uid
    ensures user.Some? && user.value.email.Some? ==> info.email == user.value.email.value
    ensures user.Some? && user.value.email.None? ==> info.email == Undefined
    ensures user.Some? && user.value.metadata.Some? ==>
      info.creationDate == render(user.value.metadata.value.creationTimestamp) &&
      info.lastSignInDate == render(user.value.metadata.value.lastSignInTimestamp)
    ensures user.Some? && user.value.metadata.None? ==> info.creationDate == Undefined && info.lastSignInDate == Undefined
  {
    match user
    case None => AccountInfo(Undefined, Undefined, Undefined, Undefined)
    case Some(u) =>
      match u.metadata
      case None => AccountInfo(u.email.GetOr(Undefined), u.uid, Undefined, Undefined)
      case Some(m) =>
        AccountInfo(u.email.GetOr(Undefined), u.uid, render(m.creationTimestamp), render(m.lastSignInTimestamp))
  }

  /** What the page does besides changing its dialogs. */
  datatype Effect = LogOut | Snackbar(text: string) | SignOutRequested | DeleteAccountRequested

  const SignOutFailed: string := "Echec de la deconnexion, veuillez réessayer."
  const DeletionFailed: string := "Echec de la suppression du compte, veuillez réessayer."

  /** A sign-out result: success leaves through the log-out action; failure only shows a message. */
  function OnSignOutResult(result: Result<Unit>): (effects: seq<Effect>)
    ensures LogOut in effects <==> result.Success?
    ensures result.Failure? ==> effects == [Snackbar(SignOutFailed)]
    ensures |effects| == 1
  {
    if result.Success? then [LogOut] else [Snackbar(SignOutFailed)]
  }

  /** An account-deletion result, handled by the same rule with its own message. */
  function OnDeleteResult(result: Result<Unit>): (effects: seq<Effect>)
    ensures LogOut in effects <==> result.Success?
    ensures result.Failure? ==> effects == [Snackbar(DeletionFailed)]
    ensures |effects| == 1
  {
    if result.Success? then [LogOut] else [Snackbar(DeletionFailed)]
  }

  /** Title, message and confirm label of a confirmation dialog. */
  datatype DialogTexts = DialogTexts(title: string, message: string, button: string)

  const LogOutDialog: int := 1
  const DeleteDialog: int := 2

  /** Type 1 is log-out, type 2 deletion; any other type shows empty texts. */
  function TextsFor(typeOfDialog: int): (t: DialogTexts)
    ensures typeOfDialog == LogOutDialog ==>
      t.title == "Se déconnecter" && t.button == "Se déconnecter" &&
      t.message == "Êtes-vous sûr de vouloir vous déconnecter?"
    ensures typeOfDialog == DeleteDialog ==>
      t.title == "Supprimer mon compte" && t.button == "Supprimer" &&
      t.message == "Êtes-vous sûr de vouloir supprimer votre compte?\nAttention! Cette action est irréversible."
    ensures typeOfDialog !in {LogOutDialog, DeleteDialog} <==> t == DialogTexts("", "", "")
  {
    if typeOfDialog == 1 then
      DialogTexts("Se déconnecter", "Êtes-vous sûr de vouloir vous déconnecter?", "Se déconnecter")
    else if typeOfDialog == 2 then
      DialogTexts("Supprimer mon compte",
                  "Êtes-vous sûr de vouloir supprimer votre compte?\nAttention! Cette action est irréversible.",
                  "Supprimer")
    else DialogTexts("", "", "")
  }

  /** Which confirmation dialogs are open. */
  datatype Dialogs = Dialogs(showLogOut: bool, showDelete: bool)

  datatype DialogEvent =
    | LogOutClicked | DeleteClicked
    | Confirmed(typeOfDialog: int) | Dismissed(typeOfDialog: int)

  datatype DialogStep = DialogStep(dialogs: Dialogs, effects: seq<Effect>)

  /** Both dialogs closed, as the page starts. */
  const NoDialog: Dialogs := Dialogs(false, false)

  /** The dialogs are modal: the page's buttons take clicks only while neither is shown. */
  predicate ButtonsReachable(d: Dialogs) {
    !d.showLogOut && !d.showDelete
  }

  /**
    The two buttons open their dialog while no dialog covers them; confirming
    a shown dialog triggers its action and closes it; dismissing only closes it.
   */
  function OnDialogEvent(d: Dialogs, e: DialogEvent): (r: DialogStep)
    ensures e.LogOutClicked? && ButtonsReachable(d) ==> r == DialogStep(d.(showLogOut := true), [])
    ensures e.DeleteClicked? && ButtonsReachable(d) ==> r == DialogStep(d.(showDelete := true), [])
    ensures (e.LogOutClicked? || e.DeleteClicked?) && !ButtonsReachable(d) ==> r == DialogStep(d, [])
    ensures e == Confirmed(LogOutDialog) && d.showLogOut ==>
      !r.dialogs.showLogOut && r.dialogs.showDelete == d.showDelete && SignOutRequested in r.effects && DeleteAccountRequested !in r.effects
    ensures e == Confirmed(DeleteDialog) && d.showDelete ==>
      !r.dialogs.showDelete && r.dialogs.showLogOut == d.showLogOut && DeleteAccountRequested in r.effects && SignOutRequested !in r.effects
    ensures e.Dismissed? ==> r.effects == []
    ensures e == Dismissed(LogOutDialog) ==> r.dialogs == d.(showLogOut := false)
    ensures e == Dismissed(DeleteDialog) ==> r.dialogs == d.(showDelete := false)
    ensures (SignOutRequested in r.effects) ==> e == Confirmed(LogOutDialog) && d.showLogOut
    ensures (DeleteAccountRequested in r.effects) ==> e == Confirmed(DeleteDialog) && d.showDelete
    ensures !(d.showLogOut && d.showDelete) ==> !(r.dialogs.showLogOut && r.dialogs.showDelete)
  {
    match e
    case LogOutClicked => if ButtonsReachable(d) then DialogStep(d.(showLogOut := true), []) else DialogStep(d, [])
    case DeleteClicked => if ButtonsReachable(d) then DialogStep(d.(showDelete := true), []) else DialogStep(d, [])
    case Confirmed(t) =>
      if t == LogOutDialog && d.showLogOut then
        DialogStep(d.(showLogOut := false), [SignOutRequested, Snackbar("Deconnexion en cours...")])
      else if t == DeleteDialog && d.showDelete then
        DialogStep(d.(showDelete := false), [DeleteAccountRequested, Snackbar("Suppression de votre compte en cours...")])
      else DialogStep(d, [])
    case Dismissed(t) =>
      if t == LogOutDialog then DialogStep(d.(showLogOut := false), [])
      else if t == DeleteDialog then DialogStep(d.(showDelete := false), [])
      else DialogStep(d, [])
  }

  /** The dialogs after a sequence of events; at most one is ever shown when none was at the start. */
  function RunDialogs(d: Dialogs, events: seq<DialogEvent>): (r: DialogStep)
    ensures !(d.showLogOut && d.showDelete) ==> !(r.dialogs.showLogOut && r.dialogs.showDelete)
    decreases |events|
  {
    if events == [] then DialogStep(d, [])
    else
      var before := RunDialogs(d, events[..|events| - 1]);
      var step := OnDialogEvent(before.dialogs, events[|events| - 1]);
      DialogStep(step.dialogs, before.effects + step.effects)
  }

  /** Whether dialog `t` is shown. */
  predicate Showing(d: Dialogs, t: int) {
    if t == LogOutDialog then d.showLogOut else d.showDelete
  }

  /** The click that opens dialog `t`. */
  predicate Opens(e: DialogEvent, t: int) {
    if t == LogOutDialog then e.LogOutClicked? else e.DeleteClicked?
  }

  /** An answer to dialog `t`. */
  predicate Closes(e: DialogEvent, t: int) {
    e == Dismissed(t) || e == Confirmed(t)
  }

  /** `events[i]` opens dialog `t` and nothing strictly between `i` and `j` answers it. */
  predicate Unanswered(events: seq<DialogEvent>, i: int, j: int, t: int) {
    0 <= i < j <= |events| && Opens(events[i], t) &&
    forall k :: i < k < j ==> !Closes(events[k], t)
  }

  /** The action dialog `t` confirms. */
  function ActionOf(t: int): Effect {
    if t == LogOutDialog then SignOutRequested else DeleteAccountRequested
  }

  /** A dialog shown after a trace from the closed page was opened by a click that no answer to it has followed. */
  lemma {:induction false} ShownDialogWasOpened(events: seq<DialogEvent>, t: int)
    requires t == LogOutDialog || t == DeleteDialog
    requires Showing(RunDialogs(NoDialog, events).dialogs, t)
    ensures exists i :: Unanswered(events, i, |events|, t)
    decreases |events|
  {
    var prefix := events[..|events| - 1];
    var last := events[|events| - 1];
    var before := RunDialogs(NoDialog, prefix);
    if Showing(before.dialogs, t) {
      ShownDialogWasOpened(prefix, t);
      var i :| Unanswered(prefix, i, |prefix|, t);
      assert events[i] == prefix[i];
      assert !Closes(last, t);
      forall k | i < k < |events|
        ensures !Closes(events[k], t)
      {
        if k < |prefix| {
          assert events[k] == prefix[k];
        }
      }
      assert Unanswered(events, i, |events|, t);
    } else {
      assert Opens(events[|events| - 1], t);
      assert Unanswered(events, |events| - 1, |events|, t);
    }
  }

  /**
    A dialog's action is requested only by a confirmation of that dialog that
    follows a click opening it, with no answer to it in between.
   */
  lemma {:induction false} ActionNeedsOpenedDialog(events: seq<DialogEvent>, t: int)
    requires t == LogOutDialog || t == DeleteDialog
    requires ActionOf(t) in RunDialogs(NoDialog, events).effects
    ensures exists i, j :: Unanswered(events, i, j, t) && j < |events| && events[j] == Confirmed(t)
    decreases |events|
  {
    var prefix := events[..|events| - 1];
    var before := RunDialogs(NoDialog, prefix);
    if ActionOf(t) in before.effects {
      ActionNeedsOpenedDialog(prefix, t);
      var i, j :| Unanswered(prefix, i, j, t) && j < |prefix| && prefix[j] == Confirmed(t);
      assert events[i] == prefix[i] && events[j] == prefix[j];
      forall k | i < k < j
        ensures !Closes(events[k], t)
      {
        assert events[k] == prefix[k];
      }
      assert Unanswered(events, i, j, t);
    } else {
      var j := |events| - 1;
      assert ActionOf(t) in OnDialogEvent(before.dialogs, events[j]).effects;
      assert events[j] == Confirmed(t) && Showing(before.dialogs, t);
      ShownDialogWasOpened(prefix, t);
      var i :| Unanswered(prefix, i, |prefix|, t);
      assert events[i] == prefix[i];
      forall k | i < k < j
        ensures !Closes(events[k], t)
      {
        assert events[k] == prefix[k];
      }
      assert Unanswered(events, i, j, t);
    }
  }

  /**
    What the page shows. Signed out, every card reads "Non défini". Signed
    in, a card reads "Non défini" exactly when its value is missing (or is
    itself that text), and two users with different uids never look alike.
    The two dialogs have different, non-empty messages.
   */
  lemma PageTexts(user: Option<AuthUser>, other: AuthUser, render: int -> string)
    ensures Info(None, render) == AccountInfo(Undefined, Undefined, Undefined, Undefined)
    ensures user.Some? ==>
      var u := user.value;
      var info := Info(user, render);
      && (info.email == Undefined <==> u.email.None? || u.email.value == Undefined)
      && (info.uid == Undefined <==> u.uid == Undefined)
      && (info.creationDate == Undefined <==>
            u.metadata.None? || render(u.metadata.value.creationTimestamp) == Undefined)
      && (info.lastSignInDate == Undefined <==>
            u.metadata.None? || render(u.metadata.value.lastSignInTimestamp) == Undefined)
      && (other.uid != u.uid ==> Info(Some(other), render) != info)
    ensures TextsFor(LogOutDialog) != TextsFor(DeleteDialog)
    ensures TextsFor(LogOutDialog).message != "" && TextsFor(DeleteDialog).message != ""
  {
  }

  /**
    Teardown end to end: the page leaves through the log-out action only if
    the record deletion succeeded and the auth removal then reported a success.
   */
  lemma LogOutAfterDeletionNeedsBothSteps(user: Option<AuthUser>, recordDeletion: Result<Unit>, authResults: seq<Result<Unit>>, i: int)
    requires var emitted := DeleteUserAccount(user, recordDeletion, authResults).emitted;
      0 <= i < |emitted| && LogOut in OnDeleteResult(emitted[i])
    ensures user.Some? && recordDeletion.Success? && authResults[i].Success?
  {
  }
}
