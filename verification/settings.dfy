/**
  The notification preference: one boolean key in the app's preference
  store that reads as true while unset, the view-model's enable/disable
  operations (preference write plus the do-not-disturb filter when the app may
  change it), and the settings screen's button guards.
 */
module Settings {
  const NotificationsKey: string := "notifications_enabled"

  /** The boolean entries of the preference store. */
  type Preferences = map<string, bool>

  /** The preference as the stored-value stream reports it: the stored value, or true when never set. */
  function NotificationsEnabled(prefs: Preferences): (enabled: bool)
    ensures NotificationsKey in prefs ==> (enabled <==> prefs[NotificationsKey])
    ensures !enabled ==> NotificationsKey in prefs
  {
    if NotificationsKey in prefs then prefs[NotificationsKey] else true
  }

  /** `setNotificationsEnabled`: one edit of the store that writes the notifications key only. */
  function SetNotificationsEnabled(prefs: Preferences, enabled: bool): (r: Preferences)
    ensures NotificationsEnabled(r) == enabled
    ensures r.Keys == prefs.Keys + {NotificationsKey}
    ensures forall k :: k in prefs && k != NotificationsKey ==> r[k] == prefs[k]
  {
    prefs[NotificationsKey := enabled]
  }

  /** A store that never saw the key reads as enabled. */
  lemma UnsetReadsEnabled(prefs: Preferences)
    requires NotificationsKey !in prefs
    ensures NotificationsEnabled(prefs)
  {
  }

  /** Writing the same value twice is writing it once. */
  lemma SetIdempotent(prefs: Preferences, enabled: bool)
    ensures SetNotificationsEnabled(SetNotificationsEnabled(prefs, enabled), enabled) == SetNotificationsEnabled(prefs, enabled)
  {
  }

  /** The second of two writes is the one that counts. */
  lemma LastWriteWins(prefs: Preferences, first: bool, second: bool)
    ensures SetNotificationsEnabled(SetNotificationsEnabled(prefs, first), second) == SetNotificationsEnabled(prefs, second)
  {
  }

  /** `areNotificationsEnabled` maps every stored state the store emits to its reading, one for one. */
  function AreNotificationsEnabled(states: seq<Preferences>): (r: seq<bool>)
    ensures |r| == |states|
    ensures forall i :: 0 <= i < |states| ==> r[i] == NotificationsEnabled(states[i])
  {
    seq(|states|, i requires 0 <= i < |states| => NotificationsEnabled(states[i]))
  }

  /** The system's do-not-disturb setting as the view-model may set it. */
  datatype InterruptionFilter = FilterAll | FilterPriority | FilterNone | FilterAlarms | FilterUnknown

  /** What the settings operations act on: the preference store and the notification manager. */
  datatype Device = Device(prefs: Preferences, policyAccessGranted: bool, filter: InterruptionFilter)

  /** `enableNotifications`: store true; let everything through only if the app has policy access. */
  function EnableNotifications(d: Device): (r: Device)
    ensures NotificationsEnabled(r.prefs)
    ensures r.prefs == SetNotificationsEnabled(d.prefs, true)
    ensures r.policyAccessGranted == d.policyAccessGranted
    ensures r.filter == FilterAll <==> d.policyAccessGranted || d.filter == FilterAll
    ensures !d.policyAccessGranted ==> r.filter == d.filter
  {
    Device(SetNotificationsEnabled(d.prefs, true), d.policyAccessGranted,
           if d.policyAccessGranted then FilterAll else d.filter)
  }

  /** `disableNotifications`: store false; silence everything only if the app has policy access. */
  function DisableNotifications(d: Device): (r: Device)
    ensures !NotificationsEnabled(r.prefs)
    ensures r.prefs == SetNotificationsEnabled(d.prefs, false)
    ensures r.policyAccessGranted == d.policyAccessGranted
    ensures r.filter == FilterNone <==> d.policyAccessGranted || d.filter == FilterNone
    ensures !d.policyAccessGranted ==> r.filter == d.filter
  {
    Device(SetNotificationsEnabled(d.prefs, false), d.policyAccessGranted,
           if d.policyAccessGranted then FilterNone else d.filter)
  }

  /** Disabling undoes enabling as far as the preference goes, and vice versa. */
  lemma EnableDisableAlternate(d: Device)
    ensures NotificationsEnabled(DisableNotifications(EnableNotifications(d)).prefs) == false
    ensures NotificationsEnabled(EnableNotifications(DisableNotifications(d)).prefs) == true
    ensures DisableNotifications(EnableNotifications(d)).prefs == DisableNotifications(d).prefs
  {
    LastWriteWins(d.prefs, true, false);
  }

  /** The value the screen collects: the latest reading, false before the first one. */
  function Shown(readings: seq<bool>): (shown: bool)
    ensures readings == [] ==> !shown
    ensures readings != [] ==> shown == readings[|readings| - 1]
  {
    if readings == [] then false else readings[|readings| - 1]
  }

  /** Fed by the store, the screen shows the reading of the store's latest state, and "disabled" before any. */
  lemma ShownFollowsStore(states: seq<Preferences>)
    ensures states == [] ==> !Shown(AreNotificationsEnabled(states))
    ensures states != [] ==> Shown(AreNotificationsEnabled(states)) == NotificationsEnabled(states[|states| - 1])
  {
  }

  /** Which of the two buttons accepts clicks. */
  datatype Buttons = Buttons(enableEnabled: bool, disableEnabled: bool)

  function ButtonsFor(shown: bool): (b: Buttons)
    ensures b.enableEnabled <==> !shown
    ensures b.disableEnabled <==> shown
    ensures b.enableEnabled != b.disableEnabled
  {
    Buttons(!shown, shown)
  }

  /** What a click sets off: the system's access screen, then the view-model operation. */
  datatype Effect = RequestNotificationAccess | EnableRequested | DisableRequested

  /** The enable click acts only while notifications show as disabled. */
  function OnEnableClick(shown: bool): (effects: seq<Effect>)
    ensures shown ==> effects == []
    ensures !shown ==> effects == [RequestNotificationAccess, EnableRequested]
  {
    if !shown then [RequestNotificationAccess, EnableRequested] else []
  }

  /** The disable click acts only while notifications show as enabled. */
  function OnDisableClick(shown: bool): (effects: seq<Effect>)
    ensures !shown ==> effects == []
    ensures shown ==> effects == [RequestNotificationAccess, DisableRequested]
  {
    if shown then [RequestNotificationAccess, DisableRequested] else []
  }

  /** The view-model operations a list of effects runs; the access screen changes nothing here. */
  function Apply(d: Device, effects: seq<Effect>): Device
    decreases |effects|
  {
    if effects == [] then d
    else
      var next := match effects[0]
        case RequestNotificationAccess => d
        case EnableRequested => EnableNotifications(d)
        case DisableRequested => DisableNotifications(d);
      Apply(next, effects[1..])
  }

  /** A click that the guard lets through leaves the preference at the value the button names. */
  lemma ClicksReachTheirValue(d: Device, shown: bool)
    ensures !shown ==> NotificationsEnabled(Apply(d, OnEnableClick(shown)).prefs)
    ensures shown ==> !NotificationsEnabled(Apply(d, OnDisableClick(shown)).prefs)
    ensures shown ==> Apply(d, OnEnableClick(shown)) == d
    ensures !shown ==> Apply(d, OnDisableClick(shown)) == d
  {
    var e := [RequestNotificationAccess, EnableRequested];
    assert e[1..] == [EnableRequested] && e[1..][1..] == [];
    var f := [RequestNotificationAccess, DisableRequested];
    assert f[1..] == [DisableRequested] && f[1..][1..] == [];
  }

  /**
    Before the first reading the screen shows notifications as disabled and
    offers only the enable button, although a fresh store reads as enabled.
   */
  lemma FreshScreenDisagreesWithStore()
    ensures !Shown([]) && ButtonsFor(Shown([])).enableEnabled
    ensures NotificationsEnabled(map[])
  {
  }
}
