/** The trial enforcer of the app store page: access is free while the one-hour trial
    recorded at installation lasts, or for good once paid. Times are milliseconds since
    the epoch; the install record the page keeps in local storage is an `Option`. */
module Trial {
  import opened Text

  /** The install record written at download time (`trialExpiresAt` as milliseconds). */
  datatype InstallData = InstallData(installedAt: int, installedBy: string, trialExpiresAt: int, paid: bool)

  const AppId := "mpa"
  const TrialDurationHours := 1
  const CheckInterval := 60000
  const MsPerMinute := 1000 * 60

  /** The remaining minutes at which a notice is shown. */
  const ReminderMinutes: set<int> := {15, 10, 5, 1}

  /** `Math.floor(ms / 60000)` for the positive spans it is applied to. */
  function WholeMinutes(ms: int): (r: int)
    requires ms > 0
    ensures 0 <= r && r * MsPerMinute <= ms < (r + 1) * MsPerMinute
  {
    ms / MsPerMinute
  }

  /** The text of the trial notice for `minutes` minutes. */
  function NoticeText(minutes: nat): string {
    "\U{23F0} Trial Notice: " + NatToString(minutes) + " minute" + (if minutes > 1 then "s" else "")
      + " remaining in your free trial."
  }

  /** `showTrialReminder`: the notice shown, if any. */
  function TrialReminder(minutes: int): (r: Option<string>)
    ensures r.Some? <==> minutes in ReminderMinutes
    ensures r.Some? ==> minutes >= 1 && r.value == NoticeText(minutes)
  {
    if minutes in ReminderMinutes then Some(NoticeText(minutes)) else None
  }

  /** The word "minute" takes an "s" exactly when more than one minute is left. */
  lemma NoticePlural(minutes: nat)
    ensures var t := NoticeText(minutes);
      var u := "\U{23F0} Trial Notice: " + NatToString(minutes) + " minute";
      t[..|u|] == u && (t[|u|] == 's' <==> minutes > 1)
  {
    var u := "\U{23F0} Trial Notice: " + NatToString(minutes) + " minute";
    var t := NoticeText(minutes);
    var tail := " remaining in your free trial.";
    if minutes > 1 {
      assert t == u + "s" + tail;
    } else {
      assert t == u + tail;
    }
  }

  /** What `checkTrialStatus` decides: access, and the notice it shows on the way. */
  datatype Status = Status(canAccess: bool, notice: Option<string>)

  /** `checkTrialStatus` at time `now`. */
  function CheckTrialStatus(install: Option<InstallData>, now: int): (r: Status)
    ensures r.canAccess <==> install.None? || install.value.paid || now < install.value.trialExpiresAt
    ensures r.notice.Some? ==> install.Some? && !install.value.paid && now < install.value.trialExpiresAt
    ensures r.notice.Some? ==> WholeMinutes(install.value.trialExpiresAt - now) in ReminderMinutes
  {
    match install
    case None => Status(true, None)
    case Some(d) =>
      if d.paid then Status(true, None)
      else if now < d.trialExpiresAt then Status(true, TrialReminder(WholeMinutes(d.trialExpiresAt - now)))
      else Status(false, None)
  }

  /** `getRemainingTrialTime`: `null` without a record or once paid, else whole minutes. */
  function RemainingTrialTime(install: Option<InstallData>, now: int): (r: Option<int>)
    ensures r.None? <==> install.None? || install.value.paid
    ensures r.Some? ==> r.value >= 0
    ensures r.Some? && install.value.trialExpiresAt - now <= 0 ==> r.value == 0
    ensures r.Some? && install.value.trialExpiresAt - now > 0 ==>
              r.value * MsPerMinute <= install.value.trialExpiresAt - now
              < (r.value + 1) * MsPerMinute
  {
    match install
    case None => None
    case Some(d) =>
      if d.paid then None
      else
        var remaining := d.trialExpiresAt - now;
        if remaining <= 0 then Some(0) else Some(WholeMinutes(remaining))
  }

  /** The minutes a notice speaks of are the remaining minutes `getRemainingTrialTime` reports. */
  lemma NoticeAgreesWithRemaining(install: Option<InstallData>, now: int)
    requires CheckTrialStatus(install, now).notice.Some?
    ensures RemainingTrialTime(install, now).Some?
    ensures var minutes := RemainingTrialTime(install, now).value;
      minutes in ReminderMinutes && CheckTrialStatus(install, now).notice.value == NoticeText(minutes)
  {}

  /** An unpaid user is refused exactly when the trial has run out, and the remaining time
      is then zero. */
  lemma ExpiredMeansZero(install: Option<InstallData>, now: int)
    requires install.Some? && !install.value.paid
    ensures !CheckTrialStatus(install, now).canAccess <==> install.value.trialExpiresAt <= now
    ensures !CheckTrialStatus(install, now).canAccess ==> RemainingTrialTime(install, now) == Some(0)
  {}

  /** The `TrialEnforcer` object. `intervalId` is the handle of the periodic check;
      `active` is the set of intervals the timer environment is running for it. */
  class Enforcer {
    var intervalId: Option<nat>
    var active: set<nat>

    constructor()
      ensures intervalId == None && active == {}
    {
      intervalId := None;
      active := {};
    }

    /** `startPeriodicCheck`: `timer` is the handle `setInterval` returns. */
    method StartPeriodicCheck(timer: nat)
      modifies this
      ensures intervalId == Some(timer) && active == old(active) + {timer}
    {
      intervalId := Some(timer);
      active := active + {timer};
    }

    /** `stopPeriodicCheck`: a truthy handle is cleared and forgotten. */
    method StopPeriodicCheck()
      modifies this
      ensures old(intervalId).Some? && old(intervalId).value != 0 ==>
                intervalId == None && active == old(active) - {old(intervalId).value}
      ensures !(old(intervalId).Some? && old(intervalId).value != 0) ==>
                intervalId == old(intervalId) && active == old(active)
    {
      if intervalId.Some? && intervalId.value != 0 {
        active := active - {intervalId.value};
        intervalId := None;
      }
    }

    /** `blockAccess`, without the overlay it draws: the periodic check stops. */
    method BlockAccess()
      modifies this
      ensures old(intervalId).Some? && old(intervalId).value != 0 ==>
                intervalId == None && active == old(active) - {old(intervalId).value}
      ensures !(old(intervalId).Some? && old(intervalId).value != 0) ==>
                intervalId == old(intervalId) && active == old(active)
    {
      StopPeriodicCheck();
    }

    /** `init`: refuse and block, or start checking every minute with handle `timer`.
        Blocking stops a check already running under a truthy handle; starting keeps
        the new handle and leaves an earlier interval running. */
    method Init(install: Option<InstallData>, now: int, timer: nat) returns (ok: bool)
      modifies this
      ensures ok == CheckTrialStatus(install, now).canAccess
      ensures ok ==> intervalId == Some(timer) && active == old(active) + {timer}
      ensures !ok && old(intervalId).Some? && old(intervalId).value != 0 ==>
                intervalId == None && active == old(active) - {old(intervalId).value}
      ensures !ok && !(old(intervalId).Some? && old(intervalId).value != 0) ==>
                intervalId == old(intervalId) && active == old(active)
    {
      var canAccess := CheckTrialStatus(install, now).canAccess;
      if !canAccess {
        BlockAccess();
        return false;
      }
      StartPeriodicCheck(timer);
      return true;
    }

    /** One run of the periodic check: once access is refused, a truthy handle is cleared
        and forgotten. An interval orphaned by a repeated `init` still ticks after the
        handle is gone, and then stopping does nothing. */
    method Tick(install: Option<InstallData>, now: int) returns (canAccess: bool)
      modifies this
      ensures canAccess == CheckTrialStatus(install, now).canAccess
      ensures canAccess ==> intervalId == old(intervalId) && active == old(active)
      ensures !canAccess && old(intervalId).Some? && old(intervalId).value != 0 ==>
                intervalId == None && active == old(active) - {old(intervalId).value}
      ensures !canAccess && !(old(intervalId).Some? && old(intervalId).value != 0) ==>
                intervalId == old(intervalId) && active == old(active)
    {
      canAccess := CheckTrialStatus(install, now).canAccess;
      if !canAccess {
        StopPeriodicCheck();
        BlockAccess();
      }
    }
  }

  /** Stopping twice is stopping once. */
  method StopTwice(e: Enforcer)
    modifies e
    ensures old(e.intervalId).Some? && old(e.intervalId).value != 0 ==>
              e.intervalId == None && e.active == old(e.active) - {old(e.intervalId).value}
    ensures !(old(e.intervalId).Some? && old(e.intervalId).value != 0) ==>
              e.intervalId == old(e.intervalId) && e.active == old(e.active)
  {
    e.StopPeriodicCheck();
    e.StopPeriodicCheck();
  }

  /** A trial that starts, runs until expiry and is then checked again ends with no interval
      running and access refused. */
  method ExpiryScenario(installedAt: int) returns (startOk: bool, laterOk: bool, running: set<nat>)
    ensures startOk && !laterOk && running == {}
  {
    var install := Some(InstallData(installedAt, "a@b.c", installedAt + TrialDurationHours * 3600000, false));
    var e := new Enforcer();
    startOk := e.Init(install, installedAt, 7);
    laterOk := e.Tick(install, installedAt + 3600000);
    running := e.active;
  }

  /** Starting twice orphans the first interval: once the trial has expired, a tick clears
      only the second handle, and the first interval is never stopped. */
  method OrphanScenario(installedAt: int) returns (handle: Option<nat>, running: set<nat>)
    ensures handle == None && running == {7}
  {
    var install := Some(InstallData(installedAt, "a@b.c", installedAt + TrialDurationHours * 3600000, false));
    var e := new Enforcer();
    var first := e.Init(install, installedAt, 7);
    var second := e.Init(install, installedAt, 8);
    var later := e.Tick(install, installedAt + 3600000);
    later := e.Tick(install, installedAt + 3600000 + 60000);
    handle := e.intervalId;
    running := e.active;
  }
}
