/**
 * The alert cooldown of Modules/alert_system.py.
 *
 * `AlertSystem.alert` fires only when strictly more than `cooldown` seconds
 * have passed since the last alert it fired, and then records the time.
 * Sound and desktop notification are reported as a list of effects instead of
 * being performed; the clock and the existence of the sound file are
 * parameters.
 */
module Alerts {

  import opened Options

  const DefaultCooldown: real := 5.0
  const NotificationTitle: string := "Dialog Detected!"
  const AppName: string := "Dialog Detector"
  const NotificationTimeout: int := 5

  /** A notification body: the message, and the confidence appended to it as a suffix line, if any. */
  datatype Body = Body(message: string, confidence: Option<real>)

  /** What an alert does outside the program. */
  datatype Effect =
    | PlayWave(path: string)                                              // winsound.PlaySound(file, ...)
    | MessageBeep                                                         // winsound.MessageBeep(...)
    | Notify(title: string, body: Body, appName: string, timeout: int)   // plyer notification.notify(...)

  /**
   * The message `alert` sends: the input message, with a confidence suffix
   * exactly when details are given and hold a 'confidence' entry. Only the
   * numeric entries of the details dictionary are modelled.
   */
  function FullMessage(message: string, details: Option<map<string, real>>): (b: Body)
    ensures b.message == message
    ensures b.confidence.Some? <==> details.Some? && "confidence" in details.value
    ensures b.confidence.Some? ==> b.confidence == Some(details.value["confidence"])
  {
    if details.Some? && |details.value| > 0 && "confidence" in details.value then
      Body(message, Some(details.value["confidence"]))
    else
      Body(message, None)
  }

  /** `play_sound`: nothing when sound is off, the custom WAV when it is set and exists, a beep otherwise. */
  function SoundEffects(useSound: bool, soundFile: Option<string>, soundFileExists: bool): (r: seq<Effect>)
    ensures !useSound <==> r == []
    ensures |r| <= 1
    ensures r != [] && r[0].PlayWave? ==> soundFile == Some(r[0].path) && soundFileExists
  {
    if !useSound then []
    else if soundFile.Some? && soundFile.value != "" && soundFileExists then [PlayWave(soundFile.value)]
    else [MessageBeep]
  }

  /** `send_notification`: nothing when notifications are off. */
  function NotificationEffects(useNotification: bool, title: string, body: Body): (r: seq<Effect>)
    ensures !useNotification <==> r == []
    ensures r != [] ==> r == [Notify(title, body, AppName, NotificationTimeout)]
  {
    if useNotification then [Notify(title, body, AppName, NotificationTimeout)] else []
  }

  /** The cooldown test: strictly more than `cooldown` seconds since the last alert. */
  predicate CooldownElapsed(lastAlertTime: real, cooldown: real, now: real)
  {
    now - lastAlertTime > cooldown
  }

  class AlertSystem {
    var lastAlertTime: real
    var cooldown: real
    var soundFile: Option<string>
    var useSound: bool
    var useNotification: bool

    constructor ()
      ensures lastAlertTime == 0.0 && cooldown == DefaultCooldown && soundFile == None
      ensures useSound && useNotification
    {
      lastAlertTime := 0.0;
      cooldown := DefaultCooldown;
      soundFile := None;
      useSound := true;
      useNotification := true;
    }

    method PlaySound(soundFileExists: bool) returns (effects: seq<Effect>)
      ensures effects == SoundEffects(useSound, soundFile, soundFileExists)
    {
      if !useSound {
        return [];
      }
      if soundFile.Some? && soundFile.value != "" && soundFileExists {
        effects := [PlayWave(soundFile.value)];
      } else {
        effects := [MessageBeep];
      }
    }

    method SendNotification(title: string, body: Body) returns (effects: seq<Effect>)
      ensures effects == NotificationEffects(useNotification, title, body)
    {
      if !useNotification {
        return [];
      }
      effects := [Notify(title, body, AppName, NotificationTimeout)];
    }

    /**
     * `alert(message, details)`: fires when the cooldown has elapsed, performing
     * the sound and the notification and recording the time; otherwise does
     * nothing and returns False.
     */
    method Alert(message: string, details: Option<map<string, real>> := None, currentTime: real, soundFileExists: bool)
      returns (fired: bool, effects: seq<Effect>)
      modifies this`lastAlertTime
      ensures fired <==> CooldownElapsed(old(lastAlertTime), cooldown, currentTime)
      ensures lastAlertTime == if fired then currentTime else old(lastAlertTime)
      ensures !fired ==> effects == []
      ensures fired ==> effects == SoundEffects(useSound, soundFile, soundFileExists) +
                                   NotificationEffects(useNotification, NotificationTitle, FullMessage(message, details))
    {
      if currentTime - lastAlertTime > cooldown {
        var sound := PlaySound(soundFileExists);
        var fullMessage := FullMessage(message, details);
        var notification := SendNotification(NotificationTitle, fullMessage);
        lastAlertTime := currentTime;
        return true, sound + notification;
      }
      return false, [];
    }
  }

  /** How many of a sequence of `alert` calls at the given times fire, starting from `lastAlertTime`. */
  function FiredCount(lastAlertTime: real, cooldown: real, times: seq<real>): (n: nat)
    decreases |times|
    ensures n <= |times|
    ensures times != [] && CooldownElapsed(lastAlertTime, cooldown, times[0]) ==> n >= 1
  {
    if times == [] then 0
    else if CooldownElapsed(lastAlertTime, cooldown, times[0]) then 1 + FiredCount(times[0], cooldown, times[1..])
    else FiredCount(lastAlertTime, cooldown, times[1..])
  }

  /** `alert` called once for each time of `times`, in order; `fired` counts the calls that fired. */
  method AlertAll(a: AlertSystem, message: string, times: seq<real>, soundFileExists: bool) returns (fired: nat)
    modifies a
    ensures fired == FiredCount(old(a.lastAlertTime), a.cooldown, times)
    ensures a.cooldown == old(a.cooldown)
  {
    fired := 0;
    var i := 0;
    while i < |times|
      invariant 0 <= i <= |times|
      invariant a.cooldown == old(a.cooldown)
      invariant fired + FiredCount(a.lastAlertTime, a.cooldown, times[i..]) ==
                FiredCount(old(a.lastAlertTime), a.cooldown, times)
    {
      assert times[i..][1..] == times[i + 1..];
      var f, effects := a.Alert(message, None, times[i], soundFileExists);
      if f {
        fired := fired + 1;
      }
      i := i + 1;
    }
  }

  /** No call within `cooldown` of the last alert fires. */
  lemma {:induction false} NoneWithinCooldown(lastAlertTime: real, cooldown: real, times: seq<real>)
    requires forall i :: 0 <= i < |times| ==> times[i] - lastAlertTime <= cooldown
    ensures FiredCount(lastAlertTime, cooldown, times) == 0
    decreases |times|
  {
    if times != [] {
      assert !CooldownElapsed(lastAlertTime, cooldown, times[0]);
      NoneWithinCooldown(lastAlertTime, cooldown, times[1..]);
    }
  }

  /**
   * Calls made in order within one cooldown window (no two more than `cooldown`
   * apart) fire at most once between them.
   */
  lemma {:induction false} AtMostOnceWithinCooldown(lastAlertTime: real, cooldown: real, times: seq<real>)
    requires forall i, j :: 0 <= i < j < |times| ==> times[i] <= times[j] <= times[i] + cooldown
    ensures FiredCount(lastAlertTime, cooldown, times) <= 1
    decreases |times|
  {
    if times != [] {
      if CooldownElapsed(lastAlertTime, cooldown, times[0]) {
        forall i | 0 <= i < |times[1..]| ensures times[1..][i] - times[0] <= cooldown {
          assert times[1..][i] == times[i + 1];
        }
        NoneWithinCooldown(times[0], cooldown, times[1..]);
      } else {
        AtMostOnceWithinCooldown(lastAlertTime, cooldown, times[1..]);
      }
    }
  }

  /** The same on the class: of two calls at most `cooldown` apart, at most one fires. */
  method TwoCallsWithinCooldown(a: AlertSystem, t1: real, t2: real, message: string)
    returns (first: bool, second: bool)
    requires t1 <= t2 <= t1 + a.cooldown
    modifies a
    ensures !(first && second)
  {
    var effects;
    first, effects := a.Alert(message, None, t1, false);
    second, effects := a.Alert(message, None, t2, false);
  }
}
