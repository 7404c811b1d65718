/** The alert system: a list of alerts, each with the time it is due, the
    sound to play and a one-way `triggered` flag. One pass of the checking
    loop at a given time triggers every due alert that has not fired yet.
    The thread, the sleep between passes and the clock are not modelled: a
    pass takes the current time as a parameter. */
module Alerts {
  import opened Dates

  datatype Alert = Alert(eventTime: Instant, soundFile: string, triggered: bool)

  /** The condition of the checking loop: the time has come and the alert
      has not fired. */
  predicate Due(a: Alert, now: Instant) {
    InstantLe(a.eventTime, now) && !a.triggered
  }

  /** The alerts after one pass at `now`. */
  function Pass(alerts: seq<Alert>, now: Instant): (after: seq<Alert>) {
    seq(|alerts|, i requires 0 <= i < |alerts| =>
      if Due(alerts[i], now) then alerts[i].(triggered := true) else alerts[i])
  }

  /** The positions, in list order, of the alerts among the first n that a
      pass at `now` fires. */
  function FiredBelow(alerts: seq<Alert>, now: Instant, n: nat): (fired: seq<nat>)
    requires n <= |alerts|
    ensures forall k :: 0 <= k < |fired| ==> fired[k] < n
  {
    if n == 0 then []
    else FiredBelow(alerts, now, n - 1) + (if Due(alerts[n - 1], now) then [n - 1] else [])
  }

  /** The positions of the alerts a pass at `now` fires. */
  function Fired(alerts: seq<Alert>, now: Instant): (fired: seq<nat>)
    ensures forall k :: 0 <= k < |fired| ==> fired[k] < |alerts|
  {
    FiredBelow(alerts, now, |alerts|)
  }

  /** The sounds played for the given positions, in order. */
  function Sounds(alerts: seq<Alert>, positions: seq<nat>): seq<string>
    requires forall k :: 0 <= k < |positions| ==> positions[k] < |alerts|
  {
    seq(|positions|, k requires 0 <= k < |positions| => alerts[positions[k]].soundFile)
  }

  /** The positions fired by passes at each of the given times, in turn. */
  function History(alerts: seq<Alert>, times: seq<Instant>): seq<nat>
    decreases |times|
  {
    if times == [] then [] else Fired(alerts, times[0]) + History(Pass(alerts, times[0]), times[1..])
  }

  predicate NoDuplicates(s: seq<nat>) {
    forall i, j :: 0 <= i < j < |s| ==> s[i] != s[j]
  }

  class AlertSystem {
    var alerts: seq<Alert>
    /** The sound files handed to the player, oldest first. */
    ghost var played: seq<string>

    constructor ()
      ensures alerts == [] && played == []
    {
      alerts := [];
      played := [];
    }

    /** Appends one alert that has not fired. */
    method AddAlert(eventTime: Instant, soundFile: string)
      modifies this
      ensures alerts == old(alerts) + [Alert(eventTime, soundFile, false)]
      ensures played == old(played)
    {
      alerts := alerts + [Alert(eventTime, soundFile, false)];
    }

    /** Marks the alert at position i triggered and plays its sound. */
    method TriggerAlert(i: nat)
      requires i < |alerts|
      modifies this
      ensures alerts == old(alerts)[i := old(alerts)[i].(triggered := true)]
      ensures played == old(played) + [old(alerts)[i].soundFile]
    {
      alerts := alerts[i := alerts[i].(triggered := true)];
      played := played + [alerts[i].soundFile];
    }

    /** One pass of the checking loop at time `now`. */
    method CheckAlerts(now: Instant)
      modifies this
      ensures alerts == Pass(old(alerts), now)
      ensures played == old(played) + Sounds(old(alerts), Fired(old(alerts), now))
    {
      ghost var before := alerts;
      var i := 0;
      while i < |alerts|
        invariant |alerts| == |before| && 0 <= i <= |alerts|
        invariant forall k :: 0 <= k < i ==> alerts[k] == Pass(before, now)[k]
        invariant forall k :: i <= k < |alerts| ==> alerts[k] == before[k]
        invariant played == old(played) + Sounds(before, FiredBelow(before, now, i))
      {
        ghost var firedBefore := FiredBelow(before, now, i);
        if InstantLe(alerts[i].eventTime, now) && !alerts[i].triggered {
          TriggerAlert(i);
          assert FiredBelow(before, now, i + 1) == firedBefore + [i];
          assert Sounds(before, firedBefore + [i]) == Sounds(before, firedBefore) + [before[i].soundFile];
        } else {
          assert FiredBelow(before, now, i + 1) == firedBefore + [];
        }
        i := i + 1;
      }
      assert alerts == Pass(before, now);
    }

    /** Removes every alert. */
    method ClearAlerts()
      modifies this
      ensures alerts == [] && played == old(played)
    {
      alerts := [];
    }
  }

  /** A pass keeps the list's length, order, times and sounds; it triggers
      every alert whose time has come, and leaves the later ones unchanged. */
  lemma PassEffect(alerts: seq<Alert>, now: Instant)
    ensures |Pass(alerts, now)| == |alerts|
    ensures forall i :: 0 <= i < |alerts| ==>
              Pass(alerts, now)[i].eventTime == alerts[i].eventTime &&
              Pass(alerts, now)[i].soundFile == alerts[i].soundFile &&
              Pass(alerts, now)[i].triggered == (alerts[i].triggered || InstantLe(alerts[i].eventTime, now))
    ensures forall i :: 0 <= i < |alerts| && !InstantLe(alerts[i].eventTime, now) ==>
              Pass(alerts, now)[i] == alerts[i]
  {
  }

  /** A pass fires exactly the due alerts, each once, in list order. */
  lemma {:induction false} FiredExactlyDue(alerts: seq<Alert>, now: Instant, n: nat)
    requires n <= |alerts|
    ensures forall i :: i in FiredBelow(alerts, now, n) <==> 0 <= i < n && Due(alerts[i], now)
    ensures forall j, k :: 0 <= j < k < |FiredBelow(alerts, now, n)| ==>
              FiredBelow(alerts, now, n)[j] < FiredBelow(alerts, now, n)[k]
  {
    if n > 0 {
      FiredExactlyDue(alerts, now, n - 1);
    }
  }

  /** A second pass at the same time changes nothing and fires nothing. */
  lemma PassIdempotent(alerts: seq<Alert>, now: Instant)
    ensures Pass(Pass(alerts, now), now) == Pass(alerts, now)
    ensures Fired(Pass(alerts, now), now) == []
  {
    var after := Pass(alerts, now);
    FiredExactlyDue(after, now, |after|);
    if Fired(after, now) != [] {
      assert Fired(after, now)[0] in Fired(after, now);
    }
  }

  /** `triggered` never goes back to false. */
  lemma TriggeredStays(alerts: seq<Alert>, now: Instant, i: nat)
    requires i < |alerts| && alerts[i].triggered
    ensures Pass(alerts, now)[i].triggered
  {
  }

  /** Over any sequence of passes each alert fires at most once, and only an
      alert that had not fired before. */
  lemma {:induction false} AtMostOnce(alerts: seq<Alert>, times: seq<Instant>)
    ensures NoDuplicates(History(alerts, times))
    ensures forall i :: i in History(alerts, times) ==> i < |alerts| && !alerts[i].triggered
    decreases |times|
  {
    if times != [] {
      var now := times[0];
      var after := Pass(alerts, now);
      var first := Fired(alerts, now);
      var rest := History(after, times[1..]);
      AtMostOnce(after, times[1..]);
      FiredExactlyDue(alerts, now, |alerts|);
      forall i | i in first
        ensures i !in rest
      {
        assert after[i].triggered;
      }
      var h := first + rest;
      forall x, y | 0 <= x < y < |h|
        ensures h[x] != h[y]
      {
        if y < |first| {
        } else if x >= |first| {
          assert h[x] == rest[x - |first|] && h[y] == rest[y - |first|];
        } else {
          assert h[x] in first && h[y] == rest[y - |first|] && h[y] in rest;
        }
      }
      forall i | i in h
        ensures i < |alerts| && !alerts[i].triggered
      {
        if i in rest {
          assert !after[i].triggered;
        }
      }
    }
  }
}
