/** Pairing of `connect` and `disconnect` over whole traces: every
    `connect` is followed by exactly one `disconnect` before the next
    `connect`, and a GATT session is live exactly while the last of them
    was a `connect`. */
module Pairing {
  import opened Results
  import opened Driver
  import opened Lifecycle

  /** The phase change an event records: `connect` opens a connection,
      `disconnect` closes it; readings and battery levels change nothing. */
  function PhaseOf(e: Event): (p: seq<bool>)
    ensures |p| <= 1
    ensures p == [true] <==> e.Connected?
    ensures p == [false] <==> e.Disconnected?
  {
    match e
    case Connected(_) => [true]
    case Disconnected => [false]
    case _ => []
  }

  /** The phase changes a log records, oldest first. */
  function Phases(log: seq<Event>): (p: seq<bool>)
    ensures |p| <= |log|
    decreases |log|
  {
    if |log| == 0 then [] else Phases(log[..|log| - 1]) + PhaseOf(log[|log| - 1])
  }

  /** Phases alternate, starting with an open connection. */
  predicate Alternates(p: seq<bool>) {
    forall i :: 0 <= i < |p| ==> p[i] == (i % 2 == 0)
  }

  /** The last recorded phase is an open connection. */
  predicate IsOpen(p: seq<bool>) {
    |p| > 0 && p[|p| - 1]
  }

  /** The companion invariant: the log alternates `connect` and `disconnect`,
      and a session is live exactly after an odd number of them. */
  ghost predicate Paired(s: State) {
    && Alternates(Phases(s.log))
    && (s.sessions != map[] <==> |Phases(s.log)| % 2 == 1)
  }

  /** Appending one event appends its phase change. */
  lemma PhasesSnoc(log: seq<Event>, e: Event)
    ensures Phases(log + [e]) == Phases(log) + PhaseOf(e)
  {
    assert (log + [e])[..|log|] == log;
  }

  /** The phase that comes next keeps the phases alternating. */
  lemma AlternatesSnoc(p: seq<bool>, x: bool)
    requires Alternates(p) && x == (|p| % 2 == 0)
    ensures Alternates(p + [x])
  {
    forall i | 0 <= i < |p| + 1
      ensures (p + [x])[i] == (i % 2 == 0)
    {
      if i < |p| {
        assert (p + [x])[i] == p[i];
      }
    }
  }

  /** Alternating phases end open exactly when there is an odd number of them. */
  lemma OpenWhenOdd(p: seq<bool>)
    requires Alternates(p)
    ensures IsOpen(p) <==> |p| % 2 == 1
  {
    if |p| > 0 {
      assert p[|p| - 1] == ((|p| - 1) % 2 == 0);
    }
  }

  /** With no device held, a consistent driver has no live session. */
  lemma NoSessionWhenReleased(s: State)
    requires Consistent(s) && s.device.None?
    ensures s.sessions == map[]
  {
    assert s.sessions.Keys == {};
  }

  /** The disconnect callback keeps the pairing: ending the one live session
      logs the one `disconnect` that closes the open phase. */
  lemma EndSessionKeepsPaired(s: State, dev: DeviceId)
    requires Consistent(s) && Paired(s)
    ensures Paired(PeripheralDisconnected(s, dev))
  {
    if dev in s.sessions {
      var t := PeripheralDisconnected(s, dev);
      assert s.device == Some(dev);
      assert t.sessions.Keys == {};
      assert t.log == s.log + [Disconnected];
      PhasesSnoc(s.log, Disconnected);
      AlternatesSnoc(Phases(s.log), false);
    }
  }

  /** `disconnect()` keeps the pairing. */
  lemma DisconnectKeepsPaired(s: State)
    requires Consistent(s) && Paired(s)
    ensures Paired(Disconnect(s))
  {
    if s.device.Some? {
      EndSessionKeepsPaired(s, s.device.value);
    }
  }

  /** A successful connect records one new phase, an open connection, on
      top of the released log, and gives the new device a session. */
  lemma OpenedPhases(s: State, dev: DeviceId, gatt: Gatt)
    requires gatt.connect.Pass?
    ensures var t := OpenDevice(s, dev, gatt).after;
      && dev in t.sessions
      && Phases(t.log) == Phases(Disconnect(s).log) + [true]
  {
    var t := OpenDevice(s, dev, gatt).after;
    var afterConnect := Disconnect(s).log + [Connected(dev)];
    PhasesSnoc(Disconnect(s).log, Connected(dev));
    if t.log != afterConnect {
      var level := BatteryLevel(gatt.batteryRead.value[0]);
      assert t.log == afterConnect + [level];
      PhasesSnoc(afterConnect, level);
    }
  }

  /** After `disconnect()` a consistent, paired driver has no open phase
      and no live session. */
  lemma ReleasedIsClosed(s: State)
    requires Consistent(s) && Paired(s)
    ensures var r := Disconnect(s);
      && Alternates(Phases(r.log))
      && r.sessions == map[]
      && |Phases(r.log)| % 2 == 0
  {
    DisconnectKeepsConsistent(s);
    DisconnectKeepsPaired(s);
    NoSessionWhenReleased(Disconnect(s));
  }

  /** Opening one connection after an even, alternating history. */
  lemma OpenAfterClosed(p: seq<bool>, q: seq<bool>)
    requires Alternates(p) && |p| % 2 == 0 && q == p + [true]
    ensures Alternates(q) && |q| % 2 == 1
  {
    AlternatesSnoc(p, true);
  }

  /** Opening a device keeps the pairing: after the release no phase is
      open, and a successful connect opens exactly one. */
  lemma OpenKeepsPaired(s: State, dev: DeviceId, gatt: Gatt)
    requires Consistent(s) && Paired(s)
    ensures Paired(OpenDevice(s, dev, gatt).after)
  {
    ReleasedIsClosed(s);
    var t := OpenDevice(s, dev, gatt).after;
    if gatt.connect.Pass? {
      OpenedPhases(s, dev, gatt);
      OpenAfterClosed(Phases(Disconnect(s).log), Phases(t.log));
      assert t.sessions != map[];
    } else {
      assert t == Disconnect(s);
    }
  }

  /** Appending a reading or a battery level, sessions unchanged, keeps the
      pairing. */
  lemma DataEventKeepsPaired(s: State, t: State, e: Event)
    requires Paired(s)
    requires t.sessions == s.sessions && t.log == s.log + [e]
    requires !e.Connected? && !e.Disconnected?
    ensures Paired(t)
  {
    PhasesSnoc(s.log, e);
  }

  /** A delivered notification adds no phase change and leaves the sessions. */
  lemma DeliverKeepsPaired(s: State, a: Action)
    requires Paired(s)
    requires a.TemperatureNotified? || a.BatteryNotified?
    ensures Paired(Apply(s, a))
  {
    match a
    case TemperatureNotified(dev, value) =>
      var t := DeliverTemperature(s, dev, value);
      if |t.log| > |s.log| {
        var e := t.log[|s.log|];
        assert t.log == s.log + [e];
        DataEventKeepsPaired(s, t, e);
      }
    case BatteryNotified(dev, value) =>
      var t := DeliverBattery(s, dev, value);
      if |t.log| > |s.log| {
        DataEventKeepsPaired(s, t, BatteryLevel(value[0]));
      }
  }

  /** Every single action keeps the pairing. */
  lemma ApplyKeepsPaired(s: State, a: Action)
    requires Consistent(s) && Paired(s)
    ensures Paired(Apply(s, a))
  {
    match a
    case ScanCall(chooser, gatt) =>
      if chooser.Ok? && chooser.value.Some? {
        OpenKeepsPaired(s, chooser.value.value, gatt);
      }
    case DisconnectCall =>
      DisconnectKeepsPaired(s);
    case ServerDisconnected(dev) =>
      EndSessionKeepsPaired(s, dev);
    case TemperatureNotified(_, _) =>
      DeliverKeepsPaired(s, a);
    case BatteryNotified(_, _) =>
      DeliverKeepsPaired(s, a);
  }

  /** The pairing holds after any sequence of actions from a consistent,
      paired state. */
  lemma {:induction false} RunKeepsPaired(s: State, actions: seq<Action>)
    requires Consistent(s) && Paired(s)
    ensures Paired(Run(s, actions))
    decreases |actions|
  {
    if |actions| > 0 {
      ApplyKeepsConsistent(s, actions[0]);
      ApplyKeepsPaired(s, actions[0]);
      RunKeepsPaired(Apply(s, actions[0]), actions[1..]);
    }
  }

  /** Whatever happens from the driver's initial state, `connect` and
      `disconnect` alternate, starting with `connect`: no `disconnect` is
      duplicated or skipped. A GATT session is live exactly when the last of
      them was a `connect`. */
  lemma ConnectDisconnectAlternate(actions: seq<Action>)
    ensures var s := Run(Fresh, actions);
      && Alternates(Phases(s.log))
      && (s.sessions != map[] <==> IsOpen(Phases(s.log)))
  {
    RunKeepsPaired(Fresh, actions);
    OpenWhenOdd(Phases(Run(Fresh, actions).log));
  }

  /** When the held device's link drops, its callback dispatches the one
      `disconnect`; a later `disconnect()` releases it silently. */
  lemma LinkLossThenDisconnect(s: State, d: DeviceId)
    requires Consistent(s) && s.device == Some(d) && d in s.sessions
    ensures Apply(s, ServerDisconnected(d)).log == s.log + [Disconnected]
    ensures var t := Apply(Apply(s, ServerDisconnected(d)), DisconnectCall);
      t.log == s.log + [Disconnected] && t.device == None && t.sessions == map[]
  {
    var dropped := Apply(s, ServerDisconnected(d));
    assert dropped.sessions.Keys == {};
  }
}
