/** Traces of the driver over any sequence of calls and callbacks, and the
    invariants the driver keeps along every such trace. */
module Lifecycle {
  import opened Results
  import opened DataView
  import opened Decoder
  import opened Driver

  /** What can happen to the driver: a public call or a callback from the
      Bluetooth stack, each with the outcomes the stack delivered. */
  datatype Action =
    | ScanCall(chooser: Result<Option<DeviceId>>, gatt: Gatt)
    | DisconnectCall
    | ServerDisconnected(device: DeviceId)
    | TemperatureNotified(device: DeviceId, value: seq<byte>)
    | BatteryNotified(device: DeviceId, value: seq<byte>)

  /** The driver after one action; a rejected `scan()` leaves its state as
      it was at the rejection, the error going to the caller only. */
  function Apply(s: State, a: Action): (t: State)
    ensures s.log <= t.log
    ensures a.DisconnectCall? ==> t.device == None
    ensures a.ServerDisconnected? ==> t.device == s.device
  {
    match a
    case ScanCall(chooser, gatt) => Scan(s, chooser, gatt).after
    case DisconnectCall => Disconnect(s)
    case ServerDisconnected(dev) => PeripheralDisconnected(s, dev)
    case TemperatureNotified(dev, value) => DeliverTemperature(s, dev, value)
    case BatteryNotified(dev, value) => DeliverBattery(s, dev, value)
  }

  function Run(s: State, actions: seq<Action>): State
    decreases |actions|
  {
    if |actions| == 0 then s else Run(Apply(s, actions[0]), actions[1..])
  }

  /** Some `connect` was dispatched before position j of the log. */
  predicate ConnectedBefore(log: seq<Event>, j: int) {
    exists i :: 0 <= i < j && i < |log| && log[i].Connected?
  }

  /** Every event other than `connect` comes after some `connect`. */
  ghost predicate Announced(log: seq<Event>) {
    forall j :: 0 <= j < |log| && !log[j].Connected? ==> ConnectedBefore(log, j)
  }

  /** The invariant of the driver: the held device has the disconnect
      callback installed; at most one GATT session is live and it belongs
      to the held device; the callback is installed exactly on the devices
      announced with `connect`; and every other event follows a `connect`. */
  ghost predicate Consistent(s: State) {
    && (s.device.Some? ==> s.device.value in s.armed)
    && (forall d :: d in s.sessions ==> s.device == Some(d))
    && (forall d :: d in s.armed <==> Connected(d) in s.log)
    && Announced(s.log)
  }

  /** Once a `connect` is out, anything may be appended. */
  lemma AnnouncedAfterConnect(log: seq<Event>, extra: seq<Event>)
    requires Announced(log) && ConnectedBefore(log, |log|)
    ensures Announced(log + extra)
  {
    var t := log + extra;
    forall j | 0 <= j < |t| && !t[j].Connected?
      ensures ConnectedBefore(t, j)
    {
      if j < |log| {
        assert t[j] == log[j];
        var i :| 0 <= i < j && i < |log| && log[i].Connected?;
        assert t[i] == log[i];
      } else {
        var i :| 0 <= i < |log| && log[i].Connected?;
        assert t[i] == log[i];
      }
    }
  }

  /** Appending events led by a `connect` keeps every event announced. */
  lemma AnnouncedConnectFirst(log: seq<Event>, extra: seq<Event>)
    requires Announced(log) && |extra| > 0 && extra[0].Connected?
    ensures Announced(log + extra)
  {
    var t := log + extra;
    assert t[|log|] == extra[0];
    forall j | 0 <= j < |t| && !t[j].Connected?
      ensures ConnectedBefore(t, j)
    {
      if j < |log| {
        assert t[j] == log[j];
        var i :| 0 <= i < j && i < |log| && log[i].Connected?;
        assert t[i] == log[i];
      }
    }
  }

  /** A device that is armed was announced, so events may follow. */
  lemma ArmedMeansConnected(s: State, d: DeviceId)
    requires Consistent(s) && d in s.armed
    ensures ConnectedBefore(s.log, |s.log|)
  {
    var i :| 0 <= i < |s.log| && s.log[i] == Connected(d);
  }

  /** The peripheral-disconnect callback keeps the invariant. */
  lemma ServerDisconnectKeepsConsistent(s: State, dev: DeviceId)
    requires Consistent(s)
    ensures Consistent(PeripheralDisconnected(s, dev))
  {
    if dev in s.sessions && dev in s.armed {
      ArmedMeansConnected(s, dev);
      AnnouncedAfterConnect(s.log, [Disconnected]);
    }
  }

  /** `disconnect()` keeps the invariant. */
  lemma DisconnectKeepsConsistent(s: State)
    requires Consistent(s)
    ensures Consistent(Disconnect(s))
  {
    if s.device.Some? {
      ServerDisconnectKeepsConsistent(s, s.device.value);
    }
  }

  /** Opening a device keeps the invariant: the new device is armed as it
      is announced, and its session replaces the released one. */
  lemma OpenKeepsConsistent(s: State, dev: DeviceId, gatt: Gatt)
    requires Consistent(s)
    ensures Consistent(OpenDevice(s, dev, gatt).after)
  {
    var released := Disconnect(s);
    DisconnectKeepsConsistent(s);
    var t := OpenDevice(s, dev, gatt).after;
    if gatt.connect.Pass? {
      var extra := t.log[|released.log|..];
      assert t.log == released.log + extra;
      assert extra[0] == Connected(dev);
      AnnouncedConnectFirst(released.log, extra);
    }
  }

  /** Delivering a notification keeps the invariant: it only happens on the
      held device's session, which was announced. */
  lemma DeliverKeepsConsistent(s: State, a: Action)
    requires Consistent(s)
    requires a.TemperatureNotified? || a.BatteryNotified?
    ensures Consistent(Apply(s, a))
  {
    var t := Apply(s, a);
    if t != s {
      assert a.device in s.sessions;
      ArmedMeansConnected(s, a.device);
      AnnouncedAfterConnect(s.log, t.log[|s.log|..]);
      assert s.log + t.log[|s.log|..] == t.log;
    }
  }

  /** Every single action keeps the invariant. */
  lemma ApplyKeepsConsistent(s: State, a: Action)
    requires Consistent(s)
    ensures Consistent(Apply(s, a))
  {
    match a
    case ScanCall(chooser, gatt) =>
      if chooser.Ok? && chooser.value.Some? {
        OpenKeepsConsistent(s, chooser.value.value, gatt);
      }
    case DisconnectCall =>
      DisconnectKeepsConsistent(s);
    case ServerDisconnected(dev) =>
      ServerDisconnectKeepsConsistent(s, dev);
    case TemperatureNotified(_, _) =>
      DeliverKeepsConsistent(s, a);
    case BatteryNotified(_, _) =>
      DeliverKeepsConsistent(s, a);
  }

  /** The invariant holds after any sequence of actions from a consistent state. */
  lemma {:induction false} RunKeepsConsistent(s: State, actions: seq<Action>)
    requires Consistent(s)
    ensures Consistent(Run(s, actions))
    decreases |actions|
  {
    if |actions| > 0 {
      ApplyKeepsConsistent(s, actions[0]);
      RunKeepsConsistent(Apply(s, actions[0]), actions[1..]);
    }
  }

  /** Dispatched events are never withdrawn or reordered: the log at the end
      of a trace extends the log it started from. */
  lemma {:induction false} RunExtendsLog(s: State, actions: seq<Action>)
    ensures s.log <= Run(s, actions).log
    decreases |actions|
  {
    if |actions| > 0 {
      var next := Apply(s, actions[0]);
      RunExtendsLog(next, actions[1..]);
    }
  }

  /** Whatever happens, no `disconnect`, battery or temperature event is
      dispatched before some `connect`, and at most one GATT session is
      live, that of the held device. */
  lemma EveryEventFollowsConnect(actions: seq<Action>)
    ensures var s := Run(Fresh, actions);
      && (forall j :: 0 <= j < |s.log| && !s.log[j].Connected? ==> ConnectedBefore(s.log, j))
      && (forall d :: d in s.sessions ==> s.device == Some(d))
  {
    RunKeepsConsistent(Fresh, actions);
  }

  /** `disconnect()` is idempotent: a second call changes nothing and
      dispatches nothing; on a fresh driver it is a no-op. */
  lemma DisconnectIdempotent(s: State)
    ensures Disconnect(Disconnect(s)) == Disconnect(s)
    ensures Disconnect(Fresh) == Fresh
  {
  }

  /** Opening a device while a connected one is held dispatches exactly one
      `disconnect` for the old device, and it comes before the new `connect`. */
  lemma ReopenDisconnectsFirst(s: State, dev: DeviceId, gatt: Gatt)
    requires Consistent(s)
    requires s.device.Some? && s.device.value in s.sessions
    requires gatt.connect.Pass?
    ensures var t := OpenDevice(s, dev, gatt).after;
      && |t.log| >= |s.log| + 2
      && t.log[|s.log|] == Disconnected
      && t.log[|s.log| + 1] == Connected(dev)
      && forall j :: |s.log| + 1 < j < |t.log| ==> !t.log[j].Disconnected?
  {
  }

  /** A device whose battery stream was not started never has a battery
      notification reach the driver. */
  lemma FailedBatteryStaysSilent(s: State, dev: DeviceId, gatt: Gatt, value: seq<byte>)
    requires gatt.connect.Pass?
    requires !StartBatteryNotifications(gatt).outcome.Pass?
    ensures var t := OpenDevice(s, dev, gatt).after;
      DeliverBattery(t, dev, value) == t
  {
  }

  /** The initial battery read and a later notification with the same bytes
      dispatch the same event. */
  lemma InitialAndNotifiedBatteryAgree(s: State, gatt: Gatt)
    requires InitialBatteryRead(gatt)
    ensures s.log + StartBatteryNotifications(gatt).published
         == OnBatteryChange(s, gatt.batteryRead.value).log
  {
  }

  /** Outcomes of a device on which everything succeeds. */
  function Healthy(level: byte): Gatt {
    Gatt(Pass, Pass, Pass, Pass, Pass, Pass, Ok([level]), Pass)
  }

  /** A scan that picks `dev`, on which everything succeeds, releases the
      held device, holds `dev` with both streams started, and dispatches
      `connect` followed by the initial battery level. */
  lemma HealthyScan(s: State, dev: DeviceId, level: byte)
    ensures Apply(s, ScanCall(Ok(Some(dev)), Healthy(level)))
         == State(Some(dev), s.armed + {dev}, Disconnect(s).sessions[dev := Subscriptions(true, true)],
                  s.log + ReleaseEvents(s) + [Connected(dev), BatteryLevel(level)])
  {
  }

  /** On a started temperature stream, the raw [21, 50] is dispatched as
      21.5 C, 70.7 F and 294.65 K. */
  lemma ReadingArrives(s: State, dev: DeviceId)
    requires dev in s.sessions && s.sessions[dev].temperature
    ensures Apply(s, TemperatureNotified(dev, [21, 50])).log
         == s.log + [TemperatureChange(Temperature(21.5, 70.7, 294.65))]
  {
    DecodeExample();
  }

  /** A trace extended by one action ends where that action takes the trace's end. */
  lemma {:induction false} RunSnoc(s: State, actions: seq<Action>, a: Action)
    ensures Run(s, actions + [a]) == Apply(Run(s, actions), a)
    decreases |actions|
  {
    if |actions| == 0 {
      assert ([] + [a])[1..] == [];
    } else {
      assert (actions + [a])[1..] == actions[1..] + [a];
      RunSnoc(Apply(s, actions[0]), actions[1..], a);
    }
  }

  /** Two successful scans in a row: the first device's callback reports its
      release with one `disconnect` between the two `connect` events. */
  lemma TwoScans()
    ensures Run(Fresh, [ScanCall(Ok(Some(1)), Healthy(80)), ScanCall(Ok(Some(2)), Healthy(75))])
         == State(Some(2), {1, 2}, map[2 := Subscriptions(true, true)],
                  [Connected(1), BatteryLevel(80), Disconnected, Connected(2), BatteryLevel(75)])
  {
    var a1, a2 := ScanCall(Ok(Some(1)), Healthy(80)), ScanCall(Ok(Some(2)), Healthy(75));
    HealthyScan(Fresh, 1, 80);
    var s1 := Apply(Fresh, a1);
    assert ReleaseEvents(s1) == [Disconnected];
    HealthyScan(s1, 2, 75);
    assert Disconnect(s1).sessions == map[];
    RunSnoc(Fresh, [a1], a2);
    RunSnoc(Fresh, [], a1);
    assert [] + [a1] == [a1] && [a1] + [a2] == [a1, a2];
  }

  /** After the two scans, the same bytes from the released first device are
      not delivered. */
  lemma StaleReadingIgnored()
    ensures var s := State(Some(2), {1, 2}, map[2 := Subscriptions(true, true)],
                           [Connected(1), BatteryLevel(80), Disconnected, Connected(2), BatteryLevel(75)]);
      Apply(s, TemperatureNotified(1, [21, 50])) == s
  {
  }

  /** After the two scans, the temperature [21, 50] from the second device
      arrives as 21.5 C; the same bytes from the released first device are
      not delivered. */
  lemma TwoScansThenReading()
    ensures Run(Fresh, [ScanCall(Ok(Some(1)), Healthy(80)), ScanCall(Ok(Some(2)), Healthy(75)),
                        TemperatureNotified(1, [21, 50]), TemperatureNotified(2, [21, 50])]).log
         == [Connected(1), BatteryLevel(80), Disconnected, Connected(2), BatteryLevel(75),
             TemperatureChange(Temperature(21.5, 70.7, 294.65))]
  {
    var scans := [ScanCall(Ok(Some(1)), Healthy(80)), ScanCall(Ok(Some(2)), Healthy(75))];
    var stale, reading := TemperatureNotified(1, [21, 50]), TemperatureNotified(2, [21, 50]);
    TwoScans();
    StaleReadingIgnored();
    var s2 := Run(Fresh, scans);
    ReadingArrives(s2, 2);
    RunSnoc(Fresh, scans, stale);
    RunSnoc(Fresh, scans + [stale], reading);
    assert scans + [stale] + [reading] == [scans[0], scans[1], stale, reading];
  }
}
