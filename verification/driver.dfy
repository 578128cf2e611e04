/** The Thingy52Driver singleton as a state machine: one held device, the
    callbacks installed on devices, the live GATT sessions, and the events
    dispatched so far. Every Web Bluetooth call that can fail is an input:
    the settled outcome the stack returned. */
module Driver {
  import opened Results
  import opened DataView
  import opened Decoder

  /** Identity of a device handed over by the Bluetooth device chooser. */
  type DeviceId = nat

  /** The events the driver dispatches to its listeners. */
  datatype Event =
    | Connected(device: DeviceId)
    | Disconnected
    | BatteryLevel(battery: nat)
    | TemperatureChange(temperature: Temperature)

  /** Which notification streams of a connected device were started. */
  datatype Subscriptions = Subscriptions(temperature: bool, battery: bool)

  /** `device` is the private held device; `armed` holds the devices whose
      `ongattserverdisconnected` points at the driver; `sessions` maps each
      device whose GATT server is connected to the streams started on it;
      `log` lists the dispatched events, oldest first. */
  datatype State = State(
    device: Option<DeviceId>,
    armed: set<DeviceId>,
    sessions: map<DeviceId, Subscriptions>,
    log: seq<Event>)

  /** The driver as the module creates it. */
  const Fresh := State(None, {}, map[], [])

  /** The state after an async operation, and how its promise settled. */
  datatype Transition = Transition(after: State, completion: Outcome)

  /** Settled outcomes of the GATT calls made while opening one device. */
  datatype Gatt = Gatt(
    connect: Outcome,
    weatherService: Outcome,
    temperatureCharacteristic: Outcome,
    temperatureNotifications: Outcome,
    batteryService: Outcome,
    batteryCharacteristic: Outcome,
    batteryRead: Result<seq<byte>>,
    batteryNotifications: Outcome)

  /** The events a battery setup dispatched, and how it settled. */
  datatype BatterySetup = BatterySetup(published: seq<Event>, outcome: Outcome)

  /** The initial battery read yields a level: service and characteristic
      found, the read resolved, and the value holds at least one byte. */
  predicate InitialBatteryRead(gatt: Gatt) {
    && gatt.batteryService.Pass?
    && gatt.batteryCharacteristic.Pass?
    && gatt.batteryRead.Ok?
    && |gatt.batteryRead.value| >= 1
  }

  /** Temperature setup: weather service, temperature characteristic, then
      starting notifications; the first rejection is the result. */
  function StartThermometerNotifications(gatt: Gatt): (r: Outcome)
    ensures r.Pass? <==>
              gatt.weatherService.Pass? && gatt.temperatureCharacteristic.Pass? && gatt.temperatureNotifications.Pass?
    ensures gatt.weatherService.Fail? ==> r == gatt.weatherService
    ensures gatt.weatherService.Pass? && gatt.temperatureCharacteristic.Fail?
            ==> r == gatt.temperatureCharacteristic
    ensures gatt.weatherService.Pass? && gatt.temperatureCharacteristic.Pass?
            ==> r == gatt.temperatureNotifications
  {
    Then(gatt.weatherService, Then(gatt.temperatureCharacteristic, gatt.temperatureNotifications))
  }

  /** Battery setup: battery service, level characteristic, one read whose
      level is dispatched at once, then starting notifications. */
  function StartBatteryNotifications(gatt: Gatt): (r: BatterySetup)
    ensures r.published != [] <==> InitialBatteryRead(gatt)
    ensures InitialBatteryRead(gatt) ==> r.published == [BatteryLevel(gatt.batteryRead.value[0])]
    ensures r.outcome.Pass? <==> InitialBatteryRead(gatt) && gatt.batteryNotifications.Pass?
  {
    if gatt.batteryService.Fail? then BatterySetup([], gatt.batteryService)
    else if gatt.batteryCharacteristic.Fail? then BatterySetup([], gatt.batteryCharacteristic)
    else
      match gatt.batteryRead
      case Err(e) => BatterySetup([], Fail(e))
      case Ok(value) =>
        match DecodeBattery(value)
        case Err(e) => BatterySetup([], Fail(e))
        case Ok(level) => BatterySetup([BatteryLevel(level)], gatt.batteryNotifications)
  }

  /** `gattserverdisconnected` on `dev`: the stack ends the session of a
      connected device, and the driver's callback, when installed there,
      dispatches one `disconnect`. The held device stays as it is. A device
      that is not connected fires nothing. */
  function PeripheralDisconnected(s: State, dev: DeviceId): (t: State)
    ensures t.device == s.device && t.armed == s.armed
    ensures t.sessions == s.sessions - {dev}
    ensures dev in s.sessions && dev in s.armed ==> t.log == s.log + [Disconnected]
    ensures !(dev in s.sessions && dev in s.armed) ==> t.log == s.log
  {
    if dev !in s.sessions then s
    else
      var dropped := s.(sessions := s.sessions - {dev});
      if dev in s.armed then dropped.(log := s.log + [Disconnected]) else dropped
  }

  /** The events that releasing the held device dispatches: one `disconnect`
      from its callback when its GATT server is still connected. */
  function ReleaseEvents(s: State): seq<Event> {
    if s.device.Some? && s.device.value in s.sessions && s.device.value in s.armed
    then [Disconnected] else []
  }

  /** `disconnect()`: `gatt.disconnect()` on the held device, which fires
      its `gattserverdisconnected` while connected, then forgetting it. */
  function Disconnect(s: State): (t: State)
    ensures t.device == None && t.armed == s.armed
    ensures s.device.None? ==> t == s
    ensures s.device.Some? ==> t.sessions == s.sessions - {s.device.value}
    ensures t.log == s.log + ReleaseEvents(s)
    ensures |ReleaseEvents(s)| <= 1
  {
    match s.device
    case None => s
    case Some(held) => PeripheralDisconnected(s, held).(device := None)
  }

  /** `#openDevice(dev)`: release any held device, connect, install the
      disconnect callback, hold `dev`, dispatch `connect`, then set up the
      mandatory temperature and the best-effort battery notifications. */
  function OpenDevice(s: State, dev: DeviceId, gatt: Gatt): (r: Transition)
    // the log only grows
    ensures s.log <= r.after.log
    // a failed connect leaves the driver as `disconnect()` left it, and rejects
    ensures gatt.connect.Fail? ==> r == Transition(Disconnect(s), gatt.connect)
    // after a connect, exactly the new device is held and armed, it has the
    // only new session, and its streams are those whose setup resolved
    ensures gatt.connect.Pass? ==>
              && r.after.device == Some(dev)
              && r.after.armed == s.armed + {dev}
              && r.after.sessions
                 == Disconnect(s).sessions[dev := Subscriptions(
                      StartThermometerNotifications(gatt).Pass?,
                      StartThermometerNotifications(gatt).Pass?
                      && StartBatteryNotifications(gatt).outcome.Pass?)]
    // temperature failure rejects, with `connect` already out and the device held
    ensures gatt.connect.Pass? && StartThermometerNotifications(gatt).Fail? ==>
              && r.completion == StartThermometerNotifications(gatt)
              && r.after.log == s.log + ReleaseEvents(s) + [Connected(dev)]
    // with temperature running, battery problems never reject; the initial
    // level follows `connect` exactly when the initial read succeeded
    ensures gatt.connect.Pass? && StartThermometerNotifications(gatt).Pass? ==>
              && r.completion == Pass
              && (!InitialBatteryRead(gatt) ==>
                    r.after.log == s.log + ReleaseEvents(s) + [Connected(dev)])
              && (InitialBatteryRead(gatt) ==>
                    r.after.log == s.log + ReleaseEvents(s)
                                   + [Connected(dev), BatteryLevel(gatt.batteryRead.value[0])])
  {
    var released := if s.device.Some? then Disconnect(s) else s;
    if gatt.connect.Fail? then
      Transition(released, gatt.connect)
    else
      var connected := State(Some(dev), released.armed + {dev},
                             released.sessions[dev := Subscriptions(false, false)],
                             released.log + [Connected(dev)]);
      var thermometer := StartThermometerNotifications(gatt);
      if thermometer.Fail? then
        Transition(connected, thermometer)
      else
        var battery := StartBatteryNotifications(gatt);
        Transition(connected.(sessions := released.sessions[dev := Subscriptions(true, battery.outcome.Pass?)],
                              log := connected.log + battery.published),
                   Pass)
  }

  /** `scan()`: the chooser may reject, resolve without a device, or resolve
      with one, which is then opened. */
  function Scan(s: State, chooser: Result<Option<DeviceId>>, gatt: Gatt): (r: Transition)
    ensures chooser.Err? ==> r == Transition(s, Fail(chooser.error))
    ensures chooser == Ok(None) ==> r == Transition(s, Pass)
    ensures chooser.Ok? && chooser.value.Some? ==> r == OpenDevice(s, chooser.value.value, gatt)
    ensures s.log <= r.after.log
  {
    match chooser
    case Err(e) => Transition(s, Fail(e))
    case Ok(None) => Transition(s, Pass)
    case Ok(Some(dev)) => OpenDevice(s, dev, gatt)
  }

  /** `#onThermometerChange`: the decoded reading is dispatched; a value too
      short to decode throws inside the listener and dispatches nothing. */
  function OnThermometerChange(s: State, value: seq<byte>): (t: State)
    ensures t.device == s.device && t.armed == s.armed && t.sessions == s.sessions
    ensures |value| < 2 ==> t == s
    ensures |value| >= 2 ==>
              && |t.log| == |s.log| + 1
              && t.log[..|s.log|] == s.log
              && t.log[|s.log|].TemperatureChange?
              && t.log[|s.log|].temperature.celsius == CelsiusOf(ToInt8(value[0]), value[1])
              && ScalesAgree(t.log[|s.log|].temperature)
  {
    match DecodeTemperature(value)
    case Err(_) => s
    case Ok(reading) => s.(log := s.log + [TemperatureChange(reading)])
  }

  /** `#onBatteryChange`: byte 0 is dispatched as the level; an empty value
      throws inside the listener and dispatches nothing. */
  function OnBatteryChange(s: State, value: seq<byte>): (t: State)
    ensures t.device == s.device && t.armed == s.armed && t.sessions == s.sessions
    ensures |value| == 0 ==> t == s
    ensures |value| >= 1 ==> t.log == s.log + [BatteryLevel(value[0])]
  {
    match DecodeBattery(value)
    case Err(_) => s
    case Ok(level) => s.(log := s.log + [BatteryLevel(level)])
  }

  /** A temperature notification from `dev`: it reaches the driver's listener
      only on a connected device whose temperature stream was started. */
  function DeliverTemperature(s: State, dev: DeviceId, value: seq<byte>): (t: State)
    ensures !(dev in s.sessions && s.sessions[dev].temperature) ==> t == s
    ensures dev in s.sessions && s.sessions[dev].temperature ==> t == OnThermometerChange(s, value)
    ensures |t.log| > |s.log| <==> dev in s.sessions && s.sessions[dev].temperature && |value| >= 2
  {
    if dev in s.sessions && s.sessions[dev].temperature then OnThermometerChange(s, value) else s
  }

  /** A battery notification from `dev`: it reaches the driver's listener
      only on a connected device whose battery stream was started. */
  function DeliverBattery(s: State, dev: DeviceId, value: seq<byte>): (t: State)
    ensures !(dev in s.sessions && s.sessions[dev].battery) ==> t == s
    ensures dev in s.sessions && s.sessions[dev].battery ==> t == OnBatteryChange(s, value)
    ensures |t.log| > |s.log| <==> dev in s.sessions && s.sessions[dev].battery && |value| >= 1
  {
    if dev in s.sessions && s.sessions[dev].battery then OnBatteryChange(s, value) else s
  }
}
