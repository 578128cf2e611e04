# Thingy:52 driver — a verified model

This project models `Thingy52Driver`, the Web Bluetooth driver for the Nordic
Thingy:52 in `src/thingy52-driver.js`. The model has two parts.

- **The payload decoder.** The temperature characteristic sends two bytes.
  Byte 0 is read as `getInt8` and byte 1 as `getUint8`. The driver writes them
  as the text `${integer}.${decimal}` and parses that text with
  `Number.parseFloat`. Fahrenheit and Kelvin are then derived from that Celsius
  value. The battery level is the raw `getUint8(0)`.
- **The connection manager.** The singleton holds at most one device.
  `#openDevice` releases the held device, connects, installs the
  `gattserverdisconnected` callback, holds the device and dispatches `connect`.
  It then sets up the temperature notifications, which are mandatory, and the
  battery notifications, which are best-effort. `disconnect()` closes the held
  device's GATT connection and forgets the device. The callback dispatches
  `disconnect`. `scan()` opens whatever device
  the chooser returns.

Modules, leaf first:

- `Results` (`results.dfy`): `Option`, `Result` and `Outcome`, plus the
  exception names the driver can see.
- `DataView` (`data_view.dfy`): `getUint8` and `getInt8`, with RangeError past
  the end of the buffer.
- `NumberText` (`number_text.dfy`): the decimal text a template literal writes
  for an integer, and `Number.parseFloat` over such text. It proves that
  parsing the text of a number gives the number back, in both directions.
- `Decoder` (`decoder.dfy`): the temperature and battery decoders. The
  temperature is defined twice: by the text route the code takes, and by an
  independent closed form, `CelsiusOf`. A lemma proves the two agree on every
  byte pair.
- `Driver` (`driver.dfy`): the state `(device, armed, sessions, log)` and one function
  per operation and callback.
- `Lifecycle` (`lifecycle.dfy`): traces over any sequence of calls and
  callbacks, and the invariant the driver keeps along them.
- `Pairing` (`pairing.dfy`): `connect` and `disconnect` alternate over every
  trace, and a GATT session is live exactly while the last of them was a
  `connect`.

Every Web Bluetooth call that can fail is replaced by the outcome it settled
with: the chooser's result, `gatt.connect`, the service and characteristic
lookups, `readValue` and `startNotifications`. These outcomes are parameters
of the transition functions. `dispatchEvent` becomes appending to `log`.

The state also records what the stack knows:
- `armed` is the set of devices whose `ongattserverdisconnected` points at the
  driver;
- `sessions` maps each device whose GATT server is connected to the
  notification streams started on it.

`gatt.disconnect()` on a connected server ends its session and fires
`gattserverdisconnected` within the call, as the Web Bluetooth `disconnect()`
algorithm does. Notifications reach the driver's handlers only from a
connected device whose stream was started.

## Behaviour worth noting

- **Fraction byte.** A fraction byte of 5 gives 21.5, not 21.05: the code
  builds the text "21.5". That is the same value as for a byte of 50
  (`TrailingZeroIgnored`, `ReadingExamples`).
- **Who dispatches `disconnect`.** `disconnect()` dispatches nothing itself.
  The event comes from the callback installed on the device, which fires when
  `gatt.disconnect()` ends a live session or when the peripheral drops the
  link.
  - Opening a device while a connected one is held, when the new connect
    succeeds, dispatches exactly one `disconnect`, before the new `connect`
    (`ReopenDisconnectsFirst`, `TwoScans`). When the new connect rejects,
    the one `disconnect` is logged and no `connect` follows.
  - When the held device's link has already dropped, releasing it dispatches
    nothing more: its callback fired when the link dropped
    (`LinkLossThenDisconnect`).
  - Over every trace, `connect` and `disconnect` alternate, starting with
    `connect`: no `disconnect` is duplicated or skipped
    (`ConnectDisconnectAlternate`).
- **Peripheral disconnect.** `#disconnected` only dispatches `disconnect`. The
  driver keeps `#device`, so a later `disconnect()` or `scan()` still releases
  that device.
- **Battery range.** The Battery Level characteristic of the Bluetooth Battery
  Service is a percentage, 0–100. The code does not clamp it: any byte 0–255
  is published as it is.
- **Initial battery read.** The initial battery level is dispatched before
  `startNotifications`. A later failure of `startNotifications` is swallowed
  with that one event already in the log, and no battery notification
  follows (`FailedBatteryStaysSilent`).
- **Temperature failure.** `connect` has already been dispatched when the
  temperature setup rejects. The device stays held and connected, with no
  stream started.
- **Failed connect.** If `gatt.connect` rejects, the old device has already
  been released (with its `disconnect` if it was connected). The driver ends
  up holding nothing.

## Model

| member | source | states |
|---|---|---|
| `Results.Then` | src/thingy52-driver.js:93-96 | awaiting two steps in order resolves exactly when both resolve; a rejection of the first is the one reported, and once the first resolves the result is the second step's outcome, rejection included |
| `DataView.GetUint8` | src/thingy52-driver.js:77 | an unsigned read succeeds exactly when the offset is inside the value and yields that byte; otherwise it is RangeError |
| `DataView.GetInt8` | src/thingy52-driver.js:76 | a signed read succeeds exactly inside the value and yields the int8 in [-128, 127] whose two's complement is the byte; otherwise it is RangeError |
| `DataView.ToInt8` | src/thingy52-driver.js:76 | the int8 reading of a byte lies in [-128, 127] and is congruent to the byte modulo 256 |
| `DataView.Int8RoundTrip` | src/thingy52-driver.js:76 | the int8 reading and the two's-complement encoding are mutually inverse |
| `NumberText.DigitCount` | src/thingy52-driver.js:79 | the width of a number's text is the unique k >= 1 with 10^(k-1) <= n < 10^k |
| `NumberText.NatText` | src/thingy52-driver.js:79 | the text of a natural number is DigitCount(n) decimal digits, with no leading zero unless n is 0 |
| `NumberText.IntText` | src/thingy52-driver.js:79 | the text of an integer starts with '-' exactly when the integer is negative |
| `NumberText.DigitsValue` | src/thingy52-driver.js:79 | a run of k digits denotes a number below 10^k |
| `NumberText.ParseUnsigned` | src/thingy52-driver.js:79 | parsing an unsigned literal yields a non-negative number, and only for non-empty text |
| `NumberText.ParseFloat` | src/thingy52-driver.js:79 | parsing yields a negative number only for text that starts with '-' |
| `NumberText.PointValue` | src/thingy52-driver.js:79 | `whole.fraction` lies in [whole, whole + 1) |
| `NumberText.PointFraction` | src/thingy52-driver.js:79 | the digits after the point are worth less than one |
| `NumberText.DigitsValueOfNatText` | src/thingy52-driver.js:79 | reading the text of n gives n |
| `NumberText.NatTextOfDigitsValue` | src/thingy52-driver.js:79 | writing the value of a canonical digit run gives that run back |
| `NumberText.DotIndexOfPointed` | src/thingy52-driver.js:79 | in `${a}.${b}` the first point comes right after the digits of a |
| `NumberText.ParseAtDot` | src/thingy52-driver.js:79 | parsing splits the text at its first point |
| `NumberText.ParsePointed` | src/thingy52-driver.js:79 | digits, a point and digits parse to the whole part plus the fraction digits over 10^width |
| `NumberText.ParseNaturalPoint` | src/thingy52-driver.js:79 | the text `${a}.${b}` parses to a plus b over 10^digits(b) |
| `NumberText.ParseMinus` | src/thingy52-driver.js:79 | a leading '-' negates what the rest of the text parses to |
| `NumberText.ParseNegativePoint` | src/thingy52-driver.js:79 | for a negative integer, `${i}.${b}` parses to i minus the fraction |
| `NumberText.ParseIntegerPoint` | src/thingy52-driver.js:79 | `${i}.${b}` parses to i plus or minus the fraction, following the sign of i, with 0 counted as positive |
| `Decoder.ReadingText` | src/thingy52-driver.js:79 | the template literal `${integer}.${decimal}` always parses, to the closed form CelsiusOf(integer, decimal) |
| `Decoder.CelsiusOf` | src/thingy52-driver.js:76-79 | the reading lies within one degree of the integer byte, on the integer's side of it |
| `Decoder.ReadingTextParses` | src/thingy52-driver.js:79 | parsing the text built from the two bytes never gives NaN and equals the closed form CelsiusOf, as a lemma for callers of the text |
| `Decoder.FromCelsius` | src/thingy52-driver.js:81-85 | Fahrenheit and Kelvin are derived from the same Celsius value: (F - 32) * 5/9 and K - 273.15 both give Celsius back |
| `Decoder.DecodeTemperature` | src/thingy52-driver.js:73-85 | decoding succeeds exactly for values of two or more bytes, otherwise RangeError; the Celsius value is CelsiusOf(int8 of byte 0, byte 1), and the three scales agree |
| `Decoder.DecodeBattery` | src/thingy52-driver.js:51 | decoding succeeds exactly for a non-empty value, otherwise RangeError; the level is byte 0, unscaled, below 256 |
| `Decoder.CelsiusSign` | src/thingy52-driver.js:76-79 | Celsius is non-negative exactly when the integer byte is, and it lies strictly within one degree of that byte |
| `Decoder.IntegerPartDetermined` | src/thingy52-driver.js:76-79 | two byte pairs that decode alike have the same integer byte |
| `Decoder.TrailingZeroIgnored` | src/thingy52-driver.js:79 | fraction bytes d and 10d decode alike, so the fraction byte is digit text, not a count of hundredths |
| `Decoder.SameWidthFractionsDistinct` | src/thingy52-driver.js:79 | fraction bytes with the same number of digits never collide |
| `Decoder.DecodedReadingConsistent` | src/thingy52-driver.js:76-85 | every two-byte value decodes to a reading whose scales agree, whose Celsius value is within one degree of int8(byte 0), and which is non-negative exactly when byte 0 is below 128 |
| `Decoder.ReadingExamples` | src/thingy52-driver.js:79 | (21,50) and (21,5) give 21.5; (21,10) gives 21.1; (21,123) gives 21.123; (-5,5) gives -5.5; (0,5) gives 0.5; (-5,0) gives -5; (21,128) is not 21 + 128/256 |
| `Decoder.DecodeExample` | src/thingy52-driver.js:76-85 | [21, 50] decodes to 21.5 C, 70.7 F and 294.65 K; [251, 5] gives -5.5 C; a battery value [73] gives 73 |
| `Driver.StartThermometerNotifications` | src/thingy52-driver.js:92-97 | temperature setup succeeds exactly when the service lookup, the characteristic lookup and startNotifications all succeed; the error reported is that of the first step that rejects |
| `Driver.StartBatteryNotifications` | src/thingy52-driver.js:58-70 | exactly one battery event, carrying byte 0, is dispatched exactly when the lookups and the read succeed with a non-empty value; setup succeeds exactly when notifications also start |
| `Driver.PeripheralDisconnected` | src/thingy52-driver.js:99-101 | a connected device's session ends; if its callback is installed, exactly one `disconnect` is logged, otherwise nothing; the held device is unchanged |
| `Driver.Disconnect` | src/thingy52-driver.js:104-107 | afterwards no device is held and the held device's session is gone; the only event is the single `disconnect` its callback dispatches when it was still connected |
| `Driver.OpenDevice` | src/thingy52-driver.js:20-44 | the log only grows. A failed connect leaves the driver as `disconnect()` left it, and rejects with that error. A successful connect holds and arms exactly the new device; its sessions are those `disconnect()` left, plus the new device's, with the streams whose setup resolved. The release's `disconnect` (if any) comes first, then `connect`, then at most the initial battery level. A temperature failure rejects with `connect` logged and the device held. Otherwise the call resolves, with the battery event present exactly when the initial read succeeded |
| `Driver.Scan` | src/thingy52-driver.js:109-121 | a rejected chooser rejects with the state unchanged; a chooser with no device resolves with the state unchanged; a chosen device is opened exactly as OpenDevice states |
| `Driver.OnThermometerChange` | src/thingy52-driver.js:73-90 | a value of two or more bytes appends exactly one `temperature-change`, with Celsius CelsiusOf(int8 of byte 0, byte 1) and agreeing scales; a shorter value changes nothing |
| `Driver.OnBatteryChange` | src/thingy52-driver.js:47-56 | a non-empty value appends exactly one battery event carrying byte 0; an empty value changes nothing |
| `Driver.DeliverTemperature` | src/thingy52-driver.js:95-96 | a temperature notification reaches the handler exactly when its device is connected with the temperature stream started; only then can the log grow |
| `Driver.DeliverBattery` | src/thingy52-driver.js:68-69 | a battery notification reaches the handler exactly when its device is connected with the battery stream started; only then can the log grow |
| `Lifecycle.Apply` | src/thingy52-driver.js:20-121 | every call and callback only appends to the log; `disconnect()` leaves no device held; the peripheral callback keeps the held device |
| `Lifecycle.AnnouncedAfterConnect` | src/thingy52-driver.js:31 | once a `connect` is in the log, any events may follow it without breaking "every event follows a connect" |
| `Lifecycle.AnnouncedConnectFirst` | src/thingy52-driver.js:31 | events appended behind a fresh `connect` keep every event announced |
| `Lifecycle.ArmedMeansConnected` | src/thingy52-driver.js:28-31 | in a consistent state, a device with the callback installed was announced by a `connect` already in the log |
| `Lifecycle.ServerDisconnectKeepsConsistent` | src/thingy52-driver.js:99-101 | the peripheral-disconnect callback keeps the driver invariant |
| `Lifecycle.DisconnectKeepsConsistent` | src/thingy52-driver.js:104-107 | `disconnect()` keeps the driver invariant |
| `Lifecycle.OpenKeepsConsistent` | src/thingy52-driver.js:20-44 | opening a device keeps the driver invariant |
| `Lifecycle.DeliverKeepsConsistent` | src/thingy52-driver.js:47-56 | delivering a temperature or battery notification keeps the driver invariant |
| `Lifecycle.ApplyKeepsConsistent` | src/thingy52-driver.js:20-121 | every call and callback keeps the invariant: the held device is armed; at most one session is live, the held device's; armed devices are exactly those announced by `connect`; every other event follows some `connect` |
| `Lifecycle.RunKeepsConsistent` | src/thingy52-driver.js:20-121 | the invariant holds after any sequence of calls and callbacks |
| `Lifecycle.RunExtendsLog` | src/thingy52-driver.js:20-121 | events are never withdrawn or reordered along a trace |
| `Lifecycle.RunSnoc` | src/thingy52-driver.js:20-121 | a trace extended by one action ends in the state that action produces from the trace's end |
| `Lifecycle.EveryEventFollowsConnect` | src/thingy52-driver.js:17-31 | from the driver's initial state, every `disconnect`, battery and temperature event is preceded by some `connect`, and at most one GATT session is live, that of the held device |
| `Lifecycle.DisconnectIdempotent` | src/thingy52-driver.js:104-107 | a second `disconnect()` changes nothing and dispatches nothing, and on a fresh driver the call is a no-op |
| `Lifecycle.ReopenDisconnectsFirst` | src/thingy52-driver.js:22-31 | opening a device while a connected one is held, when the new connect succeeds, logs exactly one `disconnect`, then `connect`, and no further `disconnect` |
| `Lifecycle.FailedBatteryStaysSilent` | src/thingy52-driver.js:37-41 | when the battery setup of a session did not resolve, no battery notification of that device reaches the driver |
| `Lifecycle.InitialAndNotifiedBatteryAgree` | src/thingy52-driver.js:51-66 | the initial battery read and a notification with the same bytes dispatch the same event |
| `Lifecycle.HealthyScan` | src/thingy52-driver.js:109-121 | a scan on which every step succeeds releases the held device, holds and arms the new one with both streams started, and logs the release, then `connect`, then the battery level |
| `Lifecycle.ReadingArrives` | src/thingy52-driver.js:73-90 | on a started temperature stream the notification [21, 50] logs 21.5 C, 70.7 F and 294.65 K |
| `Lifecycle.TwoScans` | src/thingy52-driver.js:20-44 | two successful scans log connect, battery, disconnect, connect, battery, and leave only the second device's session |
| `Lifecycle.StaleReadingIgnored` | src/thingy52-driver.js:95-96 | after the second scan, a reading from the released first device is not delivered |
| `Lifecycle.TwoScansThenReading` | src/thingy52-driver.js:73-90 | after those two scans, a stale reading from the first device is dropped and the second device's [21, 50] adds 21.5 C, 70.7 F and 294.65 K |
| `Pairing.PhaseOf` | src/thingy52-driver.js:31 | `connect` opens a connection phase, `disconnect` closes one, and no other event is a phase change |
| `Pairing.PhasesSnoc` | src/thingy52-driver.js:31 | dispatching one more event adds exactly its phase change to the log's phases |
| `Pairing.AlternatesSnoc` | src/thingy52-driver.js:99-101 | the phase due next (open after an even count, closed after an odd one) keeps the phases alternating |
| `Pairing.OpenWhenOdd` | src/thingy52-driver.js:31 | alternating phases end with an open connection exactly when there is an odd number of them |
| `Pairing.NoSessionWhenReleased` | src/thingy52-driver.js:104-107 | a consistent driver holding no device has no live GATT session |
| `Pairing.EndSessionKeepsPaired` | src/thingy52-driver.js:99-101 | ending the live session logs the one `disconnect` that closes the open phase, keeping the pairing |
| `Pairing.DisconnectKeepsPaired` | src/thingy52-driver.js:104-107 | `disconnect()` keeps `connect` and `disconnect` paired |
| `Pairing.ReleasedIsClosed` | src/thingy52-driver.js:22-23 | after the release at the start of opening, no phase is open and no session is live |
| `Pairing.OpenedPhases` | src/thingy52-driver.js:26-41 | a successful connect adds exactly one phase, an open connection, and gives the new device a session |
| `Pairing.OpenAfterClosed` | src/thingy52-driver.js:31 | one `connect` after an even, alternating history leaves the history alternating and open |
| `Pairing.OpenKeepsPaired` | src/thingy52-driver.js:20-44 | opening a device keeps `connect` and `disconnect` paired, for every connect outcome |
| `Pairing.DataEventKeepsPaired` | src/thingy52-driver.js:51-56 | dispatching a reading or a battery level is no phase change and keeps the pairing |
| `Pairing.DeliverKeepsPaired` | src/thingy52-driver.js:47-97 | a delivered notification keeps the pairing |
| `Pairing.ApplyKeepsPaired` | src/thingy52-driver.js:20-121 | every call and callback keeps `connect` and `disconnect` paired |
| `Pairing.RunKeepsPaired` | src/thingy52-driver.js:20-121 | the pairing holds after any sequence of calls and callbacks from a consistent, paired state |
| `Pairing.ConnectDisconnectAlternate` | src/thingy52-driver.js:20-121 | from the driver's initial state, the `connect` and `disconnect` events alternate, starting with `connect`, so none is duplicated or skipped; a GATT session is live exactly when the last of them was `connect` |
| `Pairing.LinkLossThenDisconnect` | src/thingy52-driver.js:99-107 | when the held device's link drops, its callback logs one `disconnect`, and a later `disconnect()` releases the device with no second one |

## Left out

- `src/thingy52-widget.js` and `src/thermometer-ui.js`: DOM custom elements that render events and forward clicks to `scan()` and `disconnect()`. They are presentational.
- The Web Bluetooth stack itself: `requestDevice`, `gatt.connect`, `getPrimaryService`, `getCharacteristic`, `readValue` and `startNotifications` appear only as their settled outcomes, given as inputs. The stack's own state is reduced to which devices are connected and which streams are started. The service filter and the UUID constants (lines 11-13 and 110-116) only select what the stack looks up, so they have no counterpart here.
- Asynchrony: each operation is one atomic transition. Interleavings between the `await`s of `#openDevice` and other calls or notifications are not modelled.
- Listeners left on characteristic objects from earlier sessions: a notification is delivered only while its stream is started in the current session. Duplicate listeners from re-opening the same device are not modelled.
- EventTarget listener registration, removal and delivery order, the event objects themselves, and `console.log`. Dispatch is appending to the log.
- The unused `deviceId` read at line 49 of the battery handler.
- IEEE-754 rounding: `Number.parseFloat` and the Fahrenheit and Kelvin arithmetic are exact over `real`.
- `NumberText.ParseFloat`: it accepts only the forms `[-]digits[.digits]` and `.digits`. Leading whitespace, '+', exponents, `Infinity` and the longest-prefix rule of `Number.parseFloat` are not modelled. The text built at line 79 never uses them.
- Exceptions thrown inside a notification handler: the browser reports them and they never reach the driver's callers. The model only records that such a handler dispatches nothing.
