# ServoControl: the jog change detector and command framer

This project models the Unity script `ServoControl`, which jogs a motorized
pan/tilt camera head over a serial line. The script keeps two registers,
`lastTiltValue` and `lastPanValue`, both starting at 0. Once per frame
`Update()` compares them with the truncated slider readings. For each axis
whose reading changed it writes one ASCII command to the port: `"T <v>\r"`
for tilt, then `"P <v>\r"` for pan. It then stores the readings. `Start()`
opens the port and writes `"L 1\r"`, which enables the head. `StopMovement()`
writes `"R\r"` through `WriteLine`, which appends the port's line terminator.

Modules:

- `Decimal` (Decimal.dfy): how a C# `int` is rendered in `"T " + v`
  (`IntToDecimal`), and a parser that reads back exactly the canonical
  spellings. The two are proved to be inverses in both directions.
- `Protocol` (Protocol.dfy): the command set as a datatype. `Encode` gives
  the text written to the port. `Decode` is a reference reader, and encoding
  and decoding are proved to be inverses, so the framing is unambiguous.
  `LastSent` gives the most recent velocity commanded on an axis in a log
  of writes.
- `Servo` (ServoControl.dfy): the serial port as an append-only log of
  written strings (`SerialPort.written`, one entry per `Write` or
  `WriteLine` call), and the `ServoControl` class with its two registers
  and its methods `Start`, `Update` and `StopMovement`. `UpdateWrites` is the
  function that specifies what one `Update` writes.

The class invariant `ServoControl.Valid` says two things once `Start` has
run. First, the port's first write is the enable command. Second, each
register equals the last velocity sent on its axis, or 0 if none has been
sent. `Update` and `StopMovement` preserve it.

Behaviour of this code worth knowing:

- `StopMovement` only writes the stop command and leaves both registers as
  they were. If the next frame has the same readings, it re-sends nothing,
  so the head stays stopped while the sliders still show a velocity.
  `StopThenSameReadings` exhibits this.
- `StopMovement` sends `"R\r"` with `WriteLine`, which appends `"\n"`, so
  the port receives `"R\r\n"`. `Decode` does not read that as a single
  command, and `StopKeepsLastSent` shows that it changes neither axis's
  last commanded velocity.
- The head's combined pan-and-tilt command, its position query, timed
  moves and calibration do not appear in this script.

## Model

| member | source | states |
|---|---|---|
| Decimal.IntToDecimal | Assets/ServoControl.cs:28 | The rendering of a reading in a command is a canonical decimal: digits with no leading zero, led by "-" exactly when the value is negative |
| Decimal.NatToDecimal | Assets/ServoControl.cs:28 | The digits of a magnitude form a non-empty digit string with no leading zero, and the string starts with '0' exactly when the magnitude is 0 |
| Decimal.DecimalRoundTrip | Assets/ServoControl.cs:28 | Reading back the decimal text of any integer gives that integer |
| Decimal.DecimalCanonical | Assets/ServoControl.cs:33 | Every text the reader accepts is the rendering of the value it reads, so each value has exactly one spelling |
| Protocol.DecodeAxisCommand | Assets/ServoControl.cs:28 | `"T "` or `"P "`, then the decimal reading, then `"\r"`, is read back as that axis's velocity command carrying that reading |
| Protocol.Encode | Assets/ServoControl.cs:21-40 | The text written for each command ends in a carriage return and starts with the command's letter (L, T, P, R); DecodeEncode and EncodeDecode show that this text identifies the command and its value exactly |
| Protocol.DecodeEncode | Assets/ServoControl.cs:21-33 | Every command of the set ("L 1\r", "T v\r", "P v\r", "R\r") encodes to text that reads back as that command; the stop line the script actually writes, "R\r\n", is none of them (see StopKeepsLastSent) |
| Protocol.EncodeDecode | Assets/ServoControl.cs:27-36 | A string is read as a command only if it is that command's encoding, so tilt and pan commands cannot be confused with each other or with other commands |
| Protocol.LastSentAfterTilt | Assets/ServoControl.cs:27-30 | After a tilt command for v, the last tilt velocity sent is v and the last pan velocity sent is unchanged |
| Protocol.LastSentAfterPan | Assets/ServoControl.cs:32-35 | After a pan command for v, the last pan velocity sent is v and the last tilt velocity sent is unchanged |
| Servo.SerialPort.constructor | Assets/ServoControl.cs:19 | A new port is closed and nothing has been written to it |
| Servo.SerialPort.Open | Assets/ServoControl.cs:20 | Opening the port writes nothing |
| Servo.SerialPort.Write | Assets/ServoControl.cs:28 | Write appends exactly its text to the log, and requires an open port |
| Servo.SerialPort.WriteLine | Assets/ServoControl.cs:40 | WriteLine appends its text followed by the default terminator "\n" |
| Servo.UpdateWrites | Assets/ServoControl.cs:27-36 | One frame writes one command per axis whose reading differs from its register, so it writes nothing exactly when neither reading changed; UpdateSentValues and UpdateOrder give which commands and in what order |
| Servo.UpdateSentValues | Assets/ServoControl.cs:27-36 | One frame commands tilt exactly when the tilt reading differs from lastTiltValue, with that reading, and likewise for pan; every string written is a well-formed command |
| Servo.UpdateOrder | Assets/ServoControl.cs:26-37 | A frame writes at most two commands; when both readings changed, the tilt command comes first and the pan command second |
| Servo.UpdateIdempotent | Assets/ServoControl.cs:26-37 | A frame whose readings equal the stored registers writes nothing |
| Servo.FirstUpdate | Assets/ServoControl.cs:13-14 | With both registers at their initial 0, the first frame commands an axis only if its reading is non-zero, and then with that reading |
| Servo.UpdateKeepsMirror | Assets/ServoControl.cs:26-37 | If each register holds the last velocity sent on its axis (0 if none), it still does after a frame that stores the new readings |
| Servo.StopKeepsLastSent | Assets/ServoControl.cs:39-41 | The stop line is no axis command: it leaves the last velocity sent on each axis unchanged |
| Servo.ServoControl.constructor | Assets/ServoControl.cs:13-15 | Both registers start at 0 and there is no port yet |
| Servo.ServoControl.Start | Assets/ServoControl.cs:18-23 | Start opens a fresh port whose only write is "L 1\r", so enabling precedes every motion command; the registers are untouched |
| Servo.ServoControl.Update | Assets/ServoControl.cs:26-37 | The log grows by exactly the commands for the changed axes, tilt first; both registers then equal the readings whether or not anything was sent; the invariant is preserved |
| Servo.ServoControl.StopMovement | Assets/ServoControl.cs:39-41 | The log grows by exactly "R\r\n"; neither register changes, and the invariant is preserved |
| Servo.StopThenSameReadings | Assets/ServoControl.cs:18-41 | Start, a tilt to 100, a stop, then a frame with the same readings writes exactly "L 1\r", "T 100\r", "R\r\n": the frame after the stop re-sends nothing |

## Left out

- Port construction details (device path, 9600 baud, no parity, 8 data bits) are not modelled. A failing `Open` is not modelled either; `Start` always succeeds. Closing the port in `OnApplicationQuit` is left out. All of this is I/O.
- `Debug.Log` calls are left out. They are diagnostics and do not affect what is written.
- Unity's `Slider` and `Text` components are left out. `panPositionText` and `tiltPositionText` are never used.
- The float-to-int cast `(int)slider.value` is left out. It is floating point; `Update` takes the `int` it produces as a 32-bit integer (`int32`).
- Servo.ServoControl.Update: the code would throw a NullReferenceException if a reading changed before `Start` created the port. The model makes this a precondition: a port is required only when something is written. The engine always runs `Start` before the first frame.
- Servo.ServoControl.Start: requires that no port exists yet, because the engine calls `Start` once per script instance.
- Servo.ServoControl.StopMovement: requires a port; the stop button is only used after `Start`.
- Decimal.IntToDecimal: assumes the invariant culture's "-" as the negative sign. Other culture settings of `Int32.ToString` are not modelled.
- Writes are whole strings. Byte-level buffering, timeouts and the device's replies are not modelled.
