/** The pan/tilt head's serial command set as ServoControl writes it: each
    command is an ASCII line ending in a carriage return. A decoder is the
    reference against which the encoder is proved unambiguous. */
module Protocol {
  import opened Decimal

  /** A C# `int`: the truncated slider reading and the remembered registers. */
  newtype int32 = x: int | -0x8000_0000 <= x < 0x8000_0000

  /** Axes of the head. */
  datatype Axis = TiltAxis | PanAxis

  datatype Command =
    | Enable            // "L 1": hand control of the head to the serial line
    | Tilt(v: int32)    // "T <v>": tilt velocity
    | Pan(v: int32)     // "P <v>": pan velocity
    | Stop              // "R": stop all motion

  /** The text written to the port for a command: a line that ends in a
      carriage return and whose first letter names the command. */
  function Encode(c: Command): (s: string)
    ensures |s| >= 2 && s[|s| - 1] == '\r'
    ensures s[0] == match c
      case Enable => 'L'
      case Tilt(_) => 'T'
      case Pan(_) => 'P'
      case Stop => 'R'
  {
    match c
    case Enable => "L 1\r"
    case Tilt(v) => "T " + IntToDecimal(v as int) + "\r"
    case Pan(v) => "P " + IntToDecimal(v as int) + "\r"
    case Stop => "R\r"
  }

  /** The command a written string spells, if it spells exactly one. */
  function Decode(s: string): (r: Option<Command>)
    ensures r.Some? ==> |s| >= 2 && s[|s| - 1] == '\r'
  {
    if s == "L 1\r" then Some(Enable)
    else if s == "R\r" then Some(Stop)
    else if |s| >= 4 && (s[0] == 'T' || s[0] == 'P') && s[1] == ' ' && s[|s| - 1] == '\r' then
      match ParseInt(s[2..|s| - 1])
      case Some(v) =>
        if -0x8000_0000 <= v < 0x8000_0000 then
          Some(if s[0] == 'T' then Tilt(v as int32) else Pan(v as int32))
        else None
      case None => None
    else None
  }

  /** The velocity a written string sets on `axis`, if it is a command for that axis. */
  function AxisValue(s: string, axis: Axis): Option<int32> {
    match Decode(s)
    case Some(Tilt(v)) => if axis == TiltAxis then Some(v) else None
    case Some(Pan(v)) => if axis == PanAxis then Some(v) else None
    case _ => None
  }

  /** The most recent velocity commanded on `axis` in a log of writes. */
  function LastSent(log: seq<string>, axis: Axis): Option<int32> {
    if log == [] then None
    else match AxisValue(log[|log| - 1], axis)
      case Some(v) => Some(v)
      case None => LastSent(log[..|log| - 1], axis)
  }

  /** An axis command "<letter> <v>\r" is read back as that letter's command. */
  lemma DecodeAxisCommand(letter: char, v: int32)
    requires letter == 'T' || letter == 'P'
    ensures Decode([letter, ' '] + IntToDecimal(v as int) + "\r")
      == Some(if letter == 'T' then Tilt(v) else Pan(v))
  {
    var d := IntToDecimal(v as int);
    var s := [letter, ' '] + d + "\r";
    assert s[0] == letter && s[1] == ' ' && |s| >= 4 && s[|s| - 1] == '\r';
    assert s != "L 1\r" && s != "R\r";
    assert s[2..|s| - 1] == d;
    DecimalRoundTrip(v as int);
  }

  /** Every command is read back as itself. */
  lemma DecodeEncode(c: Command)
    ensures Decode(Encode(c)) == Some(c)
  {
    match c
    case Tilt(v) =>
      assert Encode(c) == ['T', ' '] + IntToDecimal(v as int) + "\r";
      DecodeAxisCommand('T', v);
    case Pan(v) =>
      assert Encode(c) == ['P', ' '] + IntToDecimal(v as int) + "\r";
      DecodeAxisCommand('P', v);
    case _ =>
  }

  /** Only the encoding of a command decodes to it: the framing is unambiguous. */
  lemma EncodeDecode(s: string, c: Command)
    requires Decode(s) == Some(c)
    ensures Encode(c) == s
  {
    if s != "L 1\r" && s != "R\r" {
      var d := s[2..|s| - 1];
      var v :| ParseInt(d) == Some(v) && v == c.v as int;
      DecimalCanonical(d, v);
      calc {
        s;
        [s[0], s[1]] + d + [s[|s| - 1]];
        [s[0], ' '] + IntToDecimal(c.v as int) + "\r";
      }
    }
  }

  /** Appending a write changes the last value sent on an axis exactly when
      that write is a command for the axis. */
  lemma LastSentAppend(log: seq<string>, s: string, axis: Axis)
    ensures LastSent(log + [s], axis) ==
      match AxisValue(s, axis)
      case Some(v) => Some(v)
      case None => LastSent(log, axis)
  {
    assert (log + [s])[..|log|] == log;
  }

  /** A tilt command sets the last tilt value and leaves the last pan value. */
  lemma LastSentAfterTilt(log: seq<string>, v: int32)
    ensures LastSent(log + [Encode(Tilt(v))], TiltAxis) == Some(v)
    ensures LastSent(log + [Encode(Tilt(v))], PanAxis) == LastSent(log, PanAxis)
  {
    DecodeEncode(Tilt(v));
    LastSentAppend(log, Encode(Tilt(v)), TiltAxis);
    LastSentAppend(log, Encode(Tilt(v)), PanAxis);
  }

  /** A pan command sets the last pan value and leaves the last tilt value. */
  lemma LastSentAfterPan(log: seq<string>, v: int32)
    ensures LastSent(log + [Encode(Pan(v))], PanAxis) == Some(v)
    ensures LastSent(log + [Encode(Pan(v))], TiltAxis) == LastSent(log, TiltAxis)
  {
    DecodeEncode(Pan(v));
    LastSentAppend(log, Encode(Pan(v)), TiltAxis);
    LastSentAppend(log, Encode(Pan(v)), PanAxis);
  }
}
