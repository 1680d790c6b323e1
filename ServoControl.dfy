/** The ServoControl script: it jogs the head from two sliders by writing a
    velocity command for each axis whose reading changed since the last frame. */
module Servo {
  import opened Decimal
  import opened Protocol

  /** The line terminator SerialPort.WriteLine appends (its default NewLine). */
  const NewLine: string := "\n"

  /** The serial port, seen only through what is written to it, one entry per
      Write or WriteLine call. */
  class SerialPort {
    var isOpen: bool
    var written: seq<string>

    constructor ()
      ensures !isOpen && written == []
    {
      isOpen := false;
      written := [];
    }

    method Open()
      modifies this
      ensures isOpen && written == old(written)
    {
      isOpen := true;
    }

    /** Writing to a port that is not open throws, so callers must open it first. */
    method Write(text: string)
      requires isOpen
      modifies this`written
      ensures written == old(written) + [text]
    {
      written := written + [text];
    }

    method WriteLine(text: string)
      requires isOpen
      modifies this`written
      ensures written == old(written) + [text + NewLine]
    {
      written := written + [text + NewLine];
    }
  }

  /** What one Update writes, given the registers it starts from and the two
      slider readings: the tilt command first, then the pan command, each only
      if that reading differs from its register. */
  function UpdateWrites(lastTilt: int32, lastPan: int32, tilt: int32, pan: int32): (w: seq<string>)
    ensures |w| == (if tilt != lastTilt then 1 else 0) + (if pan != lastPan then 1 else 0)
    ensures w == [] <==> tilt == lastTilt && pan == lastPan
  {
    (if tilt != lastTilt then [Encode(Tilt(tilt))] else [])
    + (if pan != lastPan then [Encode(Pan(pan))] else [])
  }

  /** The velocities commanded on `axis` by a sequence of writes, in order. */
  function SentValues(w: seq<string>, axis: Axis): seq<int32> {
    if w == [] then []
    else
      (match AxisValue(w[0], axis) case Some(v) => [v] case None => [])
      + SentValues(w[1..], axis)
  }

  /** The commands of two write sequences written one after the other. */
  lemma {:induction false} SentValuesAppend(a: seq<string>, b: seq<string>, axis: Axis)
    ensures SentValues(a + b, axis) == SentValues(a, axis) + SentValues(b, axis)
  {
    if a == [] {
      assert a + b == b;
    } else {
      assert (a + b)[0] == a[0] && (a + b)[1..] == a[1..] + b;
      SentValuesAppend(a[1..], b, axis);
    }
  }

  /** An Update commands an axis exactly when its reading changed, with that
      reading, and every string it writes is a well-formed command. */
  lemma UpdateSentValues(lastTilt: int32, lastPan: int32, tilt: int32, pan: int32)
    ensures var w := UpdateWrites(lastTilt, lastPan, tilt, pan);
      && SentValues(w, TiltAxis) == (if tilt != lastTilt then [tilt] else [])
      && SentValues(w, PanAxis) == (if pan != lastPan then [pan] else [])
      && forall i :: 0 <= i < |w| ==> Decode(w[i]).Some?
  {
    DecodeEncode(Tilt(tilt));
    DecodeEncode(Pan(pan));
    var t := if tilt != lastTilt then [Encode(Tilt(tilt))] else [];
    var p := if pan != lastPan then [Encode(Pan(pan))] else [];
    assert t != [] ==> t[1..] == [];
    assert p != [] ==> p[1..] == [];
    SentValuesAppend(t, p, TiltAxis);
    SentValuesAppend(t, p, PanAxis);
  }

  /** At most two writes per Update; when both readings changed, the tilt
      command precedes the pan command. */
  lemma UpdateOrder(lastTilt: int32, lastPan: int32, tilt: int32, pan: int32)
    ensures var w := UpdateWrites(lastTilt, lastPan, tilt, pan);
      && |w| <= 2
      && (tilt != lastTilt && pan != lastPan ==>
            |w| == 2 && Decode(w[0]) == Some(Tilt(tilt)) && Decode(w[1]) == Some(Pan(pan)))
  {
    DecodeEncode(Tilt(tilt));
    DecodeEncode(Pan(pan));
  }

  /** An Update that repeats the readings it last stored writes nothing. */
  lemma UpdateIdempotent(tilt: int32, pan: int32)
    ensures UpdateWrites(tilt, pan, tilt, pan) == []
  {
  }

  /** Both registers start at 0, so the first Update commands an axis only if
      its reading is not 0. */
  lemma FirstUpdate(tilt: int32, pan: int32)
    ensures SentValues(UpdateWrites(0, 0, tilt, pan), TiltAxis) == (if tilt == 0 then [] else [tilt])
    ensures SentValues(UpdateWrites(0, 0, tilt, pan), PanAxis) == (if pan == 0 then [] else [pan])
  {
    UpdateSentValues(0, 0, tilt, pan);
  }

  /** The registers mirror the port: if each register is the last velocity
      sent on its axis (0 when none was), the same holds after an Update
      with the new readings. */
  lemma UpdateKeepsMirror(log: seq<string>, lastTilt: int32, lastPan: int32, tilt: int32, pan: int32)
    requires LastSent(log, TiltAxis).GetOr(0) == lastTilt
    requires LastSent(log, PanAxis).GetOr(0) == lastPan
    ensures LastSent(log + UpdateWrites(lastTilt, lastPan, tilt, pan), TiltAxis).GetOr(0) == tilt
    ensures LastSent(log + UpdateWrites(lastTilt, lastPan, tilt, pan), PanAxis).GetOr(0) == pan
  {
    var log1 := if tilt != lastTilt then log + [Encode(Tilt(tilt))] else log;
    if tilt != lastTilt {
      LastSentAfterTilt(log, tilt);
    }
    var log2 := if pan != lastPan then log1 + [Encode(Pan(pan))] else log1;
    if pan != lastPan {
      LastSentAfterPan(log1, pan);
    }
    assert log + UpdateWrites(lastTilt, lastPan, tilt, pan) == log2;
  }

  /** The stop line is no axis command, so it leaves the last velocity sent
      on either axis as it was, although the head has stopped. */
  lemma StopKeepsLastSent(log: seq<string>, axis: Axis)
    ensures LastSent(log + [Encode(Stop) + NewLine], axis) == LastSent(log, axis)
  {
  }

  class ServoControl {
    var lastTiltValue: int32
    var lastPanValue: int32
    var sp: SerialPort?

    /** Before Start no port exists and nothing has been stored; after it the
        port is open, its first write enabled the head, and each register is
        the last velocity sent on its axis (0 while none was sent). */
    ghost predicate Valid()
      reads this, sp
    {
      && (sp == null ==> lastTiltValue == 0 && lastPanValue == 0)
      && (sp != null ==>
            && sp.isOpen
            && |sp.written| >= 1 && sp.written[0] == Encode(Enable)
            && LastSent(sp.written, TiltAxis).GetOr(0) == lastTiltValue
            && LastSent(sp.written, PanAxis).GetOr(0) == lastPanValue)
    }

    /** Both registers start at 0. */
    constructor ()
      ensures Valid() && sp == null
      ensures lastTiltValue == 0 && lastPanValue == 0
    {
      lastTiltValue := 0;
      lastPanValue := 0;
      sp := null;
    }

    /** Opens the port and enables the head; the engine runs this once,
        before the first frame. */
    method Start()
      requires Valid() && sp == null
      modifies this
      ensures Valid() && fresh(sp)
      ensures sp.written == [Encode(Enable)]
      ensures lastTiltValue == old(lastTiltValue) && lastPanValue == old(lastPanValue)
    {
      sp := new SerialPort();
      sp.Open();
      sp.Write(Encode(Enable));
    }

    /** One frame: send a command for each axis whose truncated slider reading
        changed and store both readings. A port is needed only when something
        is written. */
    method Update(tilt: int32, pan: int32)
      requires Valid()
      requires tilt != lastTiltValue || pan != lastPanValue ==> sp != null
      modifies this, sp
      ensures Valid() && sp == old(sp)
      ensures lastTiltValue == tilt && lastPanValue == pan
      ensures sp != null ==>
        sp.written == old(sp.written) + UpdateWrites(old(lastTiltValue), old(lastPanValue), tilt, pan)
    {
      if tilt != lastTiltValue {
        LastSentAfterTilt(sp.written, tilt);
        sp.Write(Encode(Tilt(tilt)));
        lastTiltValue := tilt;
      }
      if pan != lastPanValue {
        LastSentAfterPan(sp.written, pan);
        sp.Write(Encode(Pan(pan)));
        lastPanValue := pan;
      }
    }

    /** Stops the head. WriteLine appends the port's line terminator after
        "R\r"; neither register changes. */
    method StopMovement()
      requires Valid() && sp != null
      modifies sp
      ensures Valid()
      ensures sp.written == old(sp.written) + [Encode(Stop) + NewLine]
      ensures lastTiltValue == old(lastTiltValue) && lastPanValue == old(lastPanValue)
    {
      StopKeepsLastSent(sp.written, TiltAxis);
      StopKeepsLastSent(sp.written, PanAxis);
      sp.WriteLine(Encode(Stop));
    }
  }

  /** A jog session: enable, move the tilt slider to 100, stop, and let the
      next frame see the same readings. The stop is not undone: the frame
      after it writes nothing, so the head stays stopped. */
  method StopThenSameReadings() returns (log: seq<string>)
    ensures log == ["L 1\r", "T 100\r", "R\r\n"]
  {
    var c := new ServoControl();
    c.Start();
    c.Update(100, 0);
    c.StopMovement();
    c.Update(100, 0);
    log := c.sp.written;
    assert NatToDecimal(1) == "1" && NatToDecimal(10) == "10" && NatToDecimal(100) == "100";
    assert Encode(Tilt(100)) == "T 100\r" && Encode(Stop) + NewLine == "R\r\n";
    assert log == [Encode(Enable), Encode(Tilt(100)), Encode(Stop) + NewLine];
  }
}
