/** Stylus frequency switching of the touch controller, one status frame at a time. */
module Afe {

  /** Counters are 32-bit and wrap. */
  const WORD: int := 0x1_0000_0000

  function Next(frame: int): int { if frame + 1 == WORD then 0 else frame + 1 }

  /** Frames from `b` to `a`, as the unsigned subtraction of words gives it. */
  function Ago(a: int, b: int): int { if a >= b then a - b else a - b + WORD }

  lemma WordArithmetic(a: int, b: int)
    requires 0 <= a < WORD && 0 <= b < WORD
    ensures Next(a) == (a + 1) % WORD && Ago(a, b) == (a - b) % WORD
  {
  }

  datatype StylusState = StylusState(
    connected: bool, penId: int, freq0Cmd: int, freq1Cmd: int,
    freqIdx: int, switchPolicy: int, switchTargetIdx: int, switchReqPending: bool,
    frameCounter: int, switchReqFrame: int, lastSwitchFrame: int,
    btFreq1: int, btFreq2: int, btActive: bool, btLastSeenFrame: int, btPressureCleared: bool,
    btMismatchFrame: int, btMismatchActive: bool)

  const NO_STYLUS := StylusState(false, 0, 0, 0, 0, 0, 0, false, 0, 0, 0, 0, 0, false, 0, false, 0, false)

  const COOLDOWN_FRAMES: int := 120
  const PENDING_TIMEOUT: int := 360
  const BT_PRESSURE_TIMEOUT: int := 120
  const BT_HIBERNATE_TIMEOUT: int := 7200
  const BT_MISMATCH_DEBOUNCE: int := 4
  const NOISE_F0_TO_F1: int := 5001
  const NOISE_F1_TO_F0: int := 5000

  // ----- the status words of a frame -----

  datatype Words = Words(f0Noise: nat, f1Noise: nat, freqDone: nat, tpFreq1: nat)

  const BUFFER_SIZE: nat := 6000
  const STATUS_OFFSET: nat := 4807

  ghost predicate IsBuffer(buffer: seq<int>) {
    |buffer| == BUFFER_SIZE && forall k :: 0 <= k < |buffer| ==> 0 <= buffer[k] < 256
  }

  /** Little-endian word. */
  function ReadU16(buffer: seq<int>, offset: nat): (w: nat)
    requires IsBuffer(buffer) && offset + 1 < BUFFER_SIZE
    ensures w < 0x1_0000 && w % 256 == buffer[offset] && w / 256 == buffer[offset + 1]
  {
    buffer[offset] + 256 * buffer[offset + 1]
  }

  function StatusWords(buffer: seq<int>): Words
    requires IsBuffer(buffer)
  {
    Words(ReadU16(buffer, STATUS_OFFSET + 0x1C), ReadU16(buffer, STATUS_OFFSET + 0x20),
          ReadU16(buffer, STATUS_OFFSET + 0x04), ReadU16(buffer, STATUS_OFFSET + 0x10))
  }

  // ----- one status frame -----

  predicate Tracking(s: StylusState) { s.connected && s.switchPolicy >= 2 }

  /** Heartbeat timeouts. */
  function Watched(s: StylusState): StylusState {
    if !s.btActive then s
    else
      var age := Ago(s.frameCounter, s.btLastSeenFrame);
      s.(btPressureCleared := s.btPressureCleared || age > BT_PRESSURE_TIMEOUT, btActive := age <= BT_HIBERNATE_TIMEOUT)
  }

  /** The chip confirms a pending switch. */
  function Confirmed(s: StylusState, w: Words): StylusState {
    if w.freqDone != 0 && s.switchReqPending then
      s.(freqIdx := s.switchTargetIdx, switchReqPending := false, lastSwitchFrame := s.frameCounter,
        btMismatchActive := false)
    else s
  }

  /** A pending switch that is never confirmed expires. */
  function Expired(s: StylusState): StylusState {
    if s.switchReqPending && Ago(s.frameCounter, s.switchReqFrame) > PENDING_TIMEOUT then
      s.(switchReqPending := false, lastSwitchFrame := s.frameCounter)
    else s
  }

  predicate Cooling(s: StylusState) {
    s.lastSwitchFrame != 0 && Ago(s.frameCounter, s.lastSwitchFrame) < COOLDOWN_FRAMES
  }

  function Requested(s: StylusState, target: int): StylusState {
    s.(switchTargetIdx := target, switchReqPending := true, switchReqFrame := s.frameCounter)
  }

  /** Stylus and panel on different frequencies for long enough. */
  predicate MismatchDue(s: StylusState, w: Words) {
    && s.btActive && w.tpFreq1 != 0 && s.btFreq1 != 0 && w.tpFreq1 != s.btFreq1
    && s.btMismatchActive && Ago(s.frameCounter, s.btMismatchFrame) > BT_MISMATCH_DEBOUNCE
  }

  /** Start, keep or drop the mismatch being watched. */
  function MismatchWatched(s: StylusState, w: Words): StylusState {
    if !(s.btActive && w.tpFreq1 != 0 && s.btFreq1 != 0) then s
    else if w.tpFreq1 == s.btFreq1 then s.(btMismatchActive := false)
    else if s.btMismatchActive then s
    else s.(btMismatchActive := true, btMismatchFrame := s.frameCounter)
  }

  /** Request a switch, on a mismatch first, then on noise. */
  function Decided(s: StylusState, w: Words): (StylusState, bool) {
    if MismatchDue(s, w) then
      (Requested(s, if s.btFreq1 == s.freq1Cmd then 1 else 0).(btMismatchActive := false), true)
    else
      var s1 := MismatchWatched(s, w);
      if w.f0Noise - w.f1Noise >= NOISE_F0_TO_F1 && s1.freqIdx != 1 then (Requested(s1, 1), true)
      else if w.f1Noise - w.f0Noise > NOISE_F1_TO_F0 && s1.freqIdx != 0 then (Requested(s1, 0), true)
      else (s1, false)
  }

  /** State after a status frame, and whether a switch is requested. */
  function Frame(s: StylusState, w: Words): (StylusState, bool) {
    if !Tracking(s) then (s, false)
    else
      var s1 := Confirmed(Watched(s.(frameCounter := Next(s.frameCounter))), w);
      if s1.switchReqPending then (Expired(s1), false)
      else if Cooling(s1) then (s1, false)
      else Decided(s1, w)
  }

  // ----- the other operations -----

  function Heartbeat(s: StylusState, freq1: int, freq2: int): StylusState {
    if !s.connected || (freq1 == 0 && freq2 == 0) then s
    else s.(btFreq1 := freq1, btFreq2 := freq2, btActive := true, btLastSeenFrame := s.frameCounter,
      btPressureCleared := false)
  }

  /** Frequency commands of a pen; unknown pens get those of pen 5. */
  function FreqPair(penId: int): (int, int) {
    match penId
    case 0 => (0x00A1, 0x0018)
    case 1 => (0x00A2, 0x0019)
    case 2 => (0x00A3, 0x001A)
    case 3 => (0x00A4, 0x001B)
    case _ => (0x00A1, 0x0018)
  }

  datatype ChipError = InvalidOperation | SendFailed

  datatype ChipResult = Done | Failed(error: ChipError)

  function WithPen(s: StylusState, penId: int): StylusState {
    s.(penId := penId, freq0Cmd := FreqPair(penId).0, freq1Cmd := FreqPair(penId).1)
  }

  function Initialised(s: StylusState): StylusState {
    s.(connected := true, freqIdx := 0, switchPolicy := 2, switchTargetIdx := 0, switchReqPending := false)
  }

  /** Bit 0x40 of a clear command. */
  predicate ClearsRequest(cmd: int) { cmd / 0x40 % 2 == 1 }

  const FREQ_TABLE: seq<(int, int, int)> :=
    [(0, 0x00A1, 0x0018), (1, 0x00A2, 0x0019), (2, 0x00A3, 0x001A), (3, 0x00A4, 0x001B), (5, 0x00A1, 0x0018)]

  class AfeController {
    var stylus: StylusState

    constructor ()
      ensures stylus == NO_STYLUS
    {
      stylus := NO_STYLUS;
    }

    /** `linked` tells whether the chip is connected, `sent` whether the bus command went through. */
    method InitStylus(linked: bool, sent: bool) returns (r: ChipResult)
      modifies this
      ensures r == if !linked then Failed(InvalidOperation) else if !sent then Failed(SendFailed) else Done
      ensures stylus == if r.Done? then Initialised(old(stylus)) else old(stylus)
    {
      if !linked { return Failed(InvalidOperation); }
      if !sent { return Failed(SendFailed); }
      stylus := stylus.(connected := true);
      stylus := stylus.(freqIdx := 0);
      stylus := stylus.(switchPolicy := 2);
      stylus := stylus.(switchTargetIdx := 0);
      stylus := stylus.(switchReqPending := false);
      r := Done;
    }

    /** Search of the frequency table. */
    method FindPair(penId: int) returns (f0: int, f1: int)
      ensures (f0, f1) == FreqPair(penId)
    {
      f0, f1 := 0x00A1, 0x0018;
      for k := 0 to |FREQ_TABLE|
        invariant (f0, f1) == (0x00A1, 0x0018)
        invariant forall j :: 0 <= j < k ==> penId != FREQ_TABLE[j].0
      {
        if FREQ_TABLE[k].0 == penId {
          assert k == 0 || k == 1 || k == 2 || k == 3 || k == 4;
          return FREQ_TABLE[k].1, FREQ_TABLE[k].2;
        }
      }
      assert penId != FREQ_TABLE[1].0 && penId != FREQ_TABLE[2].0 && penId != FREQ_TABLE[3].0;
    }

    method SetStylusId(penId: int, linked: bool) returns (r: ChipResult)
      modifies this
      ensures r == if linked then Done else Failed(InvalidOperation)
      ensures stylus == if linked then WithPen(old(stylus), penId) else old(stylus)
    {
      if !linked { return Failed(InvalidOperation); }
      var f0, f1 := FindPair(penId);
      stylus := stylus.(penId := penId);
      stylus := stylus.(freq0Cmd := f0, freq1Cmd := f1);
      r := Done;
    }

    method DisconnectStylus(linked: bool) returns (r: ChipResult)
      modifies this
      ensures r == if linked then Done else Failed(InvalidOperation)
      ensures stylus == if linked then NO_STYLUS else old(stylus)
    {
      if !linked { return Failed(InvalidOperation); }
      stylus := NO_STYLUS;
      r := Done;
    }

    method ClearStatus(cmd: int, linked: bool) returns (r: ChipResult)
      modifies this
      ensures r == if linked then Done else Failed(InvalidOperation)
      ensures stylus == if linked && ClearsRequest(cmd) then old(stylus).(switchReqPending := false) else old(stylus)
    {
      if !linked { return Failed(InvalidOperation); }
      if ClearsRequest(cmd) { stylus := stylus.(switchReqPending := false); }
      r := Done;
    }

    method UpdateBtHeartbeat(freq1: int, freq2: int)
      modifies this
      ensures stylus == Heartbeat(old(stylus), freq1, freq2)
    {
      if !stylus.connected { return; }
      if freq1 == 0 && freq2 == 0 { return; }
      stylus := stylus.(btFreq1 := freq1, btFreq2 := freq2);
      stylus := stylus.(btActive := true);
      stylus := stylus.(btLastSeenFrame := stylus.frameCounter);
      stylus := stylus.(btPressureCleared := false);
    }

    /** Heartbeat timeouts. */
    method WatchHeartbeat()
      modifies this
      ensures stylus == Watched(old(stylus))
    {
      if stylus.btActive {
        var age := Ago(stylus.frameCounter, stylus.btLastSeenFrame);
        if age > BT_PRESSURE_TIMEOUT && !stylus.btPressureCleared { stylus := stylus.(btPressureCleared := true); }
        if age > BT_HIBERNATE_TIMEOUT { stylus := stylus.(btActive := false); }
      }
    }

    /** Mismatch of stylus and panel frequency, debounced. */
    method CheckMismatch(w: Words) returns (request: bool)
      modifies this
      ensures request == MismatchDue(old(stylus), w)
      ensures stylus == if request then Decided(old(stylus), w).0 else MismatchWatched(old(stylus), w)
    {
      request := false;
      if stylus.btActive && w.tpFreq1 != 0 && stylus.btFreq1 != 0 {
        if w.tpFreq1 != stylus.btFreq1 {
          if !stylus.btMismatchActive {
            stylus := stylus.(btMismatchActive := true, btMismatchFrame := stylus.frameCounter);
          } else if Ago(stylus.frameCounter, stylus.btMismatchFrame) > BT_MISMATCH_DEBOUNCE {
            var target := if stylus.btFreq1 == stylus.freq1Cmd then 1 else 0;
            stylus := stylus.(switchTargetIdx := target, switchReqPending := true,
              switchReqFrame := stylus.frameCounter);
            stylus := stylus.(btMismatchActive := false);
            request := true;
          }
        } else {
          stylus := stylus.(btMismatchActive := false);
        }
      }
    }

    /** One status frame. */
    method ProcessStylusStatus(buffer: seq<int>) returns (request: bool)
      requires IsBuffer(buffer)
      modifies this
      ensures (stylus, request) == Frame(old(stylus), StatusWords(buffer))
    {
      if !stylus.connected || stylus.switchPolicy < 2 { return false; }
      stylus := stylus.(frameCounter := Next(stylus.frameCounter));
      var w := StatusWords(buffer);
      WatchHeartbeat();
      if w.freqDone != 0 && stylus.switchReqPending {
        stylus := stylus.(freqIdx := stylus.switchTargetIdx, switchReqPending := false);
        stylus := stylus.(lastSwitchFrame := stylus.frameCounter, btMismatchActive := false);
      }
      if stylus.switchReqPending {
        if Ago(stylus.frameCounter, stylus.switchReqFrame) > PENDING_TIMEOUT {
          stylus := stylus.(switchReqPending := false, lastSwitchFrame := stylus.frameCounter);
        }
        return false;
      }
      if stylus.lastSwitchFrame != 0
        && Ago(stylus.frameCounter, stylus.lastSwitchFrame) < COOLDOWN_FRAMES { return false; }
      request := CheckMismatch(w);
      if request { return; }
      if w.f0Noise - w.f1Noise >= NOISE_F0_TO_F1 && stylus.freqIdx != 1 {
        stylus := stylus.(switchTargetIdx := 1, switchReqPending := true, switchReqFrame := stylus.frameCounter);
        return true;
      } else if w.f1Noise - w.f0Noise > NOISE_F1_TO_F0 && stylus.freqIdx != 0 {
        stylus := stylus.(switchTargetIdx := 0, switchReqPending := true, switchReqFrame := stylus.frameCounter);
        return true;
      }
    }
  }
}
