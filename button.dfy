/**
 * A debounced push button (class Button). The pin is pulled up, so a pressed
 * button reads LOW. `Read` samples the pin and the millisecond clock and
 * reports OFF until a press has lasted longer than the debounce time, then
 * RISING once, then ON, and ON_HOLD once the press has lasted longer than the
 * hold time. The pin level and the clock readings are parameters here.
 */
module Buttons {
  import opened Bits

  /** The values `Read` can return (`BTN_OFF` ... `BTN_FALLING`). */
  datatype ButtonEvent = Off | Rising | On | OnHold | Falling

  /** Debounce time in milliseconds. */
  const TimeDebounce: u32 := 100
  /** Hold time in milliseconds. */
  const TimeHold: u32 := 1000

  /** The state `Read` keeps between samples. */
  datatype ButtonState = ButtonState(timeLast: u32, readLastHigh: bool, risen: bool)

  /** Milliseconds since `timeLast`, as an `unsigned long` subtraction that wraps at 2^32. */
  function Elapsed(timeNow: u32, timeLast: u32): (ms: u32)
  {
    (timeNow - timeLast) % 0x1_0000_0000
  }

  /**
   * The event one sample yields. `pinLow` is the pin reading (pressed) and
   * `timeNow` the clock read at the start of the call.
   */
  function Event(b: ButtonState, pinLow: bool, timeNow: u32): (e: ButtonEvent)
  {
    if !pinLow || b.readLastHigh then Off
    else if Elapsed(timeNow, b.timeLast) <= TimeDebounce then Off
    else if !b.risen then Rising
    else if Elapsed(timeNow, b.timeLast) > TimeHold then OnHold
    else On
  }

  /**
   * The state after one sample. `timeEdge` is the clock read again when a press
   * begins; that second reading becomes the start of the press.
   */
  function Next(b: ButtonState, pinLow: bool, timeNow: u32, timeEdge: u32): (b': ButtonState)
  {
    if !pinLow then ButtonState(0, true, false)
    else if b.readLastHigh then ButtonState(timeEdge, false, b.risen)
    else ButtonState(b.timeLast, false, b.risen || Event(b, pinLow, timeNow) == Rising)
  }

  /** One sample: the pin level and the two clock readings of a call. */
  datatype Sample = Sample(pinLow: bool, timeNow: u32, timeEdge: u32)

  /** The events a run of samples yields. */
  function Events(b: ButtonState, samples: seq<Sample>): (es: seq<ButtonEvent>)
    ensures |es| == |samples|
    decreases |samples|
  {
    if |samples| == 0 then []
    else
      var s := samples[0];
      [Event(b, s.pinLow, s.timeNow)] + Events(Next(b, s.pinLow, s.timeNow, s.timeEdge), samples[1..])
  }

  /** How many RISING events a sequence holds. */
  function CountRising(es: seq<ButtonEvent>): nat
  {
    if |es| == 0 then 0 else (if es[0] == Rising then 1 else 0) + CountRising(es[1..])
  }

  /** A released button reads OFF and forgets the press: no start time, last reading high, not risen. */
  lemma ReleaseResets(b: ButtonState, timeNow: u32, timeEdge: u32)
    ensures Event(b, false, timeNow) == Off
    ensures Next(b, false, timeNow, timeEdge) == ButtonState(0, true, false)
  {
  }

  /** The first pressed sample after a released one reads OFF and starts timing the press at the second clock reading. */
  lemma PressStartsTiming(b: ButtonState, timeNow: u32, timeEdge: u32)
    requires b.readLastHigh
    ensures Event(b, true, timeNow) == Off
    ensures Next(b, true, timeNow, timeEdge).timeLast == timeEdge
    ensures !Next(b, true, timeNow, timeEdge).readLastHigh
  {
  }

  /**
   * A sample reads RISING exactly when the button is held (pressed now and at
   * the previous sample), has not risen yet, and the press has lasted longer than
   * the debounce time; afterwards it has risen.
   */
  lemma RisingIff(b: ButtonState, pinLow: bool, timeNow: u32, timeEdge: u32)
    ensures Event(b, pinLow, timeNow) == Rising <==>
      pinLow && !b.readLastHigh && !b.risen && Elapsed(timeNow, b.timeLast) > TimeDebounce
    ensures Event(b, pinLow, timeNow) == Rising ==> Next(b, pinLow, timeNow, timeEdge).risen
  {
  }

  /** A held press reads OFF until it has lasted longer than the debounce time, and such a sample changes neither its start time nor `risen`. */
  lemma DebounceHoldsOff(b: ButtonState, timeNow: u32, timeEdge: u32)
    requires !b.readLastHigh && Elapsed(timeNow, b.timeLast) <= TimeDebounce
    ensures Event(b, true, timeNow) == Off
    ensures Next(b, true, timeNow, timeEdge) == b
  {
  }

  /**
   * Once risen, a held button reads ON until the press has lasted longer than the
   * hold time and ON_HOLD after that (OFF only if the elapsed time has wrapped
   * back under the debounce time).
   */
  lemma HeldAfterRising(b: ButtonState, timeNow: u32)
    requires b.risen && !b.readLastHigh
    ensures Event(b, true, timeNow) == (
      if Elapsed(timeNow, b.timeLast) <= TimeDebounce then Off
      else if Elapsed(timeNow, b.timeLast) <= TimeHold then On
      else OnHold)
  {
  }

  /** `BTN_FALLING` is never returned. */
  lemma NeverFalling(b: ButtonState, pinLow: bool, timeNow: u32)
    ensures Event(b, pinLow, timeNow) != Falling
  {
  }

  /** While the button stays pressed, a risen button never reads RISING again. */
  lemma {:induction false} RisenStaysQuiet(b: ButtonState, samples: seq<Sample>)
    requires b.risen
    requires forall i :: 0 <= i < |samples| ==> samples[i].pinLow
    ensures CountRising(Events(b, samples)) == 0
    decreases |samples|
  {
    if |samples| > 0 {
      var s := samples[0];
      assert Event(b, s.pinLow, s.timeNow) != Rising;
      RisenStaysQuiet(Next(b, s.pinLow, s.timeNow, s.timeEdge), samples[1..]);
    }
  }

  /** RISING is reported at most once while the button stays pressed. */
  lemma {:induction false} RisingOncePerPress(b: ButtonState, samples: seq<Sample>)
    requires forall i :: 0 <= i < |samples| ==> samples[i].pinLow
    ensures CountRising(Events(b, samples)) <= 1
    decreases |samples|
  {
    if |samples| > 0 {
      var s := samples[0];
      var b' := Next(b, s.pinLow, s.timeNow, s.timeEdge);
      if Event(b, s.pinLow, s.timeNow) == Rising {
        RisenStaysQuiet(b', samples[1..]);
      } else {
        RisingOncePerPress(b', samples[1..]);
      }
    }
  }

  class Button {
    var pinBtn: int
    var timeDebounce: u32
    var timeHold: u32
    var timeLast: u32
    var readLastHigh: bool
    var risen: bool

    /** The state `Read` keeps. */
    function State(): ButtonState
      reads this
    {
      ButtonState(timeLast, readLastHigh, risen)
    }

    /** The times are the fixed debounce and hold times. */
    ghost predicate Valid()
      reads this
    {
      timeDebounce == TimeDebounce && timeHold == TimeHold
    }

    /** A released, not risen button on pin `pinBtn`. */
    constructor (pinBtn: int)
      ensures Valid() && this.pinBtn == pinBtn
      ensures readLastHigh && !risen
    {
      this.pinBtn := pinBtn;
      timeDebounce := 100;
      timeHold := 1000;
      risen := false;
      readLastHigh := true;
      timeLast := 0;
    }

    /** Samples the button: `pinLow` is the pin reading, `timeNow` and `timeEdge` the two clock readings of the call. */
    method Read(pinLow: bool, timeNow: u32, timeEdge: u32) returns (ret: ButtonEvent)
      requires Valid()
      modifies this
      ensures Valid() && pinBtn == old(pinBtn)
      ensures ret == Event(old(State()), pinLow, timeNow)
      ensures State() == Next(old(State()), pinLow, timeNow, timeEdge)
    {
      ret := Off;
      if pinLow {
        if readLastHigh {
          // Transition from OFF to ON, not debounced
          timeLast := timeEdge;
        } else {
          if (timeNow - timeLast) % 0x1_0000_0000 > timeDebounce {
            if risen {
              if (timeNow - timeLast) % 0x1_0000_0000 > timeHold {
                ret := OnHold;
              } else {
                ret := On;
              }
            } else {
              ret := Rising;
              risen := true;
            }
          }
        }
        readLastHigh := false;
      } else {
        timeLast := 0;
        risen := false;
        readLastHigh := true;
      }
    }
  }
}
