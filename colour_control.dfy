/**
 * Display colour selection (class ColourControl). Colours 0 to 6 are set on the
 * display directly; the value 7 starts a periodic timer whose interrupt steps
 * through the colours 1, 2, ..., 6, 0, 1, ... The timer is a flag with its
 * period, and the display's colour setter is a sink recording the values it is
 * given.
 */
module ColourControls {
  import opened Bits

  /** The colour value that selects cycling. */
  const Cycle: byte := 0x07
  /** The largest colour the cycle reaches. */
  const LastColour: byte := 0x06
  /** The cycle timer's period in microseconds. */
  const CyclePeriod := 60000000

  /** The colour the interrupt pushes after `colour`: one more, wrapping from 6 to 0. */
  function NextColour(colour: byte): (c: byte)
    ensures c <= LastColour
  {
    if colour + 1 > LastColour then 0 else colour + 1
  }

  /** The colours `k` successive interrupts push, starting from counter value `colour`. */
  function Ticks(colour: byte, k: nat): (cs: seq<byte>)
    ensures |cs| == k
    decreases k
  {
    if k == 0 then [] else [NextColour(colour)] + Ticks(NextColour(colour), k - 1)
  }

  /** In integer terms the interrupt counts modulo 7 from a counter value in range. */
  lemma NextColourMod(colour: byte)
    requires colour <= LastColour
    ensures NextColour(colour) as int == (colour as int + 1) % 7
  {
  }

  /**
   * The `i`-th colour pushed is `(colour + i + 1) mod 7`, so every pushed colour
   * is at most 6 (never the cycling value 7) and the colours repeat every seven
   * interrupts.
   */
  lemma {:induction false} TicksAt(colour: byte, k: nat, i: nat)
    requires colour <= LastColour && i < k
    ensures Ticks(colour, k)[i] as int == (colour as int + i + 1) % 7
    ensures Ticks(colour, k)[i] <= LastColour && Ticks(colour, k)[i] != Cycle
    decreases i
  {
    NextColourMod(colour);
    if i > 0 {
      var c1 := NextColour(colour);
      TicksAt(c1, k - 1, i - 1);
      assert Ticks(colour, k)[i] == Ticks(c1, k - 1)[i - 1];
      assert (c1 as int + (i - 1) + 1) % 7 == (colour as int + i + 1) % 7;
    }
  }

  /** From a fresh counter the cycle pushes 1, 2, 3, 4, 5, 6, 0. */
  lemma FirstCycle()
    ensures Ticks(0, 7) == [1, 2, 3, 4, 5, 6, 0]
  {
  }

  class ColourControl {
    var m_colour: byte
    /** Whether the cycle timer runs. */
    var timerRunning: bool
    /** The period the timer was last started with, in microseconds. */
    var timerPeriod: int
    /** The interrupt's counter, a function-level static: stopping and restarting the timer keeps it. */
    var isrColour: byte
    /** The colours given to the display, oldest first. */
    var pushed: seq<byte>

    /** The timer runs exactly while cycling is selected, and the counter is a colour. */
    ghost predicate Valid()
      reads this
    {
      (timerRunning <==> m_colour == Cycle) && isrColour <= LastColour
    }

    /** Colour 0 selected, the timer stopped, nothing pushed yet. */
    constructor ()
      ensures Valid() && m_colour == 0 && !timerRunning && isrColour == 0 && pushed == []
    {
      m_colour := 0x00;
      timerRunning := false;
      timerPeriod := 0;
      isrColour := 0x00;
      pushed := [];
    }

    /**
     * Selects `colour`. An unchanged value does nothing; 7 starts the cycle timer
     * without pushing a colour; any other value stops the timer and pushes itself.
     */
    method SetColour(colour: byte)
      requires Valid()
      modifies this
      ensures Valid() && isrColour == old(isrColour)
      ensures colour == old(m_colour) ==>
        m_colour == old(m_colour) && timerRunning == old(timerRunning)
        && timerPeriod == old(timerPeriod) && pushed == old(pushed)
      ensures colour != old(m_colour) && colour == Cycle ==>
        m_colour == Cycle && timerRunning && timerPeriod == CyclePeriod && pushed == old(pushed)
      ensures colour != old(m_colour) && colour != Cycle ==>
        m_colour == colour && !timerRunning && timerPeriod == old(timerPeriod) && pushed == old(pushed) + [colour]
    {
      if colour != m_colour {
        m_colour := colour;
        if m_colour == Cycle {
          timerRunning := true;
          timerPeriod := CyclePeriod;
        } else {
          timerRunning := false;
          pushed := pushed + [m_colour];
        }
      }
    }

    /** One timer interrupt: steps the counter and pushes it; the selected value stays 7. */
    method IsrTimer()
      requires Valid() && timerRunning
      modifies this
      ensures Valid() && m_colour == Cycle && timerRunning && timerPeriod == old(timerPeriod)
      ensures isrColour == NextColour(old(isrColour))
      ensures pushed == old(pushed) + Ticks(old(isrColour), 1)
    {
      isrColour := isrColour + 1;
      if isrColour > LastColour {
        isrColour := 0x00;
      }
      pushed := pushed + [isrColour];
    }
  }
}
