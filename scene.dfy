/**
 * Scene playback (class Scene). A scene is a run of stored frames, optionally
 * preceded by a blank "first" frame and followed by a blank "last" frame, each
 * with its own delay and layer taken from the scene's storyboard record.
 * `NextFrame` advances a small state machine over the two special frames and
 * the count of frames already loaded.
 */
module Scenes {
  import opened Bits
  import opened Dotmaps

  /** Progress of the first and the last special frame (`SpecialProc`). */
  datatype Special = NA | TODO | INPROC | DONE

  /** One storyboard record of a scene file. */
  datatype StoryboardItem = StoryboardItem(
    firstFrameDelay: u16, firstFrameLayer: u16, firstBlank: u16,
    frameDelay: u16, frameLayer: u16,
    lastFrameDelay: u16, lastFrameLayer: u16, lastBlank: u16,
    clockStyle: byte)

  /** The state `NextFrame` reads and writes. */
  datatype Playback = Playback(doFirst: Special, doLast: Special, curFrame: int, cntFrames: int)

  /** What one call of `NextFrame` does with the frame dotmap. */
  datatype FrameAction = BlankFrame | LoadFrame | EndOfScene

  /** The blank flag value that asks for a blank frame. */
  const BlankOn: u16 := 0x01

  /** The special-frame transition: TODO becomes INPROC, every other state becomes DONE. */
  function Advanced(s: Special): Special
  {
    if s == TODO then INPROC else DONE
  }

  /** `doFirst` after a call: it always advances. */
  function NextDoFirst(p: Playback): Special
  {
    Advanced(p.doFirst)
  }

  /** `doLast` after a call: it advances only when every stored frame was loaded on entry. */
  function NextDoLast(p: Playback): Special
  {
    if p.curFrame == p.cntFrames then Advanced(p.doLast) else p.doLast
  }

  /** What a call does, in the order the source tests: a blank first frame, a stored frame, a blank last frame. */
  function Action(p: Playback, firstBlank: u16, lastBlank: u16): FrameAction
  {
    if NextDoFirst(p) == INPROC && firstBlank == BlankOn then BlankFrame
    else if p.curFrame < p.cntFrames then LoadFrame
    else if NextDoLast(p) == INPROC && lastBlank == BlankOn then BlankFrame
    else EndOfScene
  }

  /** The state after a call. */
  function Step(p: Playback, firstBlank: u16, lastBlank: u16): Playback
  {
    Playback(NextDoFirst(p), NextDoLast(p),
             p.curFrame + (if Action(p, firstBlank, lastBlank) == LoadFrame then 1 else 0),
             p.cntFrames)
  }

  /** The actions of `k` successive calls. */
  function Actions(p: Playback, firstBlank: u16, lastBlank: u16, k: nat): (acts: seq<FrameAction>)
    ensures |acts| == k
    decreases k
  {
    if k == 0 then []
    else [Action(p, firstBlank, lastBlank)] + Actions(Step(p, firstBlank, lastBlank), firstBlank, lastBlank, k - 1)
  }

  /** Whether the scene is over: every stored frame loaded and no last frame pending (`Eof`). */
  predicate AtEnd(p: Playback)
  {
    p.curFrame == p.cntFrames && (p.doLast == DONE || p.doLast == NA)
  }

  /**
   * A call loads at most one stored frame and never one beyond the count; a
   * blank first frame loads none.
   */
  lemma StepBounded(p: Playback, firstBlank: u16, lastBlank: u16)
    requires 0 <= p.curFrame <= p.cntFrames
    ensures var q := Step(p, firstBlank, lastBlank);
      && p.curFrame <= q.curFrame <= p.cntFrames
      && (q.curFrame == p.curFrame + 1 <==> Action(p, firstBlank, lastBlank) == LoadFrame)
      && q.cntFrames == p.cntFrames
    ensures p.doFirst == TODO && firstBlank == BlankOn ==>
      Action(p, firstBlank, lastBlank) == BlankFrame && Step(p, firstBlank, lastBlank).curFrame == p.curFrame
  {
  }

  /**
   * A call fails exactly when every stored frame is loaded and neither a blank
   * first frame nor a blank last frame starts now.
   */
  lemma EndIff(p: Playback, firstBlank: u16, lastBlank: u16)
    requires 0 <= p.curFrame <= p.cntFrames
    ensures Action(p, firstBlank, lastBlank) == EndOfScene <==>
      && p.curFrame == p.cntFrames
      && (p.doFirst != TODO || firstBlank != BlankOn)
      && (p.doLast != TODO || lastBlank != BlankOn)
  {
  }

  /** Stored frames left plus pending special frames: a measure every successful call lowers. */
  function Pending(p: Playback): int
  {
    p.cntFrames - p.curFrame + (if p.doFirst == TODO then 1 else 0) + (if p.doLast == TODO then 1 else 0)
  }

  /** Every call that succeeds lowers `Pending`, so a scene cannot play forever. */
  lemma SuccessLowersPending(p: Playback, firstBlank: u16, lastBlank: u16)
    requires 0 <= p.curFrame <= p.cntFrames
    requires Action(p, firstBlank, lastBlank) != EndOfScene
    ensures 0 <= Pending(Step(p, firstBlank, lastBlank)) < Pending(p)
  {
  }

  /** Once the scene is at its end and no first frame is pending, every call fails and it stays at its end. */
  lemma EndIsFinal(p: Playback, firstBlank: u16, lastBlank: u16)
    requires AtEnd(p) && p.doFirst != TODO
    ensures Action(p, firstBlank, lastBlank) == EndOfScene
    ensures AtEnd(Step(p, firstBlank, lastBlank))
    ensures Step(p, firstBlank, lastBlank).doFirst == DONE
  {
  }

  /** The actions once the first frame is settled: the remaining stored frames, a blank last frame if asked for, then the end. */
  function Tail(p: Playback, lastBlank: u16): seq<FrameAction>
    requires p.curFrame <= p.cntFrames
  {
    seq(p.cntFrames - p.curFrame, _ => LoadFrame)
    + (if p.doLast == TODO && lastBlank == BlankOn then [BlankFrame] else [])
    + [EndOfScene]
  }

  /** From a state whose first frame no longer blanks and whose last frame has not started, the calls follow `Tail`. */
  lemma {:induction false} TailRun(p: Playback, firstBlank: u16, lastBlank: u16)
    requires 0 <= p.curFrame <= p.cntFrames
    requires p.doFirst != TODO || firstBlank != BlankOn
    requires p.doLast == NA || p.doLast == TODO
    ensures Actions(p, firstBlank, lastBlank, |Tail(p, lastBlank)|) == Tail(p, lastBlank)
    decreases p.cntFrames - p.curFrame
  {
    var q := Step(p, firstBlank, lastBlank);
    var n := |Tail(p, lastBlank)|;
    if p.curFrame < p.cntFrames {
      assert Action(p, firstBlank, lastBlank) == LoadFrame;
      assert q == Playback(NextDoFirst(p), p.doLast, p.curFrame + 1, p.cntFrames);
      TailRun(q, firstBlank, lastBlank);
      assert Tail(p, lastBlank) == [LoadFrame] + Tail(q, lastBlank);
    } else if p.doLast == TODO && lastBlank == BlankOn {
      assert Action(p, firstBlank, lastBlank) == BlankFrame;
      assert q.doLast == INPROC && q.doFirst != TODO;
      assert Action(q, firstBlank, lastBlank) == EndOfScene;
      assert Actions(p, firstBlank, lastBlank, n) == [BlankFrame] + Actions(q, firstBlank, lastBlank, 1);
    } else {
      assert Action(p, firstBlank, lastBlank) == EndOfScene;
    }
  }

  /** The actions of a freshly created scene: a blank first frame if asked for, then `Tail`. */
  function PlayOrder(p: Playback, firstBlank: u16, lastBlank: u16): seq<FrameAction>
    requires 0 <= p.cntFrames
  {
    (if p.doFirst == TODO && firstBlank == BlankOn then [BlankFrame] else [])
    + Tail(Playback(p.doFirst, p.doLast, 0, p.cntFrames), lastBlank)
  }

  /**
   * A created scene with at least one stored frame plays: the blank first frame
   * (if its delay is set and its blank flag is 1), every stored frame in order,
   * the blank last frame (likewise), and then fails.
   */
  lemma CreatedSceneRun(p: Playback, firstBlank: u16, lastBlank: u16)
    requires p.curFrame == 0 && p.cntFrames > 0
    requires p.doFirst == NA || p.doFirst == TODO
    requires p.doLast == NA || p.doLast == TODO
    ensures Actions(p, firstBlank, lastBlank, |PlayOrder(p, firstBlank, lastBlank)|) == PlayOrder(p, firstBlank, lastBlank)
  {
    if p.doFirst == TODO && firstBlank == BlankOn {
      var q := Step(p, firstBlank, lastBlank);
      assert Action(p, firstBlank, lastBlank) == BlankFrame;
      assert q == Playback(INPROC, p.doLast, 0, p.cntFrames);
      TailRun(q, firstBlank, lastBlank);
      assert Tail(q, lastBlank) == Tail(Playback(p.doFirst, p.doLast, 0, p.cntFrames), lastBlank);
    } else {
      TailRun(p, firstBlank, lastBlank);
    }
  }

  /** Delay of the current frame: the first frame's while it is in progress, else the last frame's while that is, else the normal one. */
  function FrameDelay(b: StoryboardItem, p: Playback): u16
  {
    if p.doFirst == INPROC then b.firstFrameDelay
    else if p.doLast == INPROC then b.lastFrameDelay
    else b.frameDelay
  }

  /** Layer of the current frame: the first frame's while it is in progress, else the last frame's once that has started, else the normal one. */
  function FrameLayer(b: StoryboardItem, p: Playback): u16
  {
    if p.doFirst == INPROC then b.firstFrameLayer
    else if p.doLast == INPROC || p.doLast == DONE then b.lastFrameLayer
    else b.frameLayer
  }

  /**
   * The delay and layer after a call, in terms of the state before it: the first
   * call of a scene with a first frame uses its settings; a call made with every
   * stored frame loaded uses the last frame's layer, and its delay when the last
   * frame was still to do.
   */
  lemma SettingsAfterStep(b: StoryboardItem, p: Playback)
    ensures var q := Step(p, b.firstBlank, b.lastBlank);
      && FrameDelay(b, q) == (
        if p.doFirst == TODO then b.firstFrameDelay
        else if p.curFrame == p.cntFrames && p.doLast == TODO then b.lastFrameDelay
        else if p.curFrame != p.cntFrames && p.doLast == INPROC then b.lastFrameDelay
        else b.frameDelay)
      && FrameLayer(b, q) == (
        if p.doFirst == TODO then b.firstFrameLayer
        else if p.curFrame == p.cntFrames || p.doLast == INPROC || p.doLast == DONE then b.lastFrameLayer
        else b.frameLayer)
  {
  }

  class Scene {
    var firstFrameDelay: u16
    var firstFrameLayer: u16
    var firstBlank: u16
    var frameDelay: u16
    var frameLayer: u16
    var lastFrameDelay: u16
    var lastFrameLayer: u16
    var lastBlank: u16
    var cntFrames: u16
    var curFrame: u16
    var clockStyle: byte
    var doFirst: Special
    var doLast: Special
    var dmpFrame: Dotmap

    /** The frame dotmap is valid and no more frames have been loaded than the scene holds. */
    ghost predicate Valid()
      reads this, dmpFrame
    {
      dmpFrame.Valid() && curFrame <= cntFrames
    }

    /** The storyboard settings held. */
    function Board(): StoryboardItem
      reads this
    {
      StoryboardItem(firstFrameDelay, firstFrameLayer, firstBlank, frameDelay, frameLayer,
                     lastFrameDelay, lastFrameLayer, lastBlank, clockStyle)
    }

    /** The playback state held. */
    function State(): Playback
      reads this
    {
      Playback(doFirst, doLast, curFrame, cntFrames)
    }

    /** An empty scene: no frames, none loaded. */
    constructor ()
      ensures Valid() && fresh(dmpFrame)
      ensures cntFrames == 0 && curFrame == 0
    {
      cntFrames := 0;
      curFrame := 0;
      firstFrameDelay, firstFrameLayer, firstBlank := 0, 0, 0;
      frameDelay, frameLayer := 0, 0;
      lastFrameDelay, lastFrameLayer, lastBlank := 0, 0, 0;
      clockStyle := 0;
      doFirst, doLast := NA, NA;
      dmpFrame := new Dotmap();
    }

    /**
     * Starts a scene of `cntItemDotmap` stored frames. Every storyboard record is
     * read into the same fields, so the last one wins (and with none the settings
     * stay as they were); a special frame is to do exactly when its delay is set.
     */
    method Create(cntItemDotmap: u16, storyboard: seq<StoryboardItem>) returns (ret: bool)
      requires Valid() && |storyboard| < 0x1_0000
      modifies this
      ensures Valid() && ret && dmpFrame == old(dmpFrame)
      ensures Board() == if |storyboard| == 0 then old(Board()) else storyboard[|storyboard| - 1]
      ensures doFirst == (if firstFrameDelay == 0 then NA else TODO)
      ensures doLast == (if lastFrameDelay == 0 then NA else TODO)
      ensures cntFrames == cntItemDotmap && curFrame == 0
    {
      var idxItem := 0;
      while idxItem < |storyboard|
        invariant 0 <= idxItem <= |storyboard|
        invariant dmpFrame == old(dmpFrame) && curFrame == old(curFrame) && cntFrames == old(cntFrames)
        invariant Board() == if idxItem == 0 then old(Board()) else storyboard[idxItem - 1]
      {
        LoadItem(storyboard[idxItem]);
        idxItem := idxItem + 1;
      }
      doFirst := if firstFrameDelay == 0 then NA else TODO;
      doLast := if lastFrameDelay == 0 then NA else TODO;
      cntFrames := cntItemDotmap;
      curFrame := 0;
      ret := true;
    }

    /** One pass of `Create`'s storyboard loop: the item's settings replace the held ones. */
    method LoadItem(item: StoryboardItem)
      modifies this
      ensures Board() == item
      ensures dmpFrame == old(dmpFrame) && State() == old(State())
    {
      firstFrameDelay := item.firstFrameDelay;
      firstFrameLayer := item.firstFrameLayer;
      firstBlank := item.firstBlank;
      frameDelay := item.frameDelay;
      frameLayer := item.frameLayer;
      lastFrameDelay := item.lastFrameDelay;
      lastFrameLayer := item.lastFrameLayer;
      lastBlank := item.lastBlank;
      clockStyle := item.clockStyle;
    }

    /** Whether the scene is over (`AtEnd`). */
    predicate Eof()
      reads this
    {
      curFrame == cntFrames && (doLast == DONE || doLast == NA)
    }

    /**
     * Moves to the next frame: blanks the frame dotmap for a blank first or last
     * frame, loads the next stored frame `stored` into it, or fails at the end of
     * the scene, leaving it as it was.
     */
    method NextFrame(stored: Dotmap) returns (ret: bool)
      requires Valid() && stored.Valid() && stored != dmpFrame
      modifies this, dmpFrame, dmpFrame.dots, dmpFrame.mask
      ensures Valid() && dmpFrame == old(dmpFrame) && Board() == old(Board())
      ensures State() == Step(old(State()), firstBlank, lastBlank)
      ensures ret <==> Action(old(State()), firstBlank, lastBlank) != EndOfScene
      ensures Action(old(State()), firstBlank, lastBlank) == BlankFrame ==>
        && dmpFrame.width == old(dmpFrame.width) && dmpFrame.height == old(dmpFrame.height)
        && forall x, y :: dmpFrame.CheckRange(x, y) ==> dmpFrame.GetDot(x, y) == 0 && dmpFrame.GetMask(x, y) == 0
      ensures Action(old(State()), firstBlank, lastBlank) == LoadFrame ==>
        && dmpFrame.width == stored.width && dmpFrame.height == stored.height
        && (stored.dots.Length < 0x1_0000 ==> forall x, y :: dmpFrame.GetDot(x, y) == stored.GetDot(x, y))
        && (stored.mask.Length < 0x1_0000 ==> forall x, y :: dmpFrame.GetMask(x, y) == stored.GetMask(x, y))
      ensures Action(old(State()), firstBlank, lastBlank) == EndOfScene ==>
        && dmpFrame.width == old(dmpFrame.width) && dmpFrame.height == old(dmpFrame.height)
        && dmpFrame.dots == old(dmpFrame.dots) && dmpFrame.dots[..] == old(dmpFrame.dots[..])
        && dmpFrame.mask == old(dmpFrame.mask) && dmpFrame.mask[..] == old(dmpFrame.mask[..])
    {
      ret := false;
      AdvanceSpecials();

      if doFirst == INPROC && firstBlank == BlankOn {
        ClearFrame();
      } else if curFrame < cntFrames {
        dmpFrame.CopyFrom(stored);
        curFrame := curFrame + 1;
      } else {
        if doLast == INPROC && lastBlank == BlankOn {
          ClearFrame();
        } else {
          return;
        }
      }

      ret := true;
    }

    /** The first part of `NextFrame`: the first frame always advances, the last frame once every stored frame was loaded. */
    method AdvanceSpecials()
      requires Valid()
      modifies this
      ensures Valid() && dmpFrame == old(dmpFrame) && Board() == old(Board())
      ensures State() == old(State()).(doFirst := NextDoFirst(old(State())), doLast := NextDoLast(old(State())))
    {
      if doFirst == TODO {
        doFirst := INPROC;
      } else {
        doFirst := DONE;
      }

      // Last frame?
      if curFrame == cntFrames {
        if doLast == TODO {
          doLast := INPROC;
        } else {
          doLast := DONE;
        }
      }
    }

    /** Blanks the frame: every dot and mask bit of `dmpFrame` cleared, its size kept. */
    method ClearFrame()
      requires Valid()
      modifies dmpFrame.dots, dmpFrame.mask
      ensures Valid()
      ensures forall x, y :: dmpFrame.CheckRange(x, y) ==> dmpFrame.GetDot(x, y) == 0 && dmpFrame.GetMask(x, y) == 0
    {
      dmpFrame.ClearDots();
      dmpFrame.ClearMask();
    }

    /** Delay of the current frame (`FrameDelay`). */
    function GetFrameDelay(): (d: u16)
      reads this
      ensures doFirst == INPROC ==> d == firstFrameDelay
      ensures doFirst != INPROC && doLast == INPROC ==> d == lastFrameDelay
    {
      FrameDelay(Board(), State())
    }

    /** Layer of the current frame (`FrameLayer`). */
    function GetFrameLayer(): (l: u16)
      reads this
      ensures doFirst == INPROC ==> l == firstFrameLayer
      ensures doFirst != INPROC && doLast in {INPROC, DONE} ==> l == lastFrameLayer
    {
      FrameLayer(Board(), State())
    }

    /** The clock style of the storyboard. */
    function GetClockStyle(): (c: byte)
      reads this
      ensures c == Board().clockStyle
    {
      clockStyle
    }
  }
}
