/**
 * The playback marker: a cursor over a route's coordinates advanced once per
 * animation frame. Frames are explicit here: the browser's queue of
 * requested frames is the set `pending` of frame handles, and the browser
 * running the requested frame is a call of `Tick`.
 */
module RouteAnimator {
  import opened Wrappers
  import opened Trip

  /** Coordinates advanced per frame (`speed`). */
  const Speed: nat := 1

  /** The position the marker starts at: the first coordinate, or none for an absent or empty list. */
  function InitialPosition(routeCoordinates: Option<seq<Point>>): (p: Option<Point>)
    ensures p.Some? <==> routeCoordinates.Some? && |routeCoordinates.value| > 0
    ensures p.Some? ==> p.value == routeCoordinates.value[0]
  {
    if routeCoordinates.Some? && |routeCoordinates.value| > 0 then Some(routeCoordinates.value[0]) else None
  }

  /** The effect starts a loop only when playing with a non-empty coordinate list. */
  predicate Plays(isPlaying: bool, routeCoordinates: Option<seq<Point>>) {
    isPlaying && routeCoordinates.Some? && |routeCoordinates.value| > 0
  }

  /** What one run of the `animate` callback does: the index it reaches, the position it sets, and whether it stopped. */
  datatype Step = Step(index: nat, position: Point, done: bool)

  /** One frame from cursor `index`: advance, then show that coordinate or snap to the last and stop. */
  function Advance(index: nat, coords: seq<Point>): (s: Step)
    requires |coords| > 0
    ensures s.position in coords
    ensures s.done <==> s.index >= |coords|
    ensures s.index == index + Speed
  {
    var next := index + Speed;
    if next < |coords| then Step(next, coords[next], false)
    else Step(next, coords[|coords| - 1], true)
  }

  /** The frames a loop started at cursor `index` runs, up to and including the one that stops it. */
  function Trace(index: nat, coords: seq<Point>): seq<Step>
    requires |coords| > 0
    decreases |coords| - index
  {
    var s := Advance(index, coords);
    if s.done then [s] else [s] + Trace(s.index, coords)
  }

  /**
   * A loop started at cursor `index` runs `|coords| - index` frames (one frame
   * when the cursor is already at or past the end); frame k reaches cursor
   * `index + k + 1`; only the last frame stops, and it shows the last coordinate.
   */
  lemma {:induction false} TraceShape(index: nat, coords: seq<Point>)
    requires |coords| > 0
    ensures |Trace(index, coords)| == if index < |coords| then |coords| - index else 1
    ensures forall k :: 0 <= k < |Trace(index, coords)| ==>
      && Trace(index, coords)[k].index == index + k + 1
      && (Trace(index, coords)[k].done <==> k == |Trace(index, coords)| - 1)
    ensures Trace(index, coords)[|Trace(index, coords)| - 1].position == coords[|coords| - 1]
    decreases |coords| - index
  {
    var s := Advance(index, coords);
    if !s.done {
      TraceShape(s.index, coords);
      var t := Trace(index, coords);
      assert t == [s] + Trace(s.index, coords);
      forall k | 0 <= k < |t|
        ensures t[k].index == index + k + 1 && (t[k].done <==> k == |t| - 1)
      {
        if k > 0 {
          assert t[k] == Trace(s.index, coords)[k - 1];
        }
      }
    }
  }

  /** Every position a loop shows is a coordinate of the route: the one at its cursor, or the last. */
  lemma {:induction false} TracePositions(index: nat, coords: seq<Point>)
    requires |coords| > 0
    ensures forall k :: 0 <= k < |Trace(index, coords)| ==>
      && Trace(index, coords)[k].position in coords
      && (!Trace(index, coords)[k].done ==>
          Trace(index, coords)[k].index < |coords| &&
          Trace(index, coords)[k].position == coords[Trace(index, coords)[k].index])
    decreases |coords| - index
  {
    var s := Advance(index, coords);
    if !s.done {
      TracePositions(s.index, coords);
      var t := Trace(index, coords);
      assert t == [s] + Trace(s.index, coords);
      forall k | 0 <= k < |t|
        ensures t[k].position in coords && (!t[k].done ==> t[k].index < |coords| && t[k].position == coords[t[k].index])
      {
        if k > 0 {
          assert t[k] == Trace(s.index, coords)[k - 1];
        }
      }
    }
  }

  /** The marker component: its state, its refs, and the browser's queue of requested frames. */
  class Animator {
    /** The `position` state; `None` renders no marker. */
    var position: Option<Point>
    /** `indexRef.current`: set to 0 at mount and never reset. */
    var index: nat
    /** `requestRef.current`: the handle of the frame last requested, `None` while undefined. */
    var requestRef: Option<nat>
    /** Handles of the frames the browser will still run. */
    var pending: set<nat>
    /** The handle the browser gives the next requested frame. */
    var nextHandle: nat
    /** How many times `onAnimationEnd` was called. */
    var endCount: nat
    /** The `routeCoordinates` the running loop's `animate` closure captured. */
    var loopCoords: seq<Point>
    /** Whether that closure captured an `onAnimationEnd`. */
    var notify: bool
    /** The mounted effect returned its cleanup function. */
    var cleanup: bool

    /** At most one frame is pending: the one `requestRef` names, of a loop over a non-empty list. */
    ghost predicate Valid()
      reads this
    {
      pending != {} ==> requestRef.Some? && pending == {requestRef.value} && cleanup && |loopCoords| > 0
    }

    /** Each schedule overwrites `requestRef` and every cancel names it, so no two frames are ever pending. */
    lemma AtMostOnePending()
      requires Valid()
      ensures |pending| <= 1
      ensures pending != {} ==> requestRef.Some? && requestRef.value in pending
    {
    }

    /** What is drawn: a marker at `position`, or nothing. */
    function Rendered(): (m: Option<Point>)
      reads this
    {
      position
    }

    /** Mounting with the first props: the position comes from them, the cursor is 0. */
    constructor (routeCoordinates: Option<seq<Point>>)
      ensures Valid()
      ensures position == InitialPosition(routeCoordinates)
      ensures index == 0 && requestRef == None && pending == {} && endCount == 0 && !cleanup
    {
      position := InitialPosition(routeCoordinates);
      index := 0;
      requestRef := None;
      pending := {};
      nextHandle := 1;
      endCount := 0;
      loopCoords := [];
      notify := false;
      cleanup := false;
    }

    /** `requestAnimationFrame`: queue a frame under a new handle. */
    method RequestFrame() returns (h: nat)
      modifies this`pending, this`nextHandle
      ensures h == old(nextHandle) && nextHandle == h + 1
      ensures pending == old(pending) + {h}
    {
      h := nextHandle;
      nextHandle := nextHandle + 1;
      pending := pending + {h};
    }

    /** `cancelAnimationFrame`: drop the frame `h` from the queue; an undefined or spent handle changes nothing. */
    method CancelFrame(h: Option<nat>)
      modifies this`pending
      ensures pending == if h.Some? then old(pending) - {h.value} else old(pending)
    {
      if h.Some? {
        pending := pending - {h.value};
      }
    }

    /**
     * The effect body, run after the previous run's cleanup (React runs a
     * registered cleanup before running the effect again).
     */
    method Effect(isPlaying: bool, routeCoordinates: Option<seq<Point>>, hasCallback: bool)
      requires Valid() && !cleanup
      modifies this
      ensures Valid()
      ensures position == old(position) && index == old(index) && endCount == old(endCount)
      ensures !Plays(isPlaying, routeCoordinates) ==>
        && pending == {} && !cleanup
        && requestRef == old(requestRef) && nextHandle == old(nextHandle)
        && loopCoords == old(loopCoords) && notify == old(notify)
      ensures Plays(isPlaying, routeCoordinates) ==>
        && pending == {old(nextHandle)} && requestRef == Some(old(nextHandle))
        && nextHandle == old(nextHandle) + 1
        && loopCoords == routeCoordinates.value && notify == hasCallback && cleanup
    {
      if !Plays(isPlaying, routeCoordinates) {
        CancelFrame(requestRef);
        return;
      }
      loopCoords := routeCoordinates.value;
      notify := hasCallback;
      var h := RequestFrame();
      requestRef := Some(h);
      cleanup := true;
    }

    /** The cleanup the effect returned; React calls it on unmount and before re-running the effect. */
    method Cleanup()
      requires Valid()
      modifies this
      ensures Valid() && pending == {} && !cleanup
      ensures position == old(position) && index == old(index) && endCount == old(endCount)
      ensures requestRef == old(requestRef) && nextHandle == old(nextHandle)
      ensures loopCoords == old(loopCoords) && notify == old(notify)
    {
      if cleanup {
        CancelFrame(requestRef);
        cleanup := false;
      }
    }

    /** The browser runs the pending frame, if there is one: one call of `animate`. */
    method Tick() returns (ran: bool)
      requires Valid()
      modifies this
      ensures Valid()
      ensures ran == (old(pending) != {})
      ensures !ran ==> unchanged(this)
      ensures loopCoords == old(loopCoords) && notify == old(notify) && cleanup == old(cleanup)
      ensures ran ==> |loopCoords| > 0
      ensures ran ==>
        var s := Advance(old(index), loopCoords);
        && index == s.index && position == Some(s.position)
        && (s.done ==> pending == {} && nextHandle == old(nextHandle)
                       && endCount == old(endCount) + (if notify then 1 else 0))
        && (!s.done ==> pending == {old(nextHandle)} && requestRef == Some(old(nextHandle))
                        && nextHandle == old(nextHandle) + 1 && endCount == old(endCount))
    {
      if pending == {} {
        ran := false;
        return;
      }
      ran := true;
      pending := pending - {requestRef.value};
      index := index + Speed;
      if index < |loopCoords| {
        position := Some(loopCoords[index]);
        var h := RequestFrame();
        requestRef := Some(h);
      } else {
        position := Some(loopCoords[|loopCoords| - 1]);
        CancelFrame(requestRef);
        if notify {
          endCount := endCount + 1;
        }
      }
    }

    /** The browser keeps running frames until none is pending; `steps` records what each frame did. */
    method RunFrames() returns (steps: seq<Step>)
      requires Valid()
      modifies this
      ensures Valid() && pending == {}
      ensures loopCoords == old(loopCoords) && notify == old(notify) && cleanup == old(cleanup)
      ensures old(pending) == {} ==> steps == [] && unchanged(this)
      ensures old(pending) != {} ==>
        && |loopCoords| > 0
        && steps == Trace(old(index), loopCoords)
        && index == old(index) + |steps|
        && position == Some(loopCoords[|loopCoords| - 1])
        && endCount == old(endCount) + (if notify then 1 else 0)
    {
      steps := [];
      if pending == {} {
        return;
      }
      ghost var start := index;
      while pending != {}
        invariant Valid()
        invariant loopCoords == old(loopCoords) && notify == old(notify) && cleanup == old(cleanup)
        invariant |loopCoords| > 0
        invariant index == start + |steps|
        invariant pending != {} ==>
          steps + Trace(index, loopCoords) == Trace(start, loopCoords) && endCount == old(endCount)
        invariant pending == {} ==>
          && steps == Trace(start, loopCoords)
          && position == Some(loopCoords[|loopCoords| - 1])
          && endCount == old(endCount) + (if notify then 1 else 0)
        decreases (if pending == {} then 0 else 1) + (if index < |loopCoords| then |loopCoords| - index else 0)
      {
        ghost var before := index;
        var _ := Tick();
        var s := Step(index, position.value, pending == {});
        assert s == Advance(before, loopCoords);
        if pending == {} {
          assert Trace(before, loopCoords) == [s];
        } else {
          assert Trace(before, loopCoords) == [s] + Trace(index, loopCoords);
        }
        steps := steps + [s];
      }
    }
  }

  /** From mount, playing N >= 1 coordinates runs exactly N frames, ends on the last one and notifies once. */
  method PlayFromMount(coords: seq<Point>, hasCallback: bool) returns (frames: nat, ends: nat, last: Option<Point>)
    requires |coords| > 0
    ensures frames == |coords|
    ensures ends == (if hasCallback then 1 else 0)
    ensures last == Some(coords[|coords| - 1])
  {
    var a := new Animator(Some(coords));
    a.Effect(true, Some(coords), hasCallback);
    var steps := a.RunFrames();
    TraceShape(0, coords);
    frames := |steps|;
    ends := a.endCount;
    last := a.Rendered();
  }

  /**
   * Playing again after the end (the parent stops playback on the end
   * notification, then the user presses play): the cursor was not reset, so
   * the first frame already stops, and the end is notified a second time.
   */
  method ReplayAfterEnd(coords: seq<Point>) returns (secondFrames: nat, ends: nat, last: Option<Point>)
    requires |coords| > 0
    ensures secondFrames == 1
    ensures ends == 2
    ensures last == Some(coords[|coords| - 1])
  {
    var a := new Animator(Some(coords));
    a.Effect(true, Some(coords), true);
    var first := a.RunFrames();
    TraceShape(0, coords);
    a.Cleanup();
    a.Effect(false, Some(coords), true);
    a.Cleanup();
    a.Effect(true, Some(coords), true);
    var second := a.RunFrames();
    TraceShape(|coords|, coords);
    secondFrames := |second|;
    ends := a.endCount;
    last := a.Rendered();
  }

  /**
   * Switching to another route while a loop runs leaves exactly one frame
   * pending, and the cursor carries on from where the first loop left it.
   */
  method SwitchRouteMidway(first: seq<Point>, second: seq<Point>) returns (pendingFrames: nat, cursor: nat)
    requires |first| > 1 && |second| > 0
    ensures pendingFrames == 1
    ensures cursor == 1
  {
    var a := new Animator(Some(first));
    a.Effect(true, Some(first), true);
    var _ := a.Tick();
    a.Cleanup();
    a.Effect(true, Some(second), true);
    pendingFrames := |a.pending|;
    cursor := a.index;
  }

  /** Stopping playback or an empty route never starts a loop and leaves the marker where it was. */
  method StoppedOrEmptyIsIdle(routeCoordinates: Option<seq<Point>>, isPlaying: bool) returns (frames: nat, shown: Option<Point>)
    requires !isPlaying || routeCoordinates.None? || routeCoordinates.value == []
    ensures frames == 0
    ensures shown == InitialPosition(routeCoordinates)
  {
    var a := new Animator(routeCoordinates);
    a.Effect(isPlaying, routeCoordinates, true);
    var steps := a.RunFrames();
    frames := |steps|;
    shown := a.Rendered();
  }
}
