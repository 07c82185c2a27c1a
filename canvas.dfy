/**
 * The canvas component's stroke capture and its two socket handlers
 * (src/components/Canvas.tsx).  Capture keeps two refs, `isDrawingRef` and
 * `currentStrokeRef`; pointer-down (and touch-start) runs startDrawing,
 * pointer-move (touch-move) runs draw, and pointer-up, pointer-leave and
 * touch-end run stopDrawing.  The pure functions Begin, Extend and Finish
 * give the capture as a value; the class StrokeCapture holds the refs and
 * is proved to follow them.
 */
module Canvas {
  import opened Wrappers
  import opened Board
  import Inbound
  import UserColor
  import WhiteboardStore

  /** The two refs as a value: the flag and, when not null, the captured path. */
  datatype Gesture = Gesture(isDrawing: bool, current: Option<seq<Point>>)

  const Idle: Gesture := Gesture(false, None)

  /** The source's guard for draw and stopDrawing: drawing, and a path exists. */
  predicate Active(g: Gesture) {
    g.isDrawing && g.current.Some?
  }

  /** The states the handlers reach from Idle: a path exactly while drawing, never empty. */
  predicate WellFormed(g: Gesture) {
    g.isDrawing == g.current.Some? && (g.current.Some? ==> |g.current.value| > 0)
  }

  /** startDrawing: always starts afresh with the one point, even mid-gesture. */
  function Begin(g: Gesture, p: Point): (r: Gesture)
    ensures Active(r) && WellFormed(r) && r.current.value == [p]
  {
    Gesture(true, Some([p]))
  }

  /** draw: appends the point to the path; nothing happens outside a gesture. */
  function Extend(g: Gesture, p: Point): (r: Gesture)
    ensures !Active(g) ==> r == g
    ensures Active(g) ==> Active(r) && r.current.value == g.current.value + [p]
    ensures WellFormed(g) ==> WellFormed(r)
  {
    if !g.isDrawing || g.current.None? then g else Gesture(g.isDrawing, Some(g.current.value + [p]))
  }

  /**
   * stopDrawing: the captured path becomes a stroke with the fresh id, the
   * selected tool and the socket's id, and capture returns to Idle; outside a
   * gesture it does nothing and emits nothing.  `socket` is the socket prop:
   * None is the null socket the canvas sees before its room re-renders, for
   * which reading `socket.id` throws before the stroke is added or the refs
   * are reset, so nothing changes and the gesture goes on.
   */
  function Finish(g: Gesture, color: string, width: real, socket: Option<string>, freshId: string): (r: (Gesture, Option<Stroke>))
    ensures !Active(g) || socket.None? ==> r == (g, None)
    ensures Active(g) && socket.Some? ==> r.0 == Idle && r.1.Some?
    ensures r.1.Some? ==>
      (socket.Some? && r.1.value.id == freshId && r.1.value.points == g.current.value &&
       r.1.value.color == color && r.1.value.width == width && r.1.value.userId == socket.value)
    ensures WellFormed(g) ==> WellFormed(r.0) && (r.1.Some? ==> HasPoints(r.1.value))
    ensures socket.Some? ==> !Active(r.0)
  {
    if !g.isDrawing || g.current.None? then
      (g, None)
    else if socket.None? then
      (g, None)
    else
      (Idle, Some(Stroke(freshId, g.current.value, color, width, socket.value)))
  }

  /** The pointer and touch events the canvas listens to. */
  datatype PointerEvent =
    | Down(p: Point)
    | Move(p: Point)
    | Up(freshId: string)
    | Leave(freshId: string)

  /** One event: capture, and the store's addStroke when a stroke is finished. */
  function Handle(g: Gesture, b: State, socket: Option<string>, e: PointerEvent): (r: (Gesture, State, Option<Stroke>))
    requires Valid(b)
    ensures Valid(r.1)
    ensures r.2.None? ==> r.1 == b
    ensures r.2.Some? ==> r.1 == AddStroke(b, r.2.value)
  {
    match e
    case Down(p) => (Begin(g, p), b, None)
    case Move(p) => (Extend(g, p), b, None)
    case _ =>
      var (g', emitted) := Finish(g, b.selectedColor, b.selectedWidth, socket, e.freshId);
      (g', if emitted.Some? then AddStroke(b, emitted.value) else b, emitted)
  }

  /**
   * A run of pointer events from a reachable capture state: the store gains
   * exactly the emitted strokes, in order, and every one of them has a point.
   */
  function Session(g: Gesture, b: State, socket: Option<string>, events: seq<PointerEvent>): (r: (Gesture, State, seq<Stroke>))
    requires Valid(b) && WellFormed(g)
    ensures Valid(r.1) && WellFormed(r.0)
    ensures r.1.strokes == b.strokes + r.2
    ensures forall i :: 0 <= i < |r.2| ==> HasPoints(r.2[i])
    ensures |r.2| <= |events|
    decreases |events|
  {
    if events == [] then
      (g, b, [])
    else
      var (g1, b1, emitted) := Handle(g, b, socket, events[0]);
      var (g2, b2, rest) := Session(g1, b1, socket, events[1..]);
      var out := (if emitted.Some? then [emitted.value] else []) + rest;
      assert b2.strokes == b.strokes + out by {
        if emitted.Some? {
          assert b1.strokes == b.strokes + [emitted.value];
        }
      }
      (g2, b2, out)
  }

  /**
   * Pointer-up followed by pointer-leave runs stopDrawing twice: the gesture
   * yields one stroke, with the path captured, and the second call emits
   * nothing.
   */
  lemma UpThenLeaveEmitsOnce(g: Gesture, b: State, socketId: string, id1: string, id2: string)
    requires Valid(b) && WellFormed(g) && g.isDrawing
    ensures |Session(g, b, Some(socketId), [Up(id1), Leave(id2)]).2| == 1
    ensures Session(g, b, Some(socketId), [Up(id1), Leave(id2)]).2[0].points == g.current.value
  {
    var (g1, b1, e1) := Handle(g, b, Some(socketId), Up(id1));
    var (g2, b2, e2) := Handle(g1, b1, Some(socketId), Leave(id2));
    assert e2.None?;
    assert [Up(id1), Leave(id2)][1..] == [Leave(id2)];
    assert [Leave(id2)][1..] == [];
  }

  /** Outside a gesture, moves and releases leave both the capture and the store alone. */
  lemma {:induction false} IdleIgnoresMovesAndReleases(b: State, socket: Option<string>, events: seq<PointerEvent>)
    requires Valid(b)
    requires forall i :: 0 <= i < |events| ==> !events[i].Down?
    ensures Session(Idle, b, socket, events) == (Idle, b, [])
    decreases |events|
  {
    if events != [] {
      IdleIgnoresMovesAndReleases(b, socket, events[1..]);
    }
  }

  /**
   * With the null socket no release gets past `socket.id`: the store is never
   * touched, nothing is emitted, and a gesture once started stays open, so
   * later moves keep extending its path.
   */
  lemma {:induction false} NullSocketAddsNothing(g: Gesture, b: State, events: seq<PointerEvent>)
    requires Valid(b) && WellFormed(g)
    ensures Session(g, b, None, events).1 == b && Session(g, b, None, events).2 == []
    ensures g.isDrawing ==> Session(g, b, None, events).0.isDrawing
    decreases |events|
  {
    if events != [] {
      var (g1, b1, e1) := Handle(g, b, None, events[0]);
      assert b1 == b && e1.None?;
      NullSocketAddsNothing(g1, b, events[1..]);
    }
  }

  /** isDrawingRef and currentStrokeRef of one mounted canvas. */
  class StrokeCapture {
    var isDrawing: bool
    var current: Option<seq<Point>>

    function Model(): Gesture
      reads this
    {
      Gesture(isDrawing, current)
    }

    constructor ()
      ensures Model() == Idle
    {
      isDrawing := false;
      current := None;
    }

    method StartDrawing(p: Point)
      modifies this
      ensures Model() == Begin(old(Model()), p)
      ensures isDrawing && current == Some([p])
    {
      isDrawing := true;
      current := Some([p]);
    }

    method Draw(p: Point)
      modifies this
      ensures Model() == Extend(old(Model()), p)
      ensures old(!isDrawing || current.None?) ==> isDrawing == old(isDrawing) && current == old(current)
      ensures old(isDrawing && current.Some?) ==> isDrawing && current == Some(old(current.value) + [p])
    {
      if !isDrawing || current.None? {
        return;
      }
      current := Some(current.value + [p]);
    }

    /** Returns the stroke that is added to the store and emitted to the room, if any. */
    method StopDrawing(store: WhiteboardStore.Store, socket: Option<string>, freshId: string) returns (emitted: Option<Stroke>)
      requires store.Valid()
      modifies this, store
      ensures store.Valid()
      ensures (Model(), emitted) == Finish(old(Model()), old(store.selectedColor), old(store.selectedWidth), socket, freshId)
      ensures emitted.None? ==> store.Model() == old(store.Model())
      ensures emitted.Some? ==> store.Model() == AddStroke(old(store.Model()), emitted.value)
      ensures old(WellFormed(Model())) ==> WellFormed(Model()) && (emitted.Some? ==> HasPoints(emitted.value))
    {
      if !isDrawing || current.None? {
        return None;
      }
      if socket.None? {
        // `socket.id` throws: the handler ends before addStroke and the reset
        return None;
      }
      var stroke := Stroke(freshId, current.value, store.selectedColor, store.selectedWidth, socket.value);
      store.AddStroke(stroke);
      isDrawing := false;
      current := None;
      emitted := Some(stroke);
    }
  }

  /** handleStroke: the received stroke, authored by the sender, is added. */
  method HandleStroke(store: WhiteboardStore.Store, userId: string, stroke: Stroke)
    requires store.Valid()
    modifies store
    ensures store.Valid()
    ensures store.Model() == Inbound.Fold(old(store.Model()), Inbound.StrokeReceived(userId, stroke))
  {
    store.AddStroke(stroke.(userId := userId));
  }

  /** handleCursorMove: the sender's cursor, with its derived colour. */
  method HandleCursorMove(store: WhiteboardStore.Store, userId: string, x: real, y: real, name: Option<string>)
    requires store.Valid()
    modifies store
    ensures store.Valid()
    ensures store.Model() == Inbound.Fold(old(store.Model()), Inbound.CursorMoved(userId, x, y, name))
  {
    var color := UserColor.GetUserColor(userId);
    store.UpdateCursor(userId, Cursor(x, y, color, name));
  }
}
