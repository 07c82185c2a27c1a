/**
 * How the room's inbound socket events fold into store actions
 * (src/hooks/useSocket.ts and the two handlers of src/components/Canvas.tsx).
 * A received stroke is added with its author replaced by the sender; a
 * cursor move stores the position with the sender's derived colour; a
 * "user left" notice overwrites the cursor with zeros rather than removing it.
 */
module Inbound {
  import opened Wrappers
  import opened Board
  import UserColor

  datatype Event =
    | StrokeReceived(userId: string, stroke: Stroke)
    | CursorMoved(userId: string, x: real, y: real, name: Option<string>)
    | UserLeft(userId: string)

  /** `{ ...stroke, userId }`: the stroke with only its author replaced. */
  function FromSender(sender: string, s: Stroke): (r: Stroke)
    ensures r.userId == sender
    ensures r.id == s.id && r.points == s.points && r.color == s.color && r.width == s.width
  {
    s.(userId := sender)
  }

  /** `{ x, y, color: getUserColor(userId), name }`. */
  function MovedCursor(userId: string, x: real, y: real, name: Option<string>): (c: Cursor)
    ensures c.x == x && c.y == y && c.name == name
    ensures UserColor.IsColor(c.color) && c.color == UserColor.UserColor(userId)
  {
    Cursor(x, y, UserColor.UserColor(userId), name)
  }

  /** `{ x: 0, y: 0, color: '', name: '' }`, the cursor of a participant who left. */
  const LeftCursor: Cursor := Cursor(0.0, 0.0, "", Some(""))

  /**
   * The store action each event becomes: a received stroke is added under the
   * sender's id, and every other event only sets the sender's cursor, so no
   * event ever changes the tool, the history position, or clears the board.
   */
  function ActionOf(e: Event): (r: Action)
    ensures r.AddStrokeAction? || r.UpdateCursorAction?
    ensures r.AddStrokeAction? <==> e.StrokeReceived?
    ensures r.AddStrokeAction? ==> r.stroke.userId == e.userId && r.stroke.points == e.stroke.points
    ensures e.StrokeReceived? ==> r.stroke == FromSender(e.userId, e.stroke)
    ensures r.UpdateCursorAction? ==> r.userId == e.userId
    ensures e.CursorMoved? ==> (r.UpdateCursorAction? && r.cursor.x == e.x && r.cursor.y == e.y
      && r.cursor.name == e.name && UserColor.IsColor(r.cursor.color))
    ensures e.CursorMoved? ==> r.cursor == MovedCursor(e.userId, e.x, e.y, e.name)
    ensures e.UserLeft? ==> r.UpdateCursorAction? && r.cursor == LeftCursor
  {
    match e
    case StrokeReceived(u, s) => AddStrokeAction(FromSender(u, s))
    case CursorMoved(u, x, y, name) => UpdateCursorAction(u, MovedCursor(u, x, y, name))
    case UserLeft(u) => UpdateCursorAction(u, LeftCursor)
  }

  /** The store after one inbound event. */
  function Fold(b: State, e: Event): (r: State)
    requires Valid(b)
    ensures Valid(r)
    ensures e.StrokeReceived? ==>
      r.strokes == b.strokes + [FromSender(e.userId, e.stroke)] && r.cursors == b.cursors
    ensures !e.StrokeReceived? ==> SameDrawing(b, r) && r.cursors.Keys == b.cursors.Keys + {e.userId}
    ensures e.StrokeReceived? ==> r == AddStroke(b, FromSender(e.userId, e.stroke))
    ensures e.CursorMoved? ==> r == UpdateCursor(b, e.userId, MovedCursor(e.userId, e.x, e.y, e.name))
    ensures e.UserLeft? ==> r == UpdateCursor(b, e.userId, LeftCursor)
    ensures e.CursorMoved? ==> r.cursors[e.userId].color == UserColor.UserColor(e.userId)
    ensures e.UserLeft? ==> r.cursors[e.userId] == LeftCursor
    ensures forall k :: k in b.cursors && k != e.userId ==> r.cursors[k] == b.cursors[k]
  {
    Apply(b, ActionOf(e))
  }

  /** The store after a sequence of inbound events, in arrival order. */
  function FoldAll(b: State, events: seq<Event>): (r: State)
    requires Valid(b)
    ensures Valid(r)
    ensures r.selectedColor == b.selectedColor && r.selectedWidth == b.selectedWidth
    decreases |events|
  {
    if events == [] then b else FoldAll(Fold(b, events[0]), events[1..])
  }

  /** Folding events is running their store actions. */
  lemma {:induction false} FoldAllIsRun(b: State, events: seq<Event>)
    requires Valid(b)
    ensures FoldAll(b, events) == Run(b, seq(|events|, i requires 0 <= i < |events| => ActionOf(events[i])))
    decreases |events|
  {
    var actions := seq(|events|, i requires 0 <= i < |events| => ActionOf(events[i]));
    if events != [] {
      FoldAllIsRun(Fold(b, events[0]), events[1..]);
      assert actions[1..] == seq(|events[1..]|, i requires 0 <= i < |events[1..]| => ActionOf(events[1..][i]));
    }
  }

  /** No de-duplication on ingest: a stroke that arrives twice is on the board twice. */
  lemma DuplicateDelivery(b: State, u: string, s: Stroke)
    requires Valid(b)
    ensures FoldAll(b, [StrokeReceived(u, s), StrokeReceived(u, s)]).strokes
            == b.strokes + [FromSender(u, s), FromSender(u, s)]
  {
    var b1 := Fold(b, StrokeReceived(u, s));
    assert [StrokeReceived(u, s), StrokeReceived(u, s)][1..] == [StrokeReceived(u, s)];
    assert FoldAll(b1, [StrokeReceived(u, s)]) == Fold(b1, StrokeReceived(u, s));
  }

  /**
   * A cursor update then a "user left" for the same user: the key stays in
   * the map, holding the zeroed cursor.
   */
  lemma LeaveAfterMoveKeepsKey(b: State, u: string, x: real, y: real, name: Option<string>)
    requires Valid(b)
    ensures u in Fold(Fold(b, CursorMoved(u, x, y, name)), UserLeft(u)).cursors
    ensures Fold(Fold(b, CursorMoved(u, x, y, name)), UserLeft(u)).cursors == b.cursors[u := LeftCursor]
  {
  }
}
