/**
 * The whiteboard store's state as a value, and each store action as a function
 * from the old state to the new one (src/stores/whiteboardStore.ts).  The class
 * in module WhiteboardStore updates its fields in place and is proved to follow
 * these functions; the lemmas here are the properties of the undo/redo history.
 */
module Board {
  import opened Wrappers

  datatype Point = Point(x: real, y: real)

  datatype Stroke = Stroke(id: string, points: seq<Point>, color: string, width: real, userId: string)

  /** A remote participant's pointer; `name` is optional in the source. */
  datatype Cursor = Cursor(x: real, y: real, color: string, name: Option<string>)

  datatype State = State(
    strokes: seq<Stroke>,
    cursors: map<string, Cursor>,
    selectedColor: string,
    selectedWidth: real,
    history: seq<seq<Stroke>>,
    historyIndex: int)

  const InitialColor: string := "#000000"
  const InitialWidth: real := 3.0

  /** The history invariant: the index points into the history, at the live strokes. */
  predicate Valid(b: State) {
    0 <= b.historyIndex < |b.history| && b.history[b.historyIndex] == b.strokes
  }

  /** Nothing is left to redo. */
  predicate AtNewest(b: State) {
    b.historyIndex == |b.history| - 1
  }

  /** The fields that only updateCursor and setTool touch are those of `b`. */
  predicate SameCursorsAndTool(b: State, r: State) {
    r.cursors == b.cursors && r.selectedColor == b.selectedColor && r.selectedWidth == b.selectedWidth
  }

  /** The drawing fields (strokes and history) are those of `b`. */
  predicate SameDrawing(b: State, r: State) {
    r.strokes == b.strokes && r.history == b.history && r.historyIndex == b.historyIndex
  }

  /** The state a freshly created store starts in. */
  function Initial(): (b: State)
    ensures Valid(b) && AtNewest(b) && b.historyIndex == 0
    ensures b.strokes == [] && b.cursors == map[]
    ensures b.selectedColor == "#000000" && b.selectedWidth == 3.0
  {
    State([], map[], InitialColor, InitialWidth, [[]], 0)
  }

  function AddStroke(b: State, s: Stroke): (r: State)
    requires Valid(b)
    ensures Valid(r) && AtNewest(r)
    ensures |r.strokes| == |b.strokes| + 1 && r.strokes[..|b.strokes|] == b.strokes && r.strokes[|b.strokes|] == s
    ensures r.historyIndex == b.historyIndex + 1
    ensures r.history[..r.historyIndex] == b.history[..b.historyIndex + 1]
    ensures SameCursorsAndTool(b, r)
  {
    var strokes := b.strokes + [s];
    assert strokes[..|b.strokes|] == b.strokes;
    b.(strokes := strokes,
       history := b.history[..b.historyIndex + 1] + [strokes],
       historyIndex := b.historyIndex + 1)
  }

  function UpdateCursor(b: State, userId: string, c: Cursor): (r: State)
    ensures userId in r.cursors && r.cursors[userId] == c
    ensures r.cursors.Keys == b.cursors.Keys + {userId}
    ensures forall k :: k in b.cursors && k != userId ==> r.cursors[k] == b.cursors[k]
    ensures SameDrawing(b, r) && r.selectedColor == b.selectedColor && r.selectedWidth == b.selectedWidth
    ensures Valid(b) ==> Valid(r)
  {
    b.(cursors := b.cursors[userId := c])
  }

  function SetTool(b: State, color: string, width: real): (r: State)
    ensures r.selectedColor == color && r.selectedWidth == width
    ensures SameDrawing(b, r) && r.cursors == b.cursors
    ensures Valid(b) ==> Valid(r)
  {
    b.(selectedColor := color, selectedWidth := width)
  }

  function Undo(b: State): (r: State)
    requires Valid(b)
    ensures Valid(r) && r.history == b.history && SameCursorsAndTool(b, r)
    ensures b.historyIndex == 0 ==> r == b
    ensures b.historyIndex > 0 ==> r.historyIndex == b.historyIndex - 1
  {
    if b.historyIndex > 0 then
      b.(strokes := b.history[b.historyIndex - 1], historyIndex := b.historyIndex - 1)
    else
      b
  }

  function Redo(b: State): (r: State)
    requires Valid(b)
    ensures Valid(r) && r.history == b.history && SameCursorsAndTool(b, r)
    ensures AtNewest(b) ==> r == b
    ensures !AtNewest(b) ==> r.historyIndex == b.historyIndex + 1
  {
    if b.historyIndex < |b.history| - 1 then
      b.(strokes := b.history[b.historyIndex + 1], historyIndex := b.historyIndex + 1)
    else
      b
  }

  function Clear(b: State): (r: State)
    ensures Valid(r) && r.strokes == [] && r.history == [[]] && r.historyIndex == 0
    ensures SameCursorsAndTool(b, r)
  {
    b.(strokes := [], history := [[]], historyIndex := 0)
  }

  /** Every action of the store, so that arbitrary sequences of them can be stated. */
  datatype Action =
    | AddStrokeAction(stroke: Stroke)
    | UpdateCursorAction(userId: string, cursor: Cursor)
    | SetToolAction(color: string, width: real)
    | UndoAction
    | RedoAction
    | ClearAction

  function Apply(b: State, a: Action): (r: State)
    requires Valid(b)
    ensures Valid(r)
  {
    match a
    case AddStrokeAction(s) => AddStroke(b, s)
    case UpdateCursorAction(u, c) => UpdateCursor(b, u, c)
    case SetToolAction(color, width) => SetTool(b, color, width)
    case UndoAction => Undo(b)
    case RedoAction => Redo(b)
    case ClearAction => Clear(b)
  }

  /** History consistency: every sequence of actions keeps the history invariant. */
  function Run(b: State, actions: seq<Action>): (r: State)
    requires Valid(b)
    ensures Valid(r)
    decreases |actions|
  {
    if actions == [] then b else Run(Apply(b, actions[0]), actions[1..])
  }

  // ---------------------------------------------------------------------------
  // Undo and redo

  /** An undo that took effect is reversed by a redo. */
  lemma UndoThenRedo(b: State)
    requires Valid(b) && b.historyIndex > 0
    ensures Redo(Undo(b)) == b
  {
  }

  /** A redo that took effect is reversed by an undo. */
  lemma RedoThenUndo(b: State)
    requires Valid(b) && !AtNewest(b)
    ensures Undo(Redo(b)) == b
  {
  }

  function UndoTimes(b: State, k: nat): (r: State)
    requires Valid(b)
    ensures Valid(r)
    decreases k
  {
    if k == 0 then b else UndoTimes(Undo(b), k - 1)
  }

  function RedoTimes(b: State, k: nat): (r: State)
    requires Valid(b)
    ensures Valid(r)
    decreases k
  {
    if k == 0 then b else RedoTimes(Redo(b), k - 1)
  }

  /** k undos from index i land on snapshot i - k and keep the history. */
  lemma {:induction false} UndoTimesAt(b: State, k: nat)
    requires Valid(b) && k <= b.historyIndex
    ensures UndoTimes(b, k) == b.(strokes := b.history[b.historyIndex - k], historyIndex := b.historyIndex - k)
    decreases k
  {
    if k > 0 {
      UndoTimesAt(Undo(b), k - 1);
    }
  }

  /** k redos from index i land on snapshot i + k and keep the history. */
  lemma {:induction false} RedoTimesAt(b: State, k: nat)
    requires Valid(b) && b.historyIndex + k < |b.history|
    ensures RedoTimes(b, k) == b.(strokes := b.history[b.historyIndex + k], historyIndex := b.historyIndex + k)
    decreases k
  {
    if k > 0 {
      RedoTimesAt(Redo(b), k - 1);
    }
  }

  /**
   * Undo never loses strokes for good: after any number of undos that the
   * history covers, as many redos bring back exactly the state before them.
   */
  lemma UndoThenRedoTimes(b: State, k: nat)
    requires Valid(b) && k <= b.historyIndex
    ensures RedoTimes(UndoTimes(b, k), k) == b
  {
    UndoTimesAt(b, k);
    RedoTimesAt(UndoTimes(b, k), k);
  }

  /**
   * A new stroke drops the redo future: the history is cut after the current
   * snapshot before the new one is pushed, and a following redo does nothing.
   */
  lemma AddStrokeForeclosesRedo(b: State, s: Stroke)
    requires Valid(b)
    ensures AddStroke(b, s).history == b.history[..b.historyIndex + 1] + [b.strokes + [s]]
    ensures Redo(AddStroke(b, s)) == AddStroke(b, s)
  {
  }

  /** After clear there is nothing to undo (and nothing to redo). */
  lemma ClearIsIrreversible(b: State)
    ensures Undo(Clear(b)) == Clear(b) && Redo(Clear(b)) == Clear(b)
  {
  }

  /** No de-duplication by id: the same stroke added twice is there twice. */
  lemma AddStrokeTwice(b: State, s: Stroke)
    requires Valid(b)
    ensures AddStroke(AddStroke(b, s), s).strokes == b.strokes + [s, s]
  {
  }

  /** Two cursor updates for one user leave only the second. */
  lemma UpdateCursorOverwrites(b: State, u: string, c1: Cursor, c2: Cursor)
    ensures UpdateCursor(UpdateCursor(b, u, c1), u, c2) == UpdateCursor(b, u, c2)
  {
  }

  /**
   * add A, add B, undo gives [A]; add C gives [A, C]; a redo then changes
   * nothing.  A fresh store cannot undo.
   */
  lemma Scenario(a: Stroke, s: Stroke, c: Stroke)
    ensures Undo(Initial()) == Initial()
    ensures Undo(AddStroke(AddStroke(Initial(), a), s)).strokes == [a]
    ensures AddStroke(Undo(AddStroke(AddStroke(Initial(), a), s)), c).strokes == [a, c]
    ensures Redo(AddStroke(Undo(AddStroke(AddStroke(Initial(), a), s)), c)).strokes == [a, c]
  {
  }

  // ---------------------------------------------------------------------------
  // Strokes with points

  predicate HasPoints(s: Stroke) {
    |s.points| > 0
  }

  /** Every stroke in every snapshot (so also every live stroke) has a point. */
  predicate AllHavePoints(b: State) {
    forall i, j :: 0 <= i < |b.history| && 0 <= j < |b.history[i]| ==> HasPoints(b.history[i][j])
  }

  predicate AddsOnlyStrokesWithPoints(actions: seq<Action>) {
    forall i :: 0 <= i < |actions| && actions[i].AddStrokeAction? ==> HasPoints(actions[i].stroke)
  }

  /**
   * The store does not check points itself: every stroke on the board has a
   * point as long as every stroke handed to addStroke had one.
   */
  lemma {:induction false} RunKeepsPoints(b: State, actions: seq<Action>)
    requires Valid(b) && AllHavePoints(b) && AddsOnlyStrokesWithPoints(actions)
    ensures AllHavePoints(Run(b, actions))
    ensures forall s :: s in Run(b, actions).strokes ==> HasPoints(s)
    decreases |actions|
  {
    if actions != [] {
      var b' := Apply(b, actions[0]);
      assert AllHavePoints(b') by {
        match actions[0]
        case AddStrokeAction(s) =>
          forall i, j | 0 <= i < |b'.history| && 0 <= j < |b'.history[i]|
            ensures HasPoints(b'.history[i][j])
          {
            if i <= b.historyIndex {
              assert b'.history[i] == b.history[i];
            } else {
              assert b'.history[i] == b.strokes + [s];
              if j < |b.strokes| {
                assert b'.history[i][j] == b.history[b.historyIndex][j];
              }
            }
          }
        case UpdateCursorAction(_, _) =>
        case SetToolAction(_, _) =>
        case UndoAction =>
        case RedoAction =>
        case ClearAction =>
      }
      assert AddsOnlyStrokesWithPoints(actions[1..]) by {
        forall i | 0 <= i < |actions[1..]| && actions[1..][i].AddStrokeAction?
          ensures HasPoints(actions[1..][i].stroke)
        {
          assert actions[1..][i] == actions[i + 1];
        }
      }
      RunKeepsPoints(b', actions[1..]);
    } else {
      forall s | s in b.strokes ensures HasPoints(s) {
        var j :| 0 <= j < |b.strokes| && b.strokes[j] == s;
        assert b.history[b.historyIndex][j] == s;
      }
    }
  }
}
