/**
 * The whiteboard store (src/stores/whiteboardStore.ts): one object whose six
 * actions overwrite its fields.  Each method states its whole new state and
 * that it follows the matching function of module Board, so the history
 * lemmas proved there hold of the store.
 */
module WhiteboardStore {
  import Board

  class Store {
    var strokes: seq<Board.Stroke>
    var cursors: map<string, Board.Cursor>
    var selectedColor: string
    var selectedWidth: real
    var history: seq<seq<Board.Stroke>>
    var historyIndex: int

    /** The store's fields as one value. */
    function Model(): Board.State
      reads this
    {
      Board.State(strokes, cursors, selectedColor, selectedWidth, history, historyIndex)
    }

    /** `0 <= historyIndex < |history|` and `history[historyIndex] == strokes`. */
    predicate Valid()
      reads this
    {
      Board.Valid(Model())
    }

    constructor ()
      ensures Valid() && Model() == Board.Initial()
      ensures strokes == [] && cursors == map[] && history == [[]] && historyIndex == 0
      ensures selectedColor == "#000000" && selectedWidth == 3.0
    {
      strokes := [];
      cursors := map[];
      selectedColor := Board.InitialColor;
      selectedWidth := Board.InitialWidth;
      history := [[]];
      historyIndex := 0;
    }

    method AddStroke(stroke: Board.Stroke)
      requires Valid()
      modifies this
      ensures Valid() && Model() == Board.AddStroke(old(Model()), stroke)
      ensures strokes == old(strokes) + [stroke]
      ensures history == old(history)[..old(historyIndex) + 1] + [strokes]
      ensures historyIndex == old(historyIndex) + 1
      ensures cursors == old(cursors) && selectedColor == old(selectedColor) && selectedWidth == old(selectedWidth)
    {
      var newStrokes := strokes + [stroke];
      history := history[..historyIndex + 1] + [newStrokes];
      strokes := newStrokes;
      historyIndex := historyIndex + 1;
    }

    method UpdateCursor(userId: string, cursor: Board.Cursor)
      modifies this
      ensures Model() == Board.UpdateCursor(old(Model()), userId, cursor)
      ensures cursors == old(cursors)[userId := cursor]
      ensures strokes == old(strokes) && history == old(history) && historyIndex == old(historyIndex)
      ensures selectedColor == old(selectedColor) && selectedWidth == old(selectedWidth)
      ensures old(Valid()) ==> Valid()
    {
      cursors := cursors[userId := cursor];
    }

    method SetTool(color: string, width: real)
      modifies this
      ensures Model() == Board.SetTool(old(Model()), color, width)
      ensures selectedColor == color && selectedWidth == width
      ensures strokes == old(strokes) && history == old(history) && historyIndex == old(historyIndex)
      ensures cursors == old(cursors)
      ensures old(Valid()) ==> Valid()
    {
      selectedColor, selectedWidth := color, width;
    }

    method Undo()
      requires Valid()
      modifies this
      ensures Valid() && Model() == Board.Undo(old(Model()))
      ensures old(historyIndex) == 0 ==> strokes == old(strokes) && historyIndex == 0
      ensures old(historyIndex) > 0 ==> strokes == old(history)[old(historyIndex) - 1] && historyIndex == old(historyIndex) - 1
      ensures history == old(history)
      ensures cursors == old(cursors) && selectedColor == old(selectedColor) && selectedWidth == old(selectedWidth)
    {
      if historyIndex > 0 {
        strokes := history[historyIndex - 1];
        historyIndex := historyIndex - 1;
      }
    }

    method Redo()
      requires Valid()
      modifies this
      ensures Valid() && Model() == Board.Redo(old(Model()))
      ensures old(historyIndex) == |old(history)| - 1 ==> strokes == old(strokes) && historyIndex == old(historyIndex)
      ensures old(historyIndex) < |old(history)| - 1 ==>
        strokes == old(history)[old(historyIndex) + 1] && historyIndex == old(historyIndex) + 1
      ensures history == old(history)
      ensures cursors == old(cursors) && selectedColor == old(selectedColor) && selectedWidth == old(selectedWidth)
    {
      if historyIndex < |history| - 1 {
        strokes := history[historyIndex + 1];
        historyIndex := historyIndex + 1;
      }
    }

    method Clear()
      modifies this
      ensures Valid() && Model() == Board.Clear(old(Model()))
      ensures strokes == [] && history == [[]] && historyIndex == 0
      ensures cursors == old(cursors) && selectedColor == old(selectedColor) && selectedWidth == old(selectedWidth)
    {
      strokes := [];
      history := [[]];
      historyIndex := 0;
    }
  }
}
