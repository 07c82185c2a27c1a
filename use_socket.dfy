/**
 * The inbound handlers that the useSocket hook registers
 * (src/hooks/useSocket.ts).  Each folds one event into the store.
 */
module UseSocket {
  import opened Wrappers
  import opened Board
  import Inbound
  import UserColor
  import WhiteboardStore

  /** On "stroke": add the stroke with its author replaced by the sender. */
  method OnStroke(store: WhiteboardStore.Store, userId: string, stroke: Stroke)
    requires store.Valid()
    modifies store
    ensures store.Valid()
    ensures store.Model() == Inbound.Fold(old(store.Model()), Inbound.StrokeReceived(userId, stroke))
  {
    store.AddStroke(stroke.(userId := userId));
  }

  /** On "cursor-move": store the position under the sender with its colour. */
  method OnCursorMove(store: WhiteboardStore.Store, userId: string, x: real, y: real, name: Option<string>)
    requires store.Valid()
    modifies store
    ensures store.Valid()
    ensures store.Model() == Inbound.Fold(old(store.Model()), Inbound.CursorMoved(userId, x, y, name))
  {
    var color := UserColor.GetUserColor(userId);
    store.UpdateCursor(userId, Cursor(x, y, color, name));
  }

  /** On "user-left": overwrite the cursor with zeros; the key is not removed. */
  method OnUserLeft(store: WhiteboardStore.Store, userId: string)
    requires store.Valid()
    modifies store
    ensures store.Valid()
    ensures store.Model() == Inbound.Fold(old(store.Model()), Inbound.UserLeft(userId))
    ensures userId in store.cursors && store.cursors[userId] == Cursor(0.0, 0.0, "", Some(""))
  {
    store.UpdateCursor(userId, Cursor(0.0, 0.0, "", Some("")));
  }
}
