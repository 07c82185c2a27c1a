# Collaborative whiteboard client: drawing state in Dafny

This project models the client-side drawing state of a shared real-time
whiteboard, and proves properties about it. There are three parts:

- **The whiteboard store.** It holds the strokes on the board, the cursors of
  remote participants keyed by user id, the selected colour and width, and a
  linear undo/redo history of stroke snapshots with an index into it. It has
  six actions: `addStroke`, `updateCursor`, `setTool`, `undo`, `redo` and
  `clear`.
- **Stroke capture on the canvas.** Pointer-down starts a one-point path,
  pointer-move appends a point, and pointer-up or pointer-leave turns the path
  into a stroke and adds it to the store.
- **The inbound room events.** A received `stroke` event is added with its
  author overwritten by the sender. A `cursor-move` event stores the sender's
  position with a colour derived from the user id. A `user-left` event
  overwrites that user's cursor with zeros.

Modules:

- `Wrappers`: `Option`.
- `Board`: the store's state as a value, and each action as a function on it.
  It also holds the history lemmas.
- `WhiteboardStore`: class `Store`, whose methods overwrite its fields. Each
  method states its new fields and is proved to follow the matching `Board`
  function.
- `UserColor`: `getUserColor`, with JavaScript's 32-bit `<<`, `&` and
  `ToInt32` written out over exact integers. It also covers `toString(16)`,
  `toUpperCase` and `substring`.
- `Inbound`: the pure folds of the inbound events into store actions.
- `Canvas`: the capture refs as class `StrokeCapture`, with the pure functions
  `Begin`, `Extend` and `Finish` beside it, plus the canvas's two socket
  handlers.
- `UseSocket`: the hook's three socket handlers.

The history invariant is `0 <= historyIndex < |history|` and
`history[historyIndex] == strokes`. `Board.Run` proves that every sequence of
actions keeps it.

Points about the code that the model keeps:

- A second press while drawing replaces the path instead of being refused
  (src/components/Canvas.tsx:137-141, `Canvas.Begin`).
- stopDrawing checks only the drawing flag and that the path is not null, never
  that the path has points (src/components/Canvas.tsx:163). That guard is enough
  only because `WellFormed`, which every transition keeps, rules out an empty path.
- The Cursor record has no `userId` field (src/stores/whiteboardStore.ts:18-23);
  the id is only the map key.
- The canvas's socket prop is null until the room re-renders
  (src/pages/room.tsx:11-15). With a null socket, reading `socket.id`
  (src/components/Canvas.tsx:170) throws before `addStroke` and before the
  refs are reset. The model passes the socket as an `Option`: `None` adds
  nothing and leaves the gesture open (`Canvas.NullSocketAddsNothing`).

Both `src/components/Canvas.tsx:86-95` and `src/hooks/useSocket.ts:35-37`
register a `stroke` listener. Once the hook's socket reaches the canvas, one
inbound stroke can therefore reach `addStroke` twice. The model keeps each
handler as its own fold. `Inbound.DuplicateDelivery` states what two
deliveries of the same stroke do: the stroke is on the board twice.

`getUserColor` appears twice with the same code, at
`src/hooks/useSocket.ts:93-100` and `src/components/Canvas.tsx:103-110`. It is
modelled once, in `UserColor`, and both sets of handlers call
`UserColor.GetUserColor`.

## Model

| member | source | states |
|---|---|---|
| `Board.Initial` | src/stores/whiteboardStore.ts:45-50 | the initial state has no strokes, no cursors, colour `#000000`, width 3, history `[[]]`, index 0, and satisfies the history invariant |
| `Board.AddStroke` | src/stores/whiteboardStore.ts:52-61 | appends the stroke (no de-duplication) and keeps the history up to and including the current snapshot; the index moves up by one onto the new snapshot, leaving nothing to redo; the invariant is kept; cursors and tool are unchanged |
| `Board.UpdateCursor` | src/stores/whiteboardStore.ts:63-70 | the user's key now maps to the new cursor; the key set grows by at most that key; every other key keeps its value; strokes, history, index and tool are unchanged |
| `Board.SetTool` | src/stores/whiteboardStore.ts:72-74 | only the selected colour and width change, to the given ones |
| `Board.Undo` | src/stores/whiteboardStore.ts:76-84 | no-op at index 0, otherwise the index moves down by one; history, cursors and tool are unchanged; the invariant is kept |
| `Board.Redo` | src/stores/whiteboardStore.ts:86-94 | no-op at the newest snapshot, otherwise the index moves up by one; history, cursors and tool are unchanged; the invariant is kept |
| `Board.Clear` | src/stores/whiteboardStore.ts:96-102 | strokes `[]`, history `[[]]`, index 0; cursors and tool are unchanged |
| `Board.Apply` | src/stores/whiteboardStore.ts:52-102 | every one of the six actions keeps the history invariant |
| `Board.Run` | src/stores/whiteboardStore.ts:52-102 | every sequence of actions keeps the history invariant |
| `Board.UndoThenRedo` | src/stores/whiteboardStore.ts:76-94 | a redo after an undo that took effect restores the whole previous state |
| `Board.RedoThenUndo` | src/stores/whiteboardStore.ts:76-94 | an undo after a redo that took effect restores the whole previous state |
| `Board.UndoTimesAt` | src/stores/whiteboardStore.ts:76-84 | k undos from index i land on snapshot i-k with the history unchanged |
| `Board.RedoTimesAt` | src/stores/whiteboardStore.ts:86-94 | k redos from index i land on snapshot i+k with the history unchanged |
| `Board.UndoThenRedoTimes` | src/stores/whiteboardStore.ts:76-94 | undo loses nothing for good: k undos followed by k redos give back exactly the original state |
| `Board.AddStrokeForeclosesRedo` | src/stores/whiteboardStore.ts:52-94 | addStroke cuts the history after the current snapshot, then pushes the new one; a following redo is a no-op |
| `Board.ClearIsIrreversible` | src/stores/whiteboardStore.ts:76-102 | after clear, both undo and redo are no-ops |
| `Board.AddStrokeTwice` | src/stores/whiteboardStore.ts:52-61 | adding the same stroke twice puts it on the board twice |
| `Board.UpdateCursorOverwrites` | src/stores/whiteboardStore.ts:63-70 | two updates for one user leave one entry, holding the second cursor |
| `Board.Scenario` | src/stores/whiteboardStore.ts:45-94 | a fresh store cannot undo; add A, add B, undo gives `[A]`; add C then gives `[A, C]`; a redo then changes nothing |
| `Board.RunKeepsPoints` | src/stores/whiteboardStore.ts:52-102 | if every stroke passed to addStroke has a point, every snapshot (and so the live board) holds only strokes with points |
| `WhiteboardStore.Store.constructor` | src/stores/whiteboardStore.ts:45-50 | the store starts with the fields of `Board.Initial` |
| `WhiteboardStore.Store.AddStroke` | src/stores/whiteboardStore.ts:52-61 | new strokes, history and index as in `Board.AddStroke`; cursors and tool are unchanged; `Valid()` is kept |
| `WhiteboardStore.Store.UpdateCursor` | src/stores/whiteboardStore.ts:63-70 | `cursors := cursors[userId := cursor]`; nothing else changes |
| `WhiteboardStore.Store.SetTool` | src/stores/whiteboardStore.ts:72-74 | new colour and width; nothing else changes |
| `WhiteboardStore.Store.Undo` | src/stores/whiteboardStore.ts:76-84 | guarded step back to `history[historyIndex-1]`; history is unchanged; `Valid()` is kept |
| `WhiteboardStore.Store.Redo` | src/stores/whiteboardStore.ts:86-94 | guarded step forward to `history[historyIndex+1]`; history is unchanged; `Valid()` is kept |
| `WhiteboardStore.Store.Clear` | src/stores/whiteboardStore.ts:96-102 | resets strokes, history and index; cursors and tool are unchanged |
| `UserColor.Utf16` | src/hooks/useSocket.ts:95-96 | a character below 2^16 is the one code unit equal to its code point; any other is a high and a low surrogate that encode it |
| `UserColor.CodeUnits` | src/hooks/useSocket.ts:95-96 | the id as the UTF-16 code units that `length` counts and `charCodeAt` reads: each below 2^16, between one and two per character, and exactly the code points when every character is below 2^16 |
| `UserColor.ToInt32` | src/hooks/useSocket.ts:96-98 | ECMAScript ToInt32: a signed 32-bit value congruent to its argument modulo 2^32 |
| `UserColor.ShiftLeft5` | src/hooks/useSocket.ts:96 | `hash << 5` is a signed 32-bit value congruent to 32·hash modulo 2^32 |
| `UserColor.HashStep` | src/hooks/useSocket.ts:96 | one loop step `code + ((hash << 5) - hash)` is congruent to 31·hash + code modulo 2^32 |
| `UserColor.Hash` | src/hooks/useSocket.ts:94-97 | the hash after the loop agrees modulo 2^24 with the fold h := (31h + code) mod 2^24 from 0 |
| `UserColor.Mask24` | src/hooks/useSocket.ts:98 | `hash & 0x00FFFFFF` lies in [0, 2^24) and is the hash modulo 2^24 |
| `UserColor.HashStepMod` | src/hooks/useSocket.ts:96 | modulo 2^24, `code + ((hash << 5) - hash)` equals `31 * hash + code` |
| `UserColor.HashMod24` | src/hooks/useSocket.ts:94-98 | `hash & 0x00FFFFFF` after the loop equals the fold h := (31h + code) mod 2^24 from 0 |
| `UserColor.HashBound` | src/hooks/useSocket.ts:94-97 | the hash stays within n·(2^31+2^16) after n code units; below 2^21 code units that is under 2^53, where doubles hold integers exactly |
| `UserColor.ToHexString` | src/hooks/useSocket.ts:98 | `toString(16)` is at least one lower-case hex digit, with no leading zero unless the number is 0 |
| `UserColor.UpperCase` | src/hooks/useSocket.ts:98 | on the characters of a hex numeral, `toUpperCase` keeps the length and upper-cases each character in place |
| `UserColor.Substring` | src/hooks/useSocket.ts:99 | `substring` is never longer than the string, and is the plain slice when the bounds are in order and in range |
| `UserColor.FormatColor` | src/hooks/useSocket.ts:98-99 | the template result is seven characters starting with `#` |
| `UserColor.ToHexStringLength` | src/hooks/useSocket.ts:98 | a value below 16^k has at most k hex digits, so a masked hash has at most 6 |
| `UserColor.UpperHexValue` | src/hooks/useSocket.ts:98 | `toString(16).toUpperCase()` gives upper-case hex digits that denote the number |
| `UserColor.LeadingZeros` | src/hooks/useSocket.ts:99 | zero padding on the left does not change the value |
| `UserColor.FormatColorIsColor` | src/hooks/useSocket.ts:98-99 | the formatted result is `#` and exactly six upper-case hex digits, whose value is `hash & 0xFFFFFF` (the padding never overflows) |
| `UserColor.UserColor` | src/hooks/useSocket.ts:93-100 | a user's colour is `#` and six characters from `0-9A-F`, whose value is the 24-bit fold of the id |
| `UserColor.EmptyIdIsBlack` | src/hooks/useSocket.ts:93-100 | the empty id maps to `#000000` |
| `UserColor.GetUserColor` | src/hooks/useSocket.ts:93-100 | the loop as written (the same code at src/components/Canvas.tsx:103-110) returns `UserColor(userId)`, which is a well-formed colour with the 24-bit fold as its value |
| `Inbound.FromSender` | src/hooks/useSocket.ts:35-37 | `{...stroke, userId}` replaces the author and keeps id, points, colour and width |
| `Inbound.MovedCursor` | src/hooks/useSocket.ts:40-42 | the cursor keeps x, y and name, and its colour is the sender's derived, well-formed colour |
| `Inbound.ActionOf` | src/hooks/useSocket.ts:35-46 | a stroke event becomes addStroke of `{...stroke, userId}`: the sender as author, with the stroke's id, points, colour and width kept; a cursor move becomes updateCursor of the sender with the moved position and name and the colour `getUserColor(userId)`; a leave becomes updateCursor of the sender with the zeroed cursor; no event becomes setTool, undo, redo or clear |
| `Inbound.Fold` | src/hooks/useSocket.ts:35-46 | a stroke event is addStroke of the re-authored stroke and leaves the cursors alone; a cursor move or leave is updateCursor of the sender, so it changes only the sender's cursor and keeps the drawing and the tool; after a leave the key remains, holding the zeroed cursor; the invariant is kept |
| `Inbound.FoldAll` | src/hooks/useSocket.ts:35-46 | any sequence of inbound events keeps the history invariant and the local tool |
| `Inbound.FoldAllIsRun` | src/hooks/useSocket.ts:35-46 | folding events is the same as running their store actions |
| `Inbound.DuplicateDelivery` | src/hooks/useSocket.ts:35-37 | no de-duplication on ingest: a stroke delivered twice is appended twice |
| `Inbound.LeaveAfterMoveKeepsKey` | src/hooks/useSocket.ts:40-46 | a cursor move followed by user-left leaves the key in the map with the zeroed cursor |
| `Canvas.Begin` | src/components/Canvas.tsx:134-141 | startDrawing always sets drawing and replaces any path with exactly `[p]` |
| `Canvas.Extend` | src/components/Canvas.tsx:150-155 | draw is a no-op unless drawing with a path; otherwise it appends exactly `p` and keeps the earlier points |
| `Canvas.Finish` | src/components/Canvas.tsx:162-178 | stopDrawing is a no-op that emits nothing unless drawing with a path; with the null socket the throw at `socket.id` leaves capture unchanged and emits nothing; otherwise it emits a stroke with the fresh id, the captured path, the selected tool and the socket id, and returns to idle; a reachable state only ever emits strokes with points |
| `Canvas.Handle` | src/components/Canvas.tsx:184-190 | a pointer event changes the store only by adding the stroke it emits |
| `Canvas.Session` | src/components/Canvas.tsx:134-190 | over any run of pointer events, the store gains exactly the emitted strokes, in order, and every one of them has a point |
| `Canvas.UpThenLeaveEmitsOnce` | src/components/Canvas.tsx:162-187 | with a socket present, pointer-up followed by pointer-leave yields exactly one stroke, carrying the captured path |
| `Canvas.NullSocketAddsNothing` | src/components/Canvas.tsx:162-177 | with the null socket no run of pointer events changes the store or emits a stroke, and an open gesture stays open |
| `Canvas.IdleIgnoresMovesAndReleases` | src/components/Canvas.tsx:150-177 | when not drawing, moves and releases change neither the capture nor the store |
| `Canvas.StrokeCapture.constructor` | src/components/Canvas.tsx:24-25 | the refs start as not drawing, with a null path |
| `Canvas.StrokeCapture.StartDrawing` | src/components/Canvas.tsx:134-141 | sets the flag and replaces the path with `[p]` |
| `Canvas.StrokeCapture.Draw` | src/components/Canvas.tsx:150-155 | appends `p` to the path, unless not drawing or no path exists |
| `Canvas.StrokeCapture.StopDrawing` | src/components/Canvas.tsx:162-178 | follows `Canvas.Finish` on the store's current tool and the socket prop (null socket: nothing changes); adds the emitted stroke to the store and nothing otherwise; a reachable capture stays reachable and emits only strokes with points |
| `Canvas.HandleStroke` | src/components/Canvas.tsx:86-88 | performs `Inbound.Fold` of a stroke event on the store |
| `Canvas.HandleCursorMove` | src/components/Canvas.tsx:90-92 | performs `Inbound.Fold` of a cursor-move event on the store |
| `UseSocket.OnStroke` | src/hooks/useSocket.ts:35-37 | performs `Inbound.Fold` of a stroke event on the store |
| `UseSocket.OnCursorMove` | src/hooks/useSocket.ts:40-42 | performs `Inbound.Fold` of a cursor-move event on the store |
| `UseSocket.OnUserLeft` | src/hooks/useSocket.ts:44-46 | performs `Inbound.Fold` of a user-left event: the user's cursor is zeroed and the key stays |

## Left out

- Rendering is left out, because it calls into the HTML Canvas 2D API. This covers `redraw`, the context and resize setup, and the `moveTo`/`lineTo`/`stroke` calls inside startDrawing and draw (src/components/Canvas.tsx:34-80, 142-147, 157-159).
- `getCoordinates` is left out, because it reads DOM geometry (the canvas's bounding rectangle). The canvas-local point is a parameter of `StartDrawing` and `Draw`.
- `preventDefault` (src/components/Canvas.tsx:135, 151) is left out, because it only suppresses the browser's default touch and mouse behaviour and changes no drawing state.
- The socket.io connection, `join-room`, the `emit` calls, the 50 ms cursor broadcast and `mousemove` tracking are left out, because they are network I/O and timers. The stroke that stopDrawing emits is the `Some` value that `StopDrawing` returns.
- `crypto.randomUUID()` becomes the `freshId` parameter. The socket becomes an `Option<string>` parameter: `None` is the null socket, and `Some(id)` carries `socket.id`.
- Canvas.Finish and Canvas.StrokeCapture.StopDrawing: a socket that exists but is disconnected has an undefined `socket.id`, so the stroke's author is `undefined`. The model takes the id as a string, so this case is not modelled. `Handle`, `Session` and `UpThenLeaveEmitsOnce` assume that a present socket has an id.
- The null-socket TypeError is modelled only as "nothing happens". React's reporting of the thrown error is not modelled.
- React hooks and effects, zustand `create`/`devtools`, and registering and removing socket listeners are left out. The store is a plain class, and each socket handler is a module-level method that takes the store as a parameter.
- UserColor.UpperCase: only `a`-`z` are upper-cased, which covers every character `toString(16)` produces. Full Unicode case mapping (which can lengthen a string, as "ß" becomes "SS") is not modelled.
- Coordinates and widths are exact `real` numbers, so floating-point rounding is not modelled.
- The hash is an exact integer, while JavaScript holds it in a double. `UserColor.HashBound` shows that the hash's magnitude stays below 2^53 for ids shorter than 2^21 code units. Doubles hold every integer of that size exactly, so the two agree there; that last step is not proved in Dafny, and longer ids are not covered.
- Ids are Dafny strings, which hold only Unicode scalar values. A JavaScript id containing an unpaired surrogate code unit therefore cannot be expressed (`UserColor.CodeUnits`).
- Draw pushes into the path array in place. The model reassigns a `seq` instead. No aliasing is lost by this, because the ref is reset to null as soon as the stroke takes the array.
- RoomList, Toolbar, Cursors, room routing and configuration are outside the core. They only call the store actions modelled here, or render them.

