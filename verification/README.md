# Todo Cards: a verified model of the board state

The page (`app/page.tsx`) shows a row of named boards, each with an ordered
list of todo items. The user can add an item to the selected board, delete an
item, edit one item in place (Save or Cancel), select a board and create a
new board. All state lives in one React component: the ordered board names
`boards`, the selected board `selectedCard`, the items per board `cards`, the
edit cursor `editing` with its buffer `editText`, and the inputs `todo` and
`newBoardName` (plus the `showModal` flag of the new-board dialog).

This project models that state as the class `Boards.Page` (one field per
piece of state, one method per handler, each an atomic transition with a
`modifies` frame naming exactly the fields the handler sets) and proves that
every handler keeps the page's invariants:

- no board name occurs twice;
- the boards that have item lists are exactly the boards shown;
- the selected board is one of them;
- no stored item is blank (every text input is checked with `trim()` first).

The values the handlers compute are modelled by two small modules:

- `Whitespace`: `String.prototype.trim` over the characters ECMAScript
  counts as WhiteSpace or LineTerminator, with the proof that `!s.trim()`
  holds exactly when every character of `s` is whitespace (`IsBlank`).
- `ListEdits`: the index-based `filter` used to delete and the index-based
  `map` used to replace, written as the element-by-element walks they are,
  with contracts stating the whole-list result (a slice concatenation, a
  single-position update, and "unchanged" for an index past the end).

`Scenarios` holds clients of the class: edit-then-cancel, edit-then-save,
save-without-edit, the concrete sessions (add "buy milk", add "card4", delete
from ["a", "b"], edit "x" to "y"), and the stale-cursor session below.

Behaviour the model follows from the code:

- Cancel (`setEditing(null)`) clears only the cursor; the edit buffer keeps
  its text until the next `startEdit` or successful save.
- Selecting a board does no existence check; the selector only offers
  existing boards, so `SelectCard` requires `card in boards`.
- Deleting does not touch the edit cursor. If an item above the one being
  edited is deleted, the cursor still names the old position, and saving
  overwrites the item that slid into it (`Scenarios.StaleCursorAfterDelete`);
  if the cursor ends up past the end, saving changes no item.
- Stored texts are the raw inputs, untrimmed; `trim()` is only a test.
- The duplicate-board test is an exact, case-sensitive match.

## Model

| member | source | states |
|---|---|---|
| `Whitespace.TrimStart` | app/page.tsx:30 | the result is a suffix of the input, everything dropped is whitespace, and it does not start with whitespace |
| `Whitespace.TrimEnd` | app/page.tsx:30 | the result is a prefix of the input, everything dropped is whitespace, and it does not end with whitespace |
| `Whitespace.Trim` | app/page.tsx:30 | `trim()` is no longer than its input, has no whitespace at either end, and is empty exactly when every character is whitespace, so `!s.trim()` is `IsBlank(s)` |
| `ListEdits.KeepAllBut` | app/page.tsx:43 | filtering out running index `index` removes exactly that position when it lies in the walked range, and nothing otherwise |
| `ListEdits.RemoveAt` | app/page.tsx:40-45 | removing a position in range gives the prefix before it plus the suffix after it (length one less, earlier items in place, later items shifted down by one, no new items); out of range the list is unchanged |
| `ListEdits.MapReplace` | app/page.tsx:57-59 | mapping with the replace-at-index callback keeps the length and changes exactly the element whose running index is `index` |
| `ListEdits.ReplaceAt` | app/page.tsx:55-60 | in range, the result is the list with only that position set to the new text; out of range the list is unchanged |
| `Boards.AddFreshBoardConsistent` | app/page.tsx:66-76 | appending a name not yet in `boards`, mapping it to no items and selecting it keeps all four invariants |
| `Boards.SetItemsConsistent` | app/page.tsx:32-35 | giving an existing board a new list of non-blank items keeps all four invariants |
| `Boards.Page.constructor` | app/page.tsx:12-27 | the initial page has boards card1, card2, card3, each with no items, card1 selected, no cursor, empty inputs, the dialog hidden, and satisfies the invariants |
| `Boards.Page.SetTodo` | app/page.tsx:89 | typing sets the new-item input and nothing else |
| `Boards.Page.SelectCard` | app/page.tsx:94-96 | selection moves to the chosen existing board, nothing else changes, invariants kept |
| `Boards.Page.AddTodo` | app/page.tsx:29-38 | a blank input changes nothing; otherwise the untrimmed input is appended as the last item of the selected board, every other board is unchanged, the input is cleared, invariants kept |
| `Boards.Page.DeleteTodo` | app/page.tsx:40-45 | the board loses exactly the item at `index` (later items shift down), or nothing when `index` is past the end; other boards, the cursor and the buffer are unchanged; invariants kept |
| `Boards.Page.StartEdit` | app/page.tsx:47-50 | the cursor and buffer are overwritten unconditionally; no item changes |
| `Boards.Page.SetEditText` | app/page.tsx:156 | typing sets the edit buffer and nothing else |
| `Boards.Page.SaveEdit` | app/page.tsx:52-64 | no cursor or a blank buffer changes nothing; otherwise only the cursor's position of the cursor's board takes the untrimmed buffer (no change if past the end), the length and every other board are kept, and the cursor and buffer are cleared; invariants kept |
| `Boards.Page.CancelEdit` | app/page.tsx:167 | the cursor is cleared and nothing else, items and buffer included, changes |
| `Boards.Page.OpenBoardDialog` | app/page.tsx:114 | the new-board dialog is shown |
| `Boards.Page.CloseBoardDialog` | app/page.tsx:218 | the new-board dialog is hidden and the typed name kept |
| `Boards.Page.SetNewBoardName` | app/page.tsx:211 | typing sets the new-board name input and nothing else |
| `Boards.Page.AddBoard` | app/page.tsx:66-76 | a blank name or an exact duplicate changes nothing; otherwise the name is appended to the boards with an empty item list, becomes selected, the input is cleared and the dialog hidden; invariants kept |
| `Scenarios.EditThenCancel` | app/page.tsx:166-171 | starting an edit and cancelling it leaves every item and board as it was |
| `Scenarios.EditThenSave` | app/page.tsx:52-64 | starting an edit, typing a non-blank text and saving stores exactly that text at that position and closes the edit |
| `Scenarios.SaveWithoutEdit` | app/page.tsx:53 | saving with no cursor leaves the items, cursor and buffer unchanged |
| `Scenarios.StaleCursorAfterDelete` | app/page.tsx:40-45 | editing `y` in `[x, y, z]`, deleting `x` and saving yields `[y, typed]`: the stale cursor overwrites `z` |

## Left out

- Rendering: the JSX markup, styling and layout (app/page.tsx:78-234), and
  the display-only `toUpperCase()` of board names.
- React's `useState` machinery (batched functional updaters, re-render
  scheduling, event wiring): each handler is one atomic transition.
- Boards.Page.DeleteTodo: requires `card in cards`; the code crashes on an
  unknown board (`prev[card]` is undefined), and the page only passes
  boards it is rendering.
- Boards.Page.SaveEdit: requires that a cursor with a non-blank buffer names
  a board in `cards`, for the same crash; every cursor the page creates
  names a rendered board.
- Boards.Page.SelectCard: requires `card in boards`, because the selector
  offers only existing boards; the code itself does not check.
- Indices are natural numbers: the page only passes the positions it
  renders, never negative or fractional JavaScript numbers.
- Strings are sequences of Unicode characters, not UTF-16 code units; the
  whitespace set is ECMAScript's WhiteSpace and LineTerminator with the
  Unicode "space separator" category as of Unicode 15.
