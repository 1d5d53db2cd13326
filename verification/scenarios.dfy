/** Clients of the page: interaction sequences and what the handlers'
    contracts alone let a caller conclude about them. */
module Scenarios {
  import opened Whitespace
  import opened Boards

  /** Opening an item for editing and cancelling leaves every item as it
      was; only the cursor and the edit buffer have moved. */
  method EditThenCancel(p: Page, card: string, index: nat, text: string)
    requires p.Valid()
    modifies p
    ensures p.Valid()
    ensures p.cards == old(p.cards) && p.boards == old(p.boards)
    ensures p.editing == NotEditing && p.editText == text
  {
    p.StartEdit(card, index, text);
    p.CancelEdit();
  }

  /** Opening an item of an existing board, typing a non-blank text and
      saving stores exactly that text at that position and closes the edit. */
  method EditThenSave(p: Page, card: string, index: nat, text: string, typed: string)
    requires p.Valid() && card in p.cards && index < |p.cards[card]|
    requires !IsBlank(typed)
    modifies p
    ensures p.Valid()
    ensures p.cards == old(p.cards)[card := old(p.cards)[card][index := typed]]
    ensures p.editing == NotEditing && p.editText == ""
  {
    p.StartEdit(card, index, text);
    p.SetEditText(typed);
    p.SaveEdit();
  }

  /** Saving with nothing open for editing changes no item. */
  method SaveWithoutEdit(p: Page)
    requires p.Valid() && p.editing == NotEditing
    modifies p
    ensures p.cards == old(p.cards) && p.editing == NotEditing && p.editText == old(p.editText)
  {
    p.SaveEdit();
  }

  /** From the initial page: adding "buy milk" puts it on the selected
      first board; a whitespace-only input is then refused and kept. */
  method AddItemSession()
  {
    var p := new Page();
    assert !IsBlank("buy milk") by { assert "buy milk"[0] == 'b'; }
    p.SetTodo("buy milk");
    p.AddTodo();
    assert p.cards["card1"] == ["buy milk"] && p.todo == "";
    p.SetTodo(" \t");
    p.AddTodo();
    assert p.cards["card1"] == ["buy milk"] && p.todo == " \t";
  }

  /** From the initial page: "card4" becomes the fourth, selected, empty
      board; adding it again is refused. */
  method AddBoardSession()
  {
    var p := new Page();
    assert !IsWhitespace('c');
    p.SetNewBoardName("card4");
    p.AddBoard();
    assert p.selectedCard == "card4" && p.boards == ["card1", "card2", "card3", "card4"];
    assert p.cards["card4"] == [];
    p.SetNewBoardName("card4");
    p.AddBoard();
    assert p.boards == ["card1", "card2", "card3", "card4"] && p.newBoardName == "card4";
  }

  /** From the initial page: after adding "a" and "b", deleting position 0
      leaves "b". */
  method DeleteSession()
  {
    var p := new Page();
    assert !IsBlank("a") && !IsBlank("b") by { assert "a"[0] == 'a' && "b"[0] == 'b'; }
    p.SetTodo("a");
    p.AddTodo();
    p.SetTodo("b");
    p.AddTodo();
    assert p.cards["card1"] == ["a", "b"];
    p.DeleteTodo("card1", 0);
    assert p.cards["card1"] == ["b"];
  }

  /** From the initial page: after adding "x", editing it to "y" and saving
      leaves "y" and closes the edit. */
  method EditSession()
  {
    var p := new Page();
    assert !IsBlank("x") && !IsBlank("y") by { assert "x"[0] == 'x' && "y"[0] == 'y'; }
    p.SetTodo("x");
    p.AddTodo();
    p.StartEdit("card1", 0, "x");
    p.SetEditText("y");
    p.SaveEdit();
    assert p.cards["card1"] == ["y"] && p.editing == NotEditing;
  }

  /** Deleting an item above the one being edited does not move the cursor,
      so saving then overwrites the item that slid into the cursor's place:
      editing `y` in `[x, y, z]` and deleting `x` before saving loses `z`
      and keeps `y`. */
  method StaleCursorAfterDelete(p: Page, card: string, x: string, y: string, z: string, typed: string)
    requires p.Valid() && card in p.cards && p.cards[card] == [x, y, z]
    requires !IsBlank(typed)
    modifies p
    ensures p.Valid()
    ensures p.cards == old(p.cards)[card := [y, typed]]
    ensures p.editing == NotEditing
  {
    p.StartEdit(card, 1, y);
    p.SetEditText(typed);
    p.DeleteTodo(card, 0);
    assert p.cards[card] == [y, z] && p.editing == Editing(card, 1);
    p.SaveEdit();
    assert p.cards[card] == [y, z][1 := typed] == [y, typed];
  }
}
