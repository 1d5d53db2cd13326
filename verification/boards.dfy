/** The state of the todo-board page and the handlers that change it.
    Each handler is one atomic transition of that state; the text inputs
    the page reads (`todo`, `editText`, `newBoardName`) are fields set by
    their own change handlers. */
module Boards {
  import opened Whitespace
  import opened ListEdits

  /** The item currently open for in-place editing, if any. */
  datatype Editing = NotEditing | Editing(card: string, index: nat)

  /** No board name occurs twice. */
  predicate NoDuplicates(boards: seq<string>) {
    forall i, j :: 0 <= i < j < |boards| ==> boards[i] != boards[j]
  }

  /** Every stored item has some non-whitespace character. */
  predicate ItemsNonBlank(cards: map<string, seq<string>>) {
    forall b :: b in cards ==> forall k :: 0 <= k < |cards[b]| ==> !IsBlank(cards[b][k])
  }

  /** The invariants every handler keeps: board names are unique, the item
      lists are keyed by exactly the boards, the selection names a board,
      and no item is blank. */
  predicate Consistent(boards: seq<string>, cards: map<string, seq<string>>, selected: string) {
    NoDuplicates(boards) &&
    cards.Keys == (set b | b in boards) &&
    selected in boards &&
    ItemsNonBlank(cards)
  }

  /** Creating a board that does not exist yet, with no items, and selecting
      it keeps the invariants. */
  lemma AddFreshBoardConsistent(boards: seq<string>, cards: map<string, seq<string>>,
                                selected: string, name: string)
    requires Consistent(boards, cards, selected)
    requires name !in boards
    ensures Consistent(boards + [name], cards[name := []], name)
  {
  }

  /** Putting a new list of non-blank items under an existing board keeps
      the invariants. */
  lemma SetItemsConsistent(boards: seq<string>, cards: map<string, seq<string>>,
                           selected: string, card: string, items: seq<string>)
    requires Consistent(boards, cards, selected)
    requires card in cards
    requires forall k :: 0 <= k < |items| ==> !IsBlank(items[k])
    ensures Consistent(boards, cards[card := items], selected)
  {
  }

  class Page {
    var boards: seq<string>
    var selectedCard: string
    var todo: string
    var cards: map<string, seq<string>>
    var editing: Editing
    var editText: string
    var showModal: bool
    var newBoardName: string

    ghost predicate Valid()
      reads this
    {
      Consistent(boards, cards, selectedCard)
    }

    /** The page as first rendered: three empty boards, the first selected,
        nothing being edited and every input empty. */
    constructor ()
      ensures Valid()
      ensures boards == ["card1", "card2", "card3"] && selectedCard == "card1"
      ensures cards == map["card1" := [], "card2" := [], "card3" := []]
      ensures editing == NotEditing && editText == ""
      ensures todo == "" && newBoardName == "" && !showModal
    {
      boards := ["card1", "card2", "card3"];
      selectedCard := "card1";
      todo := "";
      cards := map["card1" := [], "card2" := [], "card3" := []];
      editing := NotEditing;
      editText := "";
      showModal := false;
      newBoardName := "";
    }

    /** Typing into the new-item input. */
    method SetTodo(text: string)
      modifies this`todo
      ensures todo == text
    {
      todo := text;
    }

    /** Choosing a board in the selector, which only offers existing boards. */
    method SelectCard(card: string)
      requires Valid() && card in boards
      modifies this`selectedCard
      ensures Valid() && selectedCard == card
    {
      selectedCard := card;
    }

    /** Adding the typed item to the selected board. A blank input changes
        nothing; otherwise the input, untrimmed, becomes the last item of the
        selected board, no other board changes, and the input is cleared. */
    method AddTodo()
      requires Valid()
      modifies this`cards, this`todo
      ensures Valid()
      ensures IsBlank(old(todo)) ==> cards == old(cards) && todo == old(todo)
      ensures !IsBlank(old(todo)) ==>
                cards == old(cards)[selectedCard := old(cards)[selectedCard] + [old(todo)]] &&
                todo == ""
    {
      if Trim(todo) == [] {
        return;
      }
      var items := if selectedCard in cards then cards[selectedCard] else [];
      SetItemsConsistent(boards, cards, selectedCard, selectedCard, items + [todo]);
      cards := cards[selectedCard := items + [todo]];
      todo := "";
    }

    /** Deleting the item at `index` of board `card`: later items move down
        by one, an index past the end deletes nothing, no other board
        changes, and an edit in progress is left as it was. */
    method DeleteTodo(card: string, index: nat)
      requires Valid() && card in cards
      modifies this`cards
      ensures Valid()
      ensures card in cards && cards == old(cards)[card := cards[card]]
      ensures index < |old(cards)[card]| ==>
                cards[card] == old(cards)[card][..index] + old(cards)[card][index + 1..]
      ensures index >= |old(cards)[card]| ==> cards[card] == old(cards)[card]
    {
      var items := RemoveAt(cards[card], index);
      forall k | 0 <= k < |items| ensures !IsBlank(items[k]) {
        if index < |cards[card]| && index <= k {
          assert items[k] == cards[card][k + 1];
        }
      }
      SetItemsConsistent(boards, cards, selectedCard, card, items);
      cards := cards[card := items];
    }

    /** Opening an item for editing: the cursor moves to (`card`, `index`)
        and the edit buffer takes `text`, whatever edit was in progress. */
    method StartEdit(card: string, index: nat, text: string)
      requires Valid()
      modifies this`editing, this`editText
      ensures Valid()
      ensures editing == Editing(card, index) && editText == text
    {
      editing := Editing(card, index);
      editText := text;
    }

    /** Typing into the edit buffer; nothing is checked until saving. */
    method SetEditText(text: string)
      modifies this`editText
      ensures editText == text
    {
      editText := text;
    }

    /** Saving the edit. Without a cursor, or with a blank buffer, nothing
        changes. Otherwise the buffer, untrimmed, replaces the item under the
        cursor (nothing, if the cursor is past the end of its board), the
        board keeps its length, no other board changes, and the cursor and
        the buffer are cleared. */
    method SaveEdit()
      requires Valid()
      requires editing.Editing? && !IsBlank(editText) ==> editing.card in cards
      modifies this`cards, this`editing, this`editText
      ensures Valid()
      ensures old(editing).NotEditing? || IsBlank(old(editText)) ==>
                cards == old(cards) && editing == old(editing) && editText == old(editText)
      ensures old(editing).Editing? && !IsBlank(old(editText)) ==>
                var card, index := old(editing).card, old(editing).index;
                card in cards && cards == old(cards)[card := cards[card]] &&
                |cards[card]| == |old(cards)[card]| &&
                (index < |old(cards)[card]| ==> cards[card] == old(cards)[card][index := old(editText)]) &&
                (index >= |old(cards)[card]| ==> cards[card] == old(cards)[card]) &&
                editing == NotEditing && editText == ""
    {
      if editing.NotEditing? || Trim(editText) == [] {
        return;
      }
      var card := editing.card;
      var items := ReplaceAt(cards[card], editing.index, editText);
      SetItemsConsistent(boards, cards, selectedCard, card, items);
      cards := cards[card := items];
      editing := NotEditing;
      editText := "";
    }

    /** The Cancel button of an item being edited: the cursor is cleared and
        nothing else, the edit buffer included, changes. */
    method CancelEdit()
      requires Valid()
      modifies this`editing
      ensures Valid() && editing == NotEditing
    {
      editing := NotEditing;
    }

    /** The Add Board button: shows the new-board dialog. */
    method OpenBoardDialog()
      modifies this`showModal
      ensures showModal
    {
      showModal := true;
    }

    /** The dialog's Cancel button: hides it and keeps the typed name. */
    method CloseBoardDialog()
      modifies this`showModal
      ensures !showModal
    {
      showModal := false;
    }

    /** Typing into the new-board dialog. */
    method SetNewBoardName(name: string)
      modifies this`newBoardName
      ensures newBoardName == name
    {
      newBoardName := name;
    }

    /** The dialog's Confirm button. A blank name, or one equal (exactly,
        case included) to an existing board, changes nothing. Otherwise the
        name becomes the last board with no items, it is selected, the name
        input is cleared and the dialog is hidden. */
    method AddBoard()
      requires Valid()
      modifies this`boards, this`cards, this`selectedCard, this`newBoardName, this`showModal
      ensures Valid()
      ensures IsBlank(old(newBoardName)) || old(newBoardName) in old(boards) ==>
                boards == old(boards) && cards == old(cards) && selectedCard == old(selectedCard) &&
                newBoardName == old(newBoardName) && showModal == old(showModal)
      ensures !IsBlank(old(newBoardName)) && old(newBoardName) !in old(boards) ==>
                boards == old(boards) + [old(newBoardName)] &&
                cards == old(cards)[old(newBoardName) := []] &&
                selectedCard == old(newBoardName) &&
                newBoardName == "" && !showModal
    {
      if Trim(newBoardName) == [] {
        return;
      }
      if newBoardName in boards {
        return;
      }
      AddFreshBoardConsistent(boards, cards, selectedCard, newBoardName);
      boards := boards + [newBoardName];
      cards := cards[newBoardName := []];
      selectedCard := newBoardName;
      newBoardName := "";
      showModal := false;
    }
  }
}
