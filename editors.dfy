/**
 * The three cell editors of components/DealsTable.tsx (lines 23-127): each is a component
 * with its own local state and a reference to the row's record object, which its commit
 * writes in place.  A commit returns whether it calls `onDataChange`.
 */
module Editors {
  import opened Wrappers
  import opened Data
  import opened Deals
  import Numbers
  import opened Records

  /** `EditableTextCell` on one of the free-text columns. */
  class TextEditor {
    const row: DealObj
    const column: TextColumn
    /** The input's text (`value`). */
    var value: Option<string>
    /** The `initialValue` the synchronising effect last saw. */
    var seen: Option<string>
    var editing: bool

    /** Only the notes field can hand the editor `undefined`. */
    ghost predicate Valid()
      reads this
    {
      column != Notes ==> value.Some?
    }

    constructor (row: DealObj, column: TextColumn)
      ensures Valid() && this.row == row && this.column == column && !editing
      ensures value == TextOf(row.Value(), column) && seen == value
    {
      this.row := row;
      this.column := column;
      value := TextOf(row.Value(), column);
      seen := TextOf(row.Value(), column);
      editing := false;
    }

    /** A click on the cell's button opens the input. */
    method Click()
      requires Valid()
      modifies this
      ensures Valid() && editing && value == old(value) && seen == old(seen)
    {
      editing := true;
    }

    /** `onChange`: the input's text becomes `text`. */
    method Input(text: string)
      requires Valid() && editing
      modifies this
      ensures Valid() && editing && value == Some(text) && seen == old(seen)
    {
      value := Some(text);
    }

    /** A re-render: the effect on `[initialValue]` reloads the text only when the record changed. */
    method Rerender()
      requires Valid()
      modifies this
      ensures Valid() && editing == old(editing)
      ensures var current := TextOf(row.Value(), column);
        if current != old(seen) then value == current && seen == current
        else value == old(value) && seen == old(seen)
    {
      var current := TextOf(row.Value(), column);
      if current != seen {
        value := current;
        seen := current;
      }
    }

    /**
     * `onBlur` (Enter blurs too): editing ends and the input's text is written into exactly
     * this column of this record; `onDataChange` is always signalled.
     */
    method Blur() returns (dataChanged: bool)
      requires Valid() && editing
      modifies this, row
      ensures Valid() && !editing && dataChanged
      ensures row.Value() == WriteText(old(row.Value()), column, old(value))
      ensures value == old(value) && seen == old(seen)
    {
      editing := false;
      match column {
        case Company => row.company := value.value;
        case Owner => row.owner := value.value;
        case Status => row.status := value.value;
        case Created => row.created := value.value;
        case Notes => row.notes := value;
      }
      dataChanged := true;
    }
  }

  /** The stage dropdown's options, `["New", "Qualified", "Won", "Lost"]`. */
  function StageOptions(): (options: seq<Stage>)
    ensures |options| == 4
    ensures forall i, j :: 0 <= i < j < |options| ==> options[i] != options[j]
  {
    [New, Qualified, Won, Lost]
  }

  /** The dropdown offers every stage. */
  lemma StageOptionsComplete(s: Stage)
    ensures s in StageOptions()
  {
    match s {
      case New => assert StageOptions()[0] == s;
      case Qualified => assert StageOptions()[1] == s;
      case Won => assert StageOptions()[2] == s;
      case Lost => assert StageOptions()[3] == s;
    }
  }

  /** `StageCell`: a pill that opens a list of the four stages. */
  class StageEditor {
    const row: DealObj
    var open: bool

    constructor (row: DealObj)
      ensures this.row == row && !open
    {
      this.row := row;
      open := false;
    }

    /** A click on the pill: `setOpen(o => !o)`. */
    method Toggle()
      modifies this
      ensures open == !old(open)
    {
      open := !open;
    }

    /** A click on option `s`: the stage is written, `onDataChange` signalled, the list closed. */
    method Choose(s: Stage) returns (dataChanged: bool)
      requires open
      modifies this, row
      ensures !open && dataChanged
      ensures row.Value() == WriteStage(old(row.Value()), s)
    {
      row.stage := s;
      dataChanged := true;
      open := false;
    }

    /** Escape in the list closes it without writing anything. */
    method Escape()
      requires open
      modifies this
      ensures !open
    {
      open := false;
    }
  }

  /** `AmountCell`: a numeric text input seeded with `amount.toString()`. */
  class AmountEditor {
    const row: DealObj
    /** The input's text (`val`). */
    var val: string
    /** The amount the synchronising effect last saw. */
    var seen: int
    var editing: bool

    constructor (row: DealObj)
      ensures this.row == row && !editing
      ensures val == Numbers.IntToString(row.amount) && seen == row.amount
    {
      this.row := row;
      val := Numbers.IntToString(row.amount);
      seen := row.amount;
      editing := false;
    }

    method Click()
      modifies this
      ensures editing && val == old(val) && seen == old(seen)
    {
      editing := true;
    }

    method Input(text: string)
      requires editing
      modifies this
      ensures editing && val == text && seen == old(seen)
    {
      val := text;
    }

    /** A re-render: the effect on `[v]` reloads the text only when the amount changed. */
    method Rerender()
      modifies this
      ensures editing == old(editing)
      ensures if row.amount != old(seen) then val == Numbers.IntToString(row.amount) && seen == row.amount
              else val == old(val) && seen == old(seen)
    {
      if row.amount != seen {
        val := Numbers.IntToString(row.amount);
        seen := row.amount;
      }
    }

    /**
     * `commit` (on blur and on Enter): when the stripped text is a number it becomes the
     * amount and `onDataChange` is signalled; on NaN nothing is written or signalled.
     * Editing ends either way.
     */
    method Commit() returns (dataChanged: bool)
      requires editing
      modifies this, row
      ensures !editing && val == old(val) && seen == old(seen)
      ensures row.Value() == CommitAmount(old(row.Value()), val)
      ensures dataChanged <==> Numbers.ParseNumber(Numbers.StripSeparators(val)).Some?
    {
      var num := Numbers.ParseNumber(Numbers.StripSeparators(val));
      dataChanged := false;
      if num.Some? {
        row.amount := num.value;
        dataChanged := true;
      }
      editing := false;
    }

    /**
     * Escape, as the program runs it: the input's own handler only ends editing (line 120),
     * but the key press bubbles to the cell, whose handler blurs the still-mounted input
     * (lines 474-475), and that blur runs `commit` (line 119).  So Escape writes the
     * converted text exactly as Enter does.
     */
    method Escape() returns (dataChanged: bool)
      requires editing
      modifies this, row
      ensures !editing && val == old(val) && seen == old(seen)
      ensures row.Value() == CommitAmount(old(row.Value()), val)
      ensures dataChanged <==> Numbers.ParseNumber(Numbers.StripSeparators(val)).Some?
    {
      dataChanged := Commit();
    }

    /** Escape as its handler intends: leave the input and write nothing. */
    method Cancel()
      requires editing
      modifies this
      ensures !editing && val == old(val) && seen == old(seen)
      ensures row.Value() == old(row.Value())
    {
      editing := false;
    }
  }

  /**
   * Escape as written, on a record holding `d`: open the amount editor, type `5`, press
   * Escape.  The record's amount becomes 5 although Escape was meant to cancel the edit.
   */
  method EscapeCommits(d: Deal) returns (after: Deal)
    ensures after == d.(amount := 5)
  {
    var row := new DealObj(d);
    var editor := new AmountEditor(row);
    editor.Click();
    editor.Input("5");
    assert Numbers.StripSeparators("5") == "5";
    assert Numbers.ParseNumber("5") == Some(5);
    var changed := editor.Escape();
    after := row.Value();
  }

  /** The intended Escape on the same events: the record is as it was. */
  method CancelKeepsAmount(d: Deal) returns (after: Deal)
    ensures after == d
  {
    var row := new DealObj(d);
    var editor := new AmountEditor(row);
    editor.Click();
    editor.Input("5");
    editor.Cancel();
    after := row.Value();
  }
}
