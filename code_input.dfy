/** The input-synchronisation state machine of the one-time-code widget: the cell
    array, the active index and the values handed to the `onChange` callback, and the
    four event handlers that move them (cell focus, key-up on the hidden input, change
    of the hidden input for autofill, blur of the hidden input). */
module CodeInput {
  import opened CodeText

  /** Key codes that the keystroke interpreter treats as deletion. */
  const BACKSPACE: int := 8
  const DELETE: int := 46

  predicate IsDeleting(keyCode: int) {
    keyCode == DELETE || keyCode == BACKSPACE
  }

  /** JavaScript's `array[i] = v` on a copy of the cells, for an index below the length:
      a cell index replaces that cell; a negative index sets a property that is not an
      element, so the cells stay as they were. */
  function WriteCell(cells: seq<string>, i: int, v: string): (r: seq<string>)
    requires i < |cells|
    ensures |r| == |cells|
    ensures forall k :: 0 <= k < |cells| ==> r[k] == (if k == i then v else cells[k])
  {
    if 0 <= i then cells[i := v] else cells
  }

  class VerificationCode {
    /** The configured number of cells and the empty-cell glyph. */
    const length: nat
    const placeholder: string

    /** The component state: the cell values and the active cell (-1 for none). */
    var cells: seq<string>
    var activeIndex: int

    /** Every value passed to `onChange`, oldest first. */
    var emitted: seq<string>

    /** The cell count never changes, the active index is a cell or -1, every cell is
        the placeholder or a key that passed the numeric test, and the last value
        handed to `onChange` is the join of the current cells. */
    ghost predicate Valid()
      reads this
    {
      |cells| == length
      && -1 <= activeIndex < length
      && (forall k :: 0 <= k < |cells| ==> cells[k] == placeholder || IsNumericKey(cells[k]))
      && emitted != [] && emitted[|emitted| - 1] == Join(cells)
    }

    /** Mounting: every cell holds the placeholder, no cell is active, and the effect
        emits the all-placeholder value once. */
    constructor (length: nat := 4, placeholder: string := "·")
      ensures Valid()
      ensures this.length == length && this.placeholder == placeholder
      ensures cells == Fill(length, placeholder) && activeIndex == -1
      ensures emitted == [Join(Fill(length, placeholder))]
    {
      this.length := length;
      this.placeholder := placeholder;
      cells := Fill(length, placeholder);
      activeIndex := -1;
      emitted := [Join(Fill(length, placeholder))];
    }

    /** The cells a handler may commit: one per position, each the placeholder or a
        key that passed the numeric test. */
    ghost predicate Acceptable(newValue: seq<string>)
      reads this
    {
      |newValue| == length
      && forall k :: 0 <= k < |newValue| ==> newValue[k] == placeholder || IsNumericKey(newValue[k])
    }

    /** `setValue(newValue)` followed by the effect on `value`: the cells are replaced
        and their join is emitted. Every handler passes a fresh array, so the effect
        runs even when the contents are unchanged. */
    method SetValue(newValue: seq<string>)
      requires Valid() && Acceptable(newValue)
      modifies this
      ensures Valid()
      ensures cells == newValue && activeIndex == old(activeIndex)
      ensures emitted == old(emitted) + [Join(newValue)]
    {
      cells := newValue;
      emitted := emitted + [Join(newValue)];
    }

    /** `onItemFocus(index)`: the focused cell becomes the active one. */
    method ItemFocus(index: int)
      requires Valid() && -1 <= index < length
      modifies this
      ensures Valid()
      ensures activeIndex == index
      ensures cells == old(cells) && emitted == old(emitted)
    {
      activeIndex := index;
    }

    /** `onInputBlur`: no cell is active any more. */
    method InputBlur()
      requires Valid()
      modifies this
      ensures Valid()
      ensures activeIndex == -1
      ensures cells == old(cells) && emitted == old(emitted)
    {
      activeIndex := -1;
    }

    /** `onInputChange` with the raw text of the hidden input: a string of exactly
        `length` digits replaces every cell at once and is itself the emitted value;
        anything else changes nothing. The active index is left as it is. */
    method InputChange(raw: string)
      requires Valid()
      modifies this
      ensures Valid()
      ensures activeIndex == old(activeIndex)
      ensures IsCode(raw, length) ==>
        cells == Split(raw) && Join(cells) == raw && emitted == old(emitted) + [raw]
      ensures !IsCode(raw, length) ==> cells == old(cells) && emitted == old(emitted)
    {
      var isCode := IsCode(raw, length);
      if !isCode {
        return;
      }
      SplitCodeCells(raw, length);
      JoinSplit(raw);
      SetValue(Split(raw));
    }

    /** `onInputKeyUp` with the event's `key` and `keyCode`. */
    method KeyUp(key: string, keyCode: int)
      requires Valid()
      modifies this
      ensures Valid()
      // A delete key clears the active cell and steps back, stopping at cell 0.
      ensures IsDeleting(keyCode) && old(activeIndex) >= 0 ==>
        cells == old(cells)[old(activeIndex) := placeholder]
        && activeIndex == (if old(activeIndex) > 0 then old(activeIndex) - 1 else 0)
      // A numeric key fills the active cell and moves on, or leaves the last cell.
      ensures !IsDeleting(keyCode) && IsNumericKey(key) && old(activeIndex) >= 0 ==>
        cells == old(cells)[old(activeIndex) := key]
        && activeIndex == (if old(activeIndex) < length - 1 then old(activeIndex) + 1 else -1)
      // With no active cell the write hits no cell; a numeric key still moves to cell 0.
      ensures (IsDeleting(keyCode) || IsNumericKey(key)) && old(activeIndex) == -1 ==>
        cells == old(cells)
        && activeIndex == (if IsDeleting(keyCode) || length == 0 then -1 else 0)
      // Every accepted key emits the new join once.
      ensures IsDeleting(keyCode) || IsNumericKey(key) ==> emitted == old(emitted) + [Join(cells)]
      // Any other key changes nothing.
      ensures !IsDeleting(keyCode) && !IsNumericKey(key) ==>
        cells == old(cells) && activeIndex == old(activeIndex) && emitted == old(emitted)
    {
      var newValue := cells;
      var nextIndex := activeIndex + 1;
      var prevIndex := activeIndex - 1;
      var isLast := nextIndex == length;
      var isDeleting := IsDeleting(keyCode);

      // The "keep items focus in sync" call `onItemFocus(activeIndex)` only builds the
      // curried handler and drops it, so it changes nothing and has no counterpart.

      if isDeleting {
        newValue := WriteCell(newValue, activeIndex, placeholder);
        SetValue(newValue);
        if activeIndex > 0 {
          activeIndex := prevIndex;
        }
        return;
      }

      if !IsNumericKey(key) {
        return;
      }

      newValue := WriteCell(newValue, activeIndex, key);
      SetValue(newValue);
      if !isLast {
        activeIndex := nextIndex;
        return;
      }
      activeIndex := -1;
    }
  }

  /** Typing on four cells with the default placeholder: the mount emits four
      placeholders; focus the first cell, then type 1 and 2. */
  method ScenarioTyping() returns (w: VerificationCode)
    ensures fresh(w) && w.Valid() && w.length == 4 && w.placeholder == "·"
    ensures w.cells == ["1", "2", "·", "·"] && w.activeIndex == 2
    ensures w.emitted[|w.emitted| - 1] == "12··"
  {
    w := new VerificationCode(4, "·");
    JoinFill(4, '·');
    assert seq(4, _ => '·') == "····";
    assert w.emitted == ["····"];

    w.ItemFocus(0);
    var before := w.cells;
    SingleKeyNumeric('1');
    w.KeyUp("1", 49);
    assert w.cells == ["1", "·", "·", "·"] && w.activeIndex == 1;
    JoinUpdate(before, 0, "1");
    assert Join(w.cells) == "1···";

    before := w.cells;
    SingleKeyNumeric('2');
    w.KeyUp("2", 50);
    assert w.cells == ["1", "2", "·", "·"] && w.activeIndex == 2;
    JoinUpdate(before, 1, "2");
  }

  /** Continuing: Backspace on cell 2 clears it and steps back to cell 1; a letter
      changes nothing. */
  method ScenarioDelete() returns (w: VerificationCode)
    ensures fresh(w) && w.Valid() && w.length == 4
    ensures w.cells == ["1", "2", "·", "·"] && w.activeIndex == 1
    ensures w.emitted[|w.emitted| - 1] == "12··"
  {
    w := ScenarioTyping();
    w.KeyUp("Backspace", BACKSPACE);
    assert w.cells == ["1", "2", "·", "·"] && w.activeIndex == 1;

    var emittedBefore := w.emitted;
    SingleKeyNumeric('a');
    w.KeyUp("a", 65);
    assert w.emitted == emittedBefore;
  }

  /** Autofill afterwards: 5678 replaces every cell, 12a4 and 123 are rejected without
      a change. */
  method ScenarioAutofill()
  {
    var w := ScenarioDelete();
    assert IsCode("5678", 4);
    w.InputChange("5678");
    assert w.cells == ["5", "6", "7", "8"] && w.activeIndex == 1;
    assert w.emitted[|w.emitted| - 1] == "5678";

    var emittedBefore := w.emitted;
    assert !IsCode("12a4", 4) && !IsCode("123", 4);
    w.InputChange("12a4");
    w.InputChange("123");
    assert w.cells == ["5", "6", "7", "8"] && w.emitted == emittedBefore;
  }
}
