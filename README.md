# One-time-code input: a verified model of its state machine

The widget shows `length` single-character cells for a verification code. All input
arrives at one hidden text input. The component keeps two pieces of state:

- `value`: the cell array, `length` strings, each the placeholder or an accepted key.
- `activeIndex`: the cell that receives the next keystroke, or `-1` for none.

Four handlers change this state. A `useEffect` passes `value.join('')` to the `onChange`
callback every time `value` is replaced.

Two files make up the model:

- `code_text.dfy` (module `CodeText`) holds the pure pieces. `ToNumber` models JavaScript's
  unary `+` on a key string, and `IsNumericKey` models the test `!Number.isNaN(+key)`.
  `IsCode` models the anchored pattern `^[0-9]{length}$` as `length` repetitions of
  `[0-9]`. `Join` and `Split` model `join('')` and `split('')`. `Fill` models
  `new Array(length).fill(placeholder)`. The lemmas connect these pieces.
- `code_input.dfy` (module `CodeInput`) holds the class `VerificationCode`. Its
  fields are the configured `length` (default 4) and `placeholder` (default `·`), the
  `cells`, the `activeIndex`, and `emitted`, the list of every value passed to
  `onChange`. Each handler is a method that runs as one atomic transition. `Valid()` is
  the invariant that every handler keeps:
  - the cell count is `length`;
  - the index lies in `[-1, length-1]`;
  - every cell is the placeholder or a key that passed the numeric test;
  - the last emitted value is `Join(cells)`.

  Three client methods (`ScenarioTyping`, `ScenarioDelete`, `ScenarioAutofill`) prove a
  walk-through with four cells from the handlers' contracts alone.

## Edge behaviour

- **A keystroke with no active cell.** The write to `newValue[-1]` sets a property that
  is not an array element, so no cell changes. `setValue` still runs, so the unchanged
  value is emitted again. A numeric key then moves the index to `0`, because
  `nextIndex` is `0` and that is not the last cell. A delete key leaves the index at `-1`.
- **Autofill.** Autofill leaves `activeIndex` as it was; the code only calls
  `blurItem(activeIndex)`.
- **Repeated emission.** Every accepted keystroke passes a new array to `setValue`, so
  a value is emitted even when the contents did not change, for example when deleting
  a cell that already holds the placeholder.
- **The focus refresh at the start of a keystroke.** `onItemFocus` is curried, so the
  call `onItemFocus(activeIndex)` only builds a handler and discards it; it changes
  nothing.
- **The walk-through.** `ScenarioTyping` focuses cell 0 first, because at index -1 the
  first digit only moves the index to 0.
- **White-space keys.** `+" "` is `0`, so a space (or any other JavaScript white-space
  character) passes the numeric test and is written into the cell like a digit.

## Model

| member | source | states |
|---|---|---|
| CodeText.ToNumber | src/index.tsx:70 | defined as `+s` on unsigned decimal integers: surrounding JavaScript white space is dropped, an empty remainder is 0, a run of digits is its exact decimal value (JavaScript rounds that to a double, which never makes it NaN), anything else NaN |
| CodeText.IsNumericKey | src/index.tsx:70 | defined as the negation of the NaN test on `ToNumber(key)` |
| CodeText.SingleKeyNumeric | src/index.tsx:70 | a one-character key passes the numeric test iff it is a digit or JavaScript white space; a digit stands for its value and white space for 0, so letters and punctuation are ignored |
| CodeText.DigitKeyNumeric | src/index.tsx:70 | a key made only of digits passes the numeric test; its model value is the exact decimal integer, which JavaScript would round to a double |
| CodeText.IsCode | src/index.tsx:31 | defined as `n` anchored repetitions of the class `[0-9]` and nothing else |
| CodeText.IsCodeIff | src/index.tsx:31 | the code pattern holds exactly (both directions) of the strings of `length` characters that are all decimal digits |
| CodeText.Join | src/index.tsx:104 | defined as the cells concatenated in order with an empty separator |
| CodeText.Split | src/index.tsx:94 | one single-character cell per character; as many cells as characters |
| CodeText.Fill | src/index.tsx:21 | `length` copies of the placeholder |
| CodeText.JoinSplit | src/index.tsx:94-104 | splitting the autofilled string into cells and joining them gives back the same string |
| CodeText.JoinOfSingles | src/index.tsx:103-105 | when every cell holds one character, the emitted value has exactly one character per cell, and its k-th character is cell k |
| CodeText.JoinUpdate | src/index.tsx:75-76 | writing a one-character key into cell i changes the emitted value at position i only, to that key |
| CodeText.JoinFill | src/index.tsx:19-22 | the value emitted at mount, with a one-character placeholder, is that placeholder repeated `length` times |
| CodeText.SplitCodeCells | src/index.tsx:91-94 | a string that matches the code pattern splits into `length` cells, each a single digit that passes the numeric test |
| CodeInput.IsDeleting | src/index.tsx:48-49 | defined as the key code being 46 (Delete) or 8 (Backspace) |
| CodeInput.WriteCell | src/index.tsx:57 | writing a copy of the cells at a cell index replaces only that cell; at index -1 no cell changes; the length is kept |
| CodeInput.VerificationCode.constructor | src/index.tsx:18-22 | mounting (defaults 4 cells and `·`) gives `length` placeholder cells and index -1, emits their join once, and establishes the invariant |
| CodeInput.VerificationCode.SetValue | src/index.tsx:103-105 | committing acceptable cells keeps the invariant, emits the join of the new cells exactly once and leaves the index alone |
| CodeInput.VerificationCode.ItemFocus | src/index.tsx:37-40 | focusing cell k makes k the active index; the cells and the emitted values are untouched |
| CodeInput.VerificationCode.InputBlur | src/index.tsx:98-101 | blur sets the active index to -1; the cells and the emitted values are untouched |
| CodeInput.VerificationCode.InputChange | src/index.tsx:89-96 | a code-shaped string replaces every cell with its characters, and the value emitted is that string; any other string changes nothing and emits nothing; the index is kept |
| CodeInput.VerificationCode.KeyUp | src/index.tsx:42-87 | a delete key (8 or 46, tested first) puts the placeholder in the active cell i and moves the index to i-1, or keeps it at 0; a numeric key writes itself into cell i and moves the index to i+1, or to -1 after the last cell; with index -1 no cell changes; every accepted key emits the new join once; any other key changes nothing; the invariant is kept |

## Left out

- Rendering: the JSX, the global CSS custom properties (src/index.tsx:109-117) and the styled `Container`, `Input` and `Item`. These are presentation only, and `./styles` is not part of this model.
- DOM focus side effects are not modelled. These are `focusItem`, `blurItem`, `getItem`, `codeInputRef.current.focus()` and `.blur()`, and clearing the hidden input's text (src/index.tsx:74). Some of them fire focus events that re-enter the handlers. `focusItem(k)` (src/index.tsx:62, :80) moves focus to an item, which blurs the hidden input (`onInputBlur`, index -1) and then focuses the item (`onItemFocus(k)`, index k). `codeInputRef.current.blur()` (src/index.tsx:84) runs `onInputBlur` (index -1). On each path the last index update is the value the model gives, so the model folds these re-entries into the handler's result.
- `getItem(-1)` throws in the DOM calls that reach it. These are `blurItem(activeIndex)` at src/index.tsx:95 and :100 when the index is -1, and `getItem(activeIndex)` at :85 when `length` is 0. At :95 and :100 every state update comes before the throwing call. At :85-86 `setActiveIndex(-1)` comes after it, but with `length` 0 the index is already -1, so the state is the same. The model applies the updates and ignores the throw.
- React scheduling is not modelled. Each handler is one atomic transition over the state it reads. The effect is folded into `SetValue`, which records the emitted value in `emitted`. The `onChange` callback is external, and the model records its arguments instead of calling it.
- Arrow keys: `ARROW_LEFT` and `ARROW_RIGHT` (src/index.tsx:7-8) are declared but never used, so there is no arrow navigation to model.
- ToNumber: weaker than JavaScript's `+s` in two ways. First, it gives NaN for signs, a decimal point, exponents, hexadecimal, octal and binary prefixes and `Infinity`, which JavaScript reads as numbers. Second, its value is the exact integer, where JavaScript rounds to the nearest double: `+"12345678901234567891"` is 12345678901234567000, and a long enough digit run is `Infinity`. Whether the result is NaN, which is all that src/index.tsx:70 uses, is exact for the empty string, for one-character strings and for digit runs with white space around them. Keyboard `key` values are single characters or key names such as `Enter`, and no key name is numeric in either definition.
- `length` is a `nat`: a non-integer or negative `length` is not modelled, and `new Array` would reject the latter. `Split` works on Dafny characters, not UTF-16 code units. The two agree on the digit strings that the code pattern admits.
- `length` and `placeholder` are fixed when the component mounts. The component reads them again on every render: the pattern at src/index.tsx:31, `isLast` at :47 and the placeholder written at :57. The cells take `length` only at mount (:20-22), and the code does not handle a change of either prop, which would break the cell-count and placeholder clauses of `Valid()`. The model does not cover a parent re-rendering with new props.
