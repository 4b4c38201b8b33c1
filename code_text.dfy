/** The text-level pieces of the one-time-code widget: the character tests behind
    its numeric-key check, the anchored fixed-length digit pattern used for autofill,
    and the join/split conversions between the cell array and a single string. */
module CodeText {

  /** One character of the class `[0-9]`. */
  predicate IsDigit(c: char) {
    '0' <= c <= '9'
  }

  /** A character that JavaScript's string-to-number conversion strips as white space
      (the StrWhiteSpaceChar production: white space and line terminators). */
  predicate IsJsWhiteSpace(c: char) {
    c == '\t' || c == '\n' || c == '\U{B}' || c == '\U{C}' || c == '\r' || c == ' '
    || c == '\U{A0}' || c == '\U{1680}' || ('\U{2000}' <= c <= '\U{200A}')
    || c == '\U{2028}' || c == '\U{2029}' || c == '\U{202F}' || c == '\U{205F}'
    || c == '\U{3000}' || c == '\U{FEFF}'
  }

  /** The value of a digit character. */
  function DigitValue(c: char): nat
    requires IsDigit(c)
  {
    (c as int) - ('0' as int)
  }

  /** The non-negative integer spelt by a string of decimal digits. */
  function DecimalValue(s: string): nat
    requires forall i :: 0 <= i < |s| ==> IsDigit(s[i])
  {
    if s == [] then 0 else DecimalValue(s[..|s| - 1]) * 10 + DigitValue(s[|s| - 1])
  }

  /** Leading and trailing JavaScript white space removed. */
  function TrimStart(s: string): string
  {
    if s != [] && IsJsWhiteSpace(s[0]) then TrimStart(s[1..]) else s
  }

  function TrimEnd(s: string): string
  {
    if s != [] && IsJsWhiteSpace(s[|s| - 1]) then TrimEnd(s[..|s| - 1]) else s
  }

  /** The outcome of JavaScript's unary `+` on a string. A number is kept as the exact
      integer, where JavaScript rounds it to the nearest double; only the NaN case
      matters to the keystroke interpreter. */
  datatype Number = NaN | Num(value: nat)

  /** `+s` for the unsigned decimal integers: surrounding white space is dropped, an
      empty remainder is 0, a run of digits is its decimal value, and everything else
      is NaN here. */
  function ToNumber(s: string): Number
  {
    var t := TrimEnd(TrimStart(s));
    if forall i :: 0 <= i < |t| ==> IsDigit(t[i]) then Num(DecimalValue(t)) else NaN
  }

  /** The keystroke interpreter's test `!Number.isNaN(+key)`. */
  predicate IsNumericKey(key: string)
  {
    ToNumber(key) != NaN
  }

  /** The anchored pattern `^[0-9]{n}$`: `raw` is `n` repetitions of the class `[0-9]`
      and nothing else. */
  predicate IsCode(raw: string, n: nat)
    decreases n
  {
    if n == 0 then raw == []
    else raw != [] && IsDigit(raw[0]) && IsCode(raw[1..], n - 1)
  }

  /** `cells.join('')`: the cells concatenated in order. */
  function Join(cells: seq<string>): string
  {
    if cells == [] then "" else cells[0] + Join(cells[1..])
  }

  /** `raw.split('')`: one single-character cell per character of `raw`. */
  function Split(raw: string): (cells: seq<string>)
    ensures |cells| == |raw|
  {
    seq(|raw|, i requires 0 <= i < |raw| => [raw[i]])
  }

  /** `length` copies of one cell value, as `new Array(length).fill(placeholder)`. */
  function Fill(length: nat, cell: string): (cells: seq<string>)
    ensures |cells| == length
  {
    seq(length, _ => cell)
  }

  /** Every cell holds exactly one character. */
  predicate AllSingles(cells: seq<string>) {
    forall k :: 0 <= k < |cells| ==> |cells[k]| == 1
  }

  /** The digit pattern holds exactly of the strings of `n` characters that are all digits. */
  lemma {:induction false} IsCodeIff(raw: string, n: nat)
    ensures IsCode(raw, n) <==> (|raw| == n && forall i :: 0 <= i < |raw| ==> IsDigit(raw[i]))
    decreases n
  {
    if n > 0 && raw != [] {
      IsCodeIff(raw[1..], n - 1);
      if forall i :: 0 <= i < |raw| ==> IsDigit(raw[i]) {
        assert forall i :: 0 <= i < |raw[1..]| ==> IsDigit(raw[1..][i]) by {
          forall i | 0 <= i < |raw[1..]| ensures IsDigit(raw[1..][i]) {
            assert raw[1..][i] == raw[i + 1];
          }
        }
      }
      if IsCode(raw, n) {
        forall i | 0 <= i < |raw| ensures IsDigit(raw[i]) {
          if i > 0 { assert raw[i] == raw[1..][i - 1]; }
        }
      }
    }
  }

  /** A one-character key is numeric exactly when it is a digit or JavaScript white
      space; a digit key stands for its own value and a white-space key for 0. So every
      letter and punctuation key is ignored. */
  lemma SingleKeyNumeric(c: char)
    ensures IsNumericKey([c]) <==> IsDigit(c) || IsJsWhiteSpace(c)
    ensures IsDigit(c) ==> ToNumber([c]) == Num(DigitValue(c))
    ensures IsJsWhiteSpace(c) ==> ToNumber([c]) == Num(0)
  {
    if IsJsWhiteSpace(c) {
      assert TrimStart([c]) == TrimStart([c][1..]) == [];
    } else {
      assert TrimStart([c]) == [c];
      assert TrimEnd([c]) == [c];
      assert DecimalValue([c][..0]) == 0;
    }
  }

  /** A key made of digits only is numeric and stands for its decimal value. */
  lemma DigitKeyNumeric(key: string)
    requires forall i :: 0 <= i < |key| ==> IsDigit(key[i])
    ensures ToNumber(key) == Num(DecimalValue(key)) && IsNumericKey(key)
  {
  }

  /** Splitting and then joining gives back the original string. */
  lemma {:induction false} JoinSplit(raw: string)
    ensures Join(Split(raw)) == raw
    decreases |raw|
  {
    if raw != [] {
      assert Split(raw)[1..] == Split(raw[1..]);
      JoinSplit(raw[1..]);
      assert Split(raw)[0] == [raw[0]];
      assert raw == [raw[0]] + raw[1..];
    }
  }

  /** When every cell holds one character, the joined value has one character per cell
      and its `k`-th character is the content of cell `k`. */
  lemma {:induction false} JoinOfSingles(cells: seq<string>)
    requires AllSingles(cells)
    ensures |Join(cells)| == |cells|
    ensures forall k :: 0 <= k < |cells| ==> Join(cells)[k] == cells[k][0]
    decreases |cells|
  {
    if cells != [] {
      assert AllSingles(cells[1..]) by {
        forall k | 0 <= k < |cells[1..]| ensures |cells[1..][k]| == 1 {
          assert cells[1..][k] == cells[k + 1];
        }
      }
      JoinOfSingles(cells[1..]);
      forall k | 0 <= k < |cells| ensures Join(cells)[k] == cells[k][0] {
        if k > 0 { assert cells[1..][k - 1] == cells[k]; }
      }
    }
  }

  /** Writing a one-character value into cell `i` writes that character at position `i`
      of the joined value and leaves every other position as it was. */
  lemma JoinUpdate(cells: seq<string>, i: nat, v: string)
    requires AllSingles(cells) && i < |cells| && |v| == 1
    ensures AllSingles(cells[i := v]) && |Join(cells)| == |cells|
    ensures Join(cells[i := v]) == Join(cells)[i := v[0]]
  {
    var updated := cells[i := v];
    JoinOfSingles(cells);
    JoinOfSingles(updated);
  }

  /** Joining `n` copies of a one-character placeholder gives that character `n` times. */
  lemma JoinFill(n: nat, g: char)
    ensures Join(Fill(n, [g])) == seq(n, _ => g)
  {
    JoinOfSingles(Fill(n, [g]));
  }

  /** The cells produced from a string matching the digit pattern are single digits,
      each of them a numeric key. */
  lemma SplitCodeCells(raw: string, n: nat)
    requires IsCode(raw, n)
    ensures |Split(raw)| == n && AllSingles(Split(raw))
    ensures forall k :: 0 <= k < n ==> IsDigit(Split(raw)[k][0]) && IsNumericKey(Split(raw)[k])
  {
    IsCodeIff(raw, n);
    forall k | 0 <= k < n ensures IsNumericKey(Split(raw)[k]) {
      assert Split(raw)[k] == [raw[k]];
      SingleKeyNumeric(raw[k]);
    }
  }
}
