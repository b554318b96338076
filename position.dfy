/** Source positions as the lexer in src/renrs_lang/lexer.rs keeps them. */
module Position {
  import opened Wrappers

  /**
   * A position: an optional file name, the `line` and `column` counters and
   * `raw`, the number of characters consumed so far.
   */
  datatype Pos = Pos(file: Option<string>, line: nat, column: nat, raw: nat)
  {
    /**
     * Records one consumed character. As the lexer is written, a newline
     * bumps `column` and every other character bumps `line`; `raw` always
     * grows by one and `file` is never touched.
     */
    function Advance(newLine: bool): (p: Pos)
      ensures p.raw == raw + 1 && p.file == file
      ensures p.line + p.column == line + column + 1
      ensures newLine ==> p.line == line && p.column == column + 1
      ensures !newLine ==> p.line == line + 1 && p.column == column
      ensures line + column == raw ==> p.line + p.column == p.raw
    {
      if newLine then Pos(file, line, column + 1, raw + 1)
      else Pos(file, line + 1, column, raw + 1)
    }
  }

  /** The all-zero position a fresh lexer starts from. */
  const DefaultPos: Pos := Pos(None, 0, 0, 0)

  /** Number of occurrences of `c` in `w`. */
  function Occurrences(w: seq<char>, c: char): (n: nat)
    ensures n <= |w|
  {
    if |w| == 0 then 0
    else Occurrences(w[..|w| - 1], c) + (if w[|w| - 1] == c then 1 else 0)
  }

  /**
   * The position reached from `DefaultPos` after consuming the first `k`
   * characters of `s`, one `Advance` per character. `line + column == raw`
   * holds all along.
   */
  function PosAt(s: seq<char>, k: nat): (p: Pos)
    requires k <= |s|
    ensures p.raw == k && p.file == None
    ensures p.line + p.column == p.raw
  {
    if k == 0 then DefaultPos else PosAt(s, k - 1).Advance(s[k - 1] == '\n')
  }

  /**
   * The counters in closed form: `column` counts the newlines consumed and
   * `line` counts every other character.
   */
  lemma {:induction false} PosAtCounts(s: seq<char>, k: nat)
    requires k <= |s|
    ensures PosAt(s, k).column == Occurrences(s[..k], '\n')
    ensures PosAt(s, k).line == k - Occurrences(s[..k], '\n')
  {
    if k > 0 {
      PosAtCounts(s, k - 1);
      assert s[..k][..k - 1] == s[..k - 1];
    }
  }
}
