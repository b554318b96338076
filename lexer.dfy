/**
 * The lexer of src/renrs_lang/lexer.rs: an object that owns its input and
 * moves a cursor over it one character at a time. Every method is proved
 * against the functions of module Scanner.
 */
module Lexing {
  import opened Wrappers
  import opened LangErr
  import opened Position
  import opened Scanner

  class Lexer {
    /** The source characters, never changed after construction. */
    const input: seq<char>
    /** Where the cursor is: `position.raw` characters have been consumed. */
    var position: Pos
    /** The most recently read character; none before the first read and after the end. */
    var ch: Option<char>

    /**
     * The lexer's invariant: the cursor stays within the input, the position
     * is the one reached by consuming `input[..position.raw]`, and `ch` is the
     * last character consumed, or none only before the first read or at the end.
     */
    ghost predicate Valid()
      reads this
    {
      position.raw <= |input| &&
      position == PosAt(input, position.raw) &&
      (ch.Some? ==> 1 <= position.raw && ch.value == input[position.raw - 1]) &&
      (ch.None? ==> position.raw == 0 || position.raw == |input|)
    }

    /** The cursor part of the state. */
    function Cur(): Cursor
      reads this
    {
      Cursor(position.raw, ch)
    }

    /** A lexer over `source`, at the default position, with no current character. */
    constructor(source: string)
      ensures Valid()
      ensures input == source && position == DefaultPos && ch == None
    {
      input := source;
      position := DefaultPos;
      ch := None;
    }

    /** Consumes the next character, if any, and makes it the current one. */
    method ReadChar() returns (r: Option<char>)
      requires Valid()
      modifies this
      ensures Valid()
      ensures r == old(PeakNextChar()) && ch == r
      ensures r.Some? ==> position == old(position).Advance(r.value == '\n')
      ensures r.None? ==> position == old(position)
      ensures Cur() == StoppedAt(input, old(position.raw))
    {
      if position.raw + 1 > |input| {
        ch := None;
        return None;
      }
      ch := Some(input[position.raw]);
      position := position.Advance(ch == Some('\n'));
      r := ch;
    }

    /** The character the next `ReadChar` returns, without consuming it. */
    function PeakNextChar(): (r: Option<char>)
      reads this
      ensures r.Some? <==> position.raw < |input|
      ensures r.Some? ==> r.value == input[position.raw]
    {
      if position.raw + 1 > |input| then None else Some(input[position.raw])
    }

    /**
     * The current character is a space or a tab. Such a character starts
     * no token: it is not an operator, bracket or line end, nor the start
     * of an identifier or number.
     */
    predicate IsWhitespace(): (r: bool)
      reads this
      ensures r <==> ch.Some? && Blank(ch.value)
      ensures r ==> SingleToken(ch.value).None? && !IsIdentChar() && !IsNumChar()
    {
      match ch
      case Some(c) => c == ' ' || c == '\t'
      case None => false
    }

    /**
     * The current character is a letter or '_', which starts an identifier
     * and so is never taken as part of a number.
     */
    predicate IsIdentChar(): (r: bool)
      reads this
      ensures r <==> ch.Some? && IdentStart(ch.value)
      ensures r ==> !IsNumChar()
    {
      ch.Some? && (Alphabetic(ch.value) || ch.value == '_')
    }

    /**
     * The current character is a letter or a digit. Together with
     * `IsIdentChar` it admits exactly the characters that continue an
     * identifier.
     */
    predicate IsAlphanumeric(): (r: bool)
      reads this
      ensures r <==> ch.Some? && Alphanumeric(ch.value)
      ensures (IsIdentChar() || r) <==> ch.Some? && IdentPart(ch.value)
    {
      ch.Some? && (Alphabetic(ch.value) || Numeric(ch.value))
    }

    /** The current character is a digit or '.', the characters of a numeric run. */
    predicate IsNumChar(): (r: bool)
      reads this
      ensures r <==> ch.Some? && NumPart(ch.value)
      ensures r ==> ch.Some? && SingleToken(ch.value).None?
    {
      ch.Some? && (Numeric(ch.value) || ch.value == '.')
    }

    /**
     * Collects the identifier that starts at the current character: the
     * maximal run of identifier characters. The character that ends the run
     * is read too. It never fails.
     */
    method ReadIdent() returns (r: Result<seq<char>, CompilationErr>)
      requires Valid()
      modifies this
      ensures Valid()
      ensures !old(IsIdentChar()) ==> r == Ok([]) && Cur() == old(Cur())
      ensures old(IsIdentChar()) ==>
                var e := RunEnd(input, old(position.raw), IdentParts);
                r == Ok(input[old(position.raw) - 1 .. e]) && Cur() == StoppedAt(input, e)
    {
      var ident: seq<char> := [];
      var canBeNum := false;
      ghost var go := IsIdentChar();
      ghost var start: int := position.raw - 1;
      ghost var e: int := if go then RunEnd(input, position.raw, IdentParts) else 0;
      ghost var idx: int := start;
      while IsIdentChar() || (canBeNum && IsAlphanumeric())
        invariant Valid()
        invariant !go ==> ident == [] && !canBeNum && Cur() == old(Cur())
        invariant go ==> 0 <= start <= idx <= e <= |input|
        invariant go ==> start + 1 == old(position.raw) && e == RunEnd(input, start + 1, IdentParts)
        invariant go ==> ident == input[start..idx]
        invariant go ==> Cur() == StoppedAt(input, idx)
        invariant go ==> (canBeNum <==> start < idx)
        decreases if go then e - idx else 0
      {
        // The guard implies a current character, so the Unreachable error is never raised.
        assert go;
        assert idx < |input| && ch == Some(input[idx]) && position.raw == idx + 1;
        assert IdentPart(input[idx]);
        assert idx < e;
        assert input[start..idx + 1] == input[start..idx] + [input[idx]];
        ident := ident + [ch.value];
        var _ := ReadChar();
        canBeNum := true;
        idx := idx + 1;
      }
      assert go ==> idx == e;
      r := Ok(ident);
    }

    /**
     * Collects the maximal run of digits and '.' that starts at the current
     * character, reading the character that ends it too, and rejects a run
     * with more than one '.' or the lone "." as an invalid number.
     */
    method ReadNum() returns (r: Result<seq<char>, CompilationErr>)
      requires Valid()
      modifies this
      ensures Valid()
      ensures !old(IsNumChar()) ==> r == Ok([]) && Cur() == old(Cur())
      ensures old(IsNumChar()) ==>
                var e := RunEnd(input, old(position.raw), NumParts);
                var num := input[old(position.raw) - 1 .. e];
                Cur() == StoppedAt(input, e) &&
                (if MalformedNumber(num) then r.Err? && r.error.kind == InvalidNumber else r == Ok(num))
    {
      var num: seq<char> := [];
      ghost var go := IsNumChar();
      ghost var start: int := position.raw - 1;
      ghost var e: int := if go then RunEnd(input, position.raw, NumParts) else 0;
      ghost var idx: int := start;
      while IsNumChar()
        invariant Valid()
        invariant !go ==> num == [] && Cur() == old(Cur())
        invariant go ==> 0 <= start <= idx <= e <= |input|
        invariant go ==> start + 1 == old(position.raw) && e == RunEnd(input, start + 1, NumParts)
        invariant go ==> num == input[start..idx]
        invariant go ==> Cur() == StoppedAt(input, idx)
        invariant go ==> (start < idx || IsNumChar())
        decreases if go then e - idx else 0
      {
        // The guard implies a current character, so the Unreachable error is never raised.
        assert go;
        assert idx < |input| && ch == Some(input[idx]) && position.raw == idx + 1;
        assert NumPart(input[idx]);
        assert idx < e;
        assert input[start..idx + 1] == input[start..idx] + [input[idx]];
        num := num + [ch.value];
        var _ := ReadChar();
        idx := idx + 1;
      }
      assert go ==> idx == e;
      if MalformedNumber(num) {
        r := Err(CompilationErr(InvalidNumber, num + " isn't a valid number"));
      } else {
        r := Ok(num);
      }
    }

    /** Reads past the run of spaces and tabs that starts at the current character. */
    method TakeWhitespace()
      requires Valid()
      modifies this
      ensures Valid()
      ensures !old(IsWhitespace()) ==> Cur() == old(Cur())
      ensures old(IsWhitespace()) ==> Cur() == StoppedAt(input, RunEnd(input, old(position.raw), Blanks))
    {
      ghost var go := IsWhitespace();
      ghost var e: int := if go then RunEnd(input, position.raw, Blanks) else 0;
      ghost var idx: int := position.raw - 1;
      while IsWhitespace()
        invariant Valid()
        invariant !go ==> Cur() == old(Cur())
        invariant go ==> 0 <= idx <= e <= |input|
        invariant go ==> e == RunEnd(input, old(position.raw), Blanks)
        invariant go ==> old(position.raw) - 1 <= idx && Cur() == StoppedAt(input, idx)
        invariant go ==> (idx < e <==> IsWhitespace())
        decreases if go then e - idx else 0
      {
        var _ := ReadChar();
        idx := idx + 1;
      }
    }

    /**
     * Produces the next token with the position of its first character, or
     * none at the end of the input or after a malformed number.
     */
    method Next() returns (r: Option<Item>)
      requires Valid()
      modifies this
      ensures Valid()
      ensures Step(r, Cur()) == NextSpec(input, old(position.raw))
    {
      ghost var k := position.raw;
      var _ := ReadChar();
      ghost var read := Cur();
      ghost var blank := IsWhitespace();
      TakeWhitespace();
      ghost var j := RunEnd(input, k, Blanks);
      SkipsBlanks(input, k, read, blank, Cur());
      ghost var skipped := Cur();
      var pos := position;
      r := Dispatch(pos, j);
      NextSpecComposes(input, k, skipped, r, Cur());
    }

    /**
     * The `match` on the current character that ends `Next`: none at the
     * end of the input, otherwise the token that starts at the current
     * character, at index `at`, whose position `pos` was snapshot before.
     */
    method Dispatch(pos: Pos, ghost at: nat) returns (r: Option<Item>)
      requires Valid() && pos == position && (ch.Some? ==> position.raw == at + 1)
      modifies this
      ensures Valid()
      ensures old(ch).None? ==> r == None && Cur() == old(Cur())
      ensures old(ch).Some? ==> Step(r, Cur()) == Classify(input, at)
    {
      match ch
      case Some(c) =>
        var single := SingleToken(c);
        if single.Some? {
          r := Some(Ok((single.value, pos)));
        } else {
          r := NextWord(c, pos, at);
        }
      case None =>
        r := None;
    }

    /**
     * The fallback branch of `Next`: an identifier, a number, or an invalid
     * token for the current character `c`, at index `j`, whose position
     * `pos` was snapshot before.
     */
    method NextWord(c: char, pos: Pos, ghost j: nat) returns (r: Option<Item>)
      requires Valid() && ch == Some(c) && pos == position && position.raw == j + 1
      requires SingleToken(c).None?
      modifies this
      ensures Valid()
      ensures Step(r, Cur()) == Classify(input, j)
    {
      assert position.raw - 1 == j;
      if IsIdentChar() {
        ClassifyIdent(input, j);
        var ident := ReadIdent();
        r := if ident.Ok? then Some(Ok((Ident(ident.value), pos))) else None;
      } else if IsNumChar() {
        ClassifyNum(input, j);
        var num := ReadNum();
        r := if num.Ok? then Some(Ok((Num(num.value), pos))) else None;
      } else {
        r := Some(Ok((Invalid(c), pos)));
      }
    }
  }
}
