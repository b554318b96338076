/**
 * The lexer of src/renrs_lang/lexer.rs as a function of its input and of the
 * number of characters already consumed. `NextSpec` says what one call of
 * `next()` produces and where it leaves the cursor; the class in lexer.dfy
 * is proved to behave exactly so.
 */
module Scanner {
  import opened Wrappers
  import opened LangErr
  import opened Position

  /** The token shapes the lexer produces. */
  datatype Token =
    | Assign(c: char)
    | Plus(c: char)
    | Minus(c: char)
    | LCurly(c: char)
    | RCurly(c: char)
    | LParen(c: char)
    | RParen(c: char)
    | EndOfLine
    | Num(digits: seq<char>)
    | Ident(name: seq<char>)
    | Invalid(c: char)

  /** What one successful pull carries, or the error of a failed one. */
  type Item = Result<(Token, Pos), CompilationErr>

  // Character classes. Only ASCII letters and digits are alphabetic and numeric here.

  predicate Alphabetic(c: char) { 'a' <= c <= 'z' || 'A' <= c <= 'Z' }

  predicate Numeric(c: char) { '0' <= c <= '9' }

  predicate Alphanumeric(c: char) { Alphabetic(c) || Numeric(c) }

  /** Horizontal whitespace, skipped before every token. */
  predicate Blank(c: char) { c == ' ' || c == '\t' }

  /** A character that starts an identifier. */
  predicate IdentStart(c: char) { Alphabetic(c) || c == '_' }

  /** A character that continues an identifier. */
  predicate IdentPart(c: char) { IdentStart(c) || Alphanumeric(c) }

  /** A character of a numeric run. */
  predicate NumPart(c: char) { Numeric(c) || c == '.' }

  /** A numeric run `read_num` rejects: more than one '.', or the lone ".". */
  predicate MalformedNumber(num: seq<char>): (r: bool)
    ensures r ==> |num| >= 1 && Occurrences(num, '.') >= 1
  {
    Occurrences(num, '.') > 1 || (|num| == 1 && num[0] == '.')
  }

  /** The seven operator and bracket characters. */
  predicate OperatorChar(c: char)
  {
    c == '=' || c == '+' || c == '-' || c == '{' || c == '}' || c == '(' || c == ')'
  }

  /** The characters that end a line. */
  predicate LineEndChar(c: char)
  {
    c == '\n' || c == ';'
  }

  /**
   * The token a character makes on its own: the seven operators and
   * brackets carry that character, '\n' and ';' end a line.
   */
  function SingleToken(c: char): (t: Option<Token>)
    ensures t.Some? <==> OperatorChar(c) || LineEndChar(c)
    ensures t.Some? ==> (t.value == EndOfLine <==> LineEndChar(c))
    ensures t.Some? && t.value != EndOfLine ==>
              !t.value.Num? && !t.value.Ident? && !t.value.Invalid? && t.value.c == c
  {
    match c
    case '=' => Some(Assign(c))
    case '+' => Some(Plus(c))
    case '-' => Some(Minus(c))
    case '{' => Some(LCurly(c))
    case '}' => Some(RCurly(c))
    case '(' => Some(LParen(c))
    case ')' => Some(RParen(c))
    case '\n' => Some(EndOfLine)
    case ';' => Some(EndOfLine)
    case _ => None
  }

  /** The character classes the lexer reads runs of. */
  datatype CharClass = Blanks | IdentParts | NumParts

  predicate InClass(cls: CharClass, c: char)
  {
    match cls
    case Blanks => Blank(c)
    case IdentParts => IdentPart(c)
    case NumParts => NumPart(c)
  }

  /**
   * The end of the maximal run of characters of class `cls` that starts at
   * index `k` of `s`.
   */
  function RunEnd(s: seq<char>, k: nat, cls: CharClass): (j: nat)
    requires k <= |s|
    ensures k <= j <= |s|
    ensures forall i :: k <= i < j ==> InClass(cls, s[i])
    ensures j < |s| ==> !InClass(cls, s[j])
    decreases |s| - k
  {
    if k < |s| && InClass(cls, s[k]) then RunEnd(s, k + 1, cls) else k
  }

  /** The lexer's cursor: the number of characters consumed and the current character. */
  datatype Cursor = Cursor(raw: nat, ch: Option<char>)

  /**
   * The cursor once a scan has read the character at index `j`, the first one
   * it does not keep; at the end of the input the current character is none.
   */
  function StoppedAt(s: seq<char>, j: nat): Cursor
    requires j <= |s|
  {
    if j < |s| then Cursor(j + 1, Some(s[j])) else Cursor(|s|, None)
  }

  /** The outcome of one pull: what it yields and the cursor it leaves. */
  datatype Step = Step(out: Option<Item>, cursor: Cursor)

  /**
   * One call of `next()` on input `s` after `k` characters were consumed:
   * skip blanks, then classify the first significant character. The end
   * of the input yields none, and so does a malformed number (see `Classify`).
   */
  function NextSpec(s: seq<char>, k: nat): (st: Step)
    requires k <= |s|
    ensures k <= st.cursor.raw <= |s|
    ensures k < |s| ==> k < st.cursor.raw
    ensures st.cursor.ch.Some? ==> 1 <= st.cursor.raw && st.cursor.ch.value == s[st.cursor.raw - 1]
    ensures st.cursor.ch.None? ==> st.cursor.raw == |s|
    ensures st.out.Some? ==> st.out.value.Ok?
    ensures k == |s| ==> st == Step(None, Cursor(|s|, None))
  {
    var j := RunEnd(s, k, Blanks);
    if j == |s| then Step(None, Cursor(|s|, None)) else Classify(s, j)
  }

  /**
   * The token made at index `j`, the first significant character: its
   * position is snapshot right after reading it. A malformed number yields
   * none, exactly as the end of the input does.
   */
  function Classify(s: seq<char>, j: nat): (st: Step)
    requires j < |s|
    ensures j < st.cursor.raw <= |s|
    ensures st.out.Some? ==> st.out.value.Ok? && st.out.value.value.1 == PosAt(s, j + 1)
    ensures st.out.None? ==> !IdentStart(s[j]) && NumPart(s[j])
    ensures st.out.Some? && st.out.value.value.0.Ident? ==> IdentStart(s[j])
    ensures st.out.Some? && st.out.value.value.0.Num? ==> !IdentStart(s[j]) && NumPart(s[j])
  {
    var c := s[j];
    var pos := PosAt(s, j + 1);
    match SingleToken(c)
    case Some(t) => Step(Some(Ok((t, pos))), Cursor(j + 1, Some(c)))
    case None =>
      if IdentStart(c) then
        var e := RunEnd(s, j + 1, IdentParts);
        Step(Some(Ok((Ident(s[j..e]), pos))), StoppedAt(s, e))
      else if NumPart(c) then
        var e := RunEnd(s, j + 1, NumParts);
        var num := s[j..e];
        Step(if MalformedNumber(num) then None else Some(Ok((Num(num), pos))), StoppedAt(s, e))
      else
        Step(Some(Ok((Invalid(c), pos))), Cursor(j + 1, Some(c)))
  }

  /** The raw offset after `n` pulls starting from raw offset `k`. */
  function Drive(s: seq<char>, k: nat, n: nat): (k': nat)
    requires k <= |s|
    ensures k <= k' <= |s|
    decreases n
  {
    if n == 0 then k else Drive(s, NextSpec(s, k).cursor.raw, n - 1)
  }

  /** What `n` successive pulls starting from raw offset `k` yield. */
  function Pulls(s: seq<char>, k: nat, n: nat): (outs: seq<Option<Item>>)
    requires k <= |s|
    ensures |outs| == n
    decreases n
  {
    if n == 0 then [] else [NextSpec(s, k).out] + Pulls(s, NextSpec(s, k).cursor.raw, n - 1)
  }

  /** One pull followed by the rest. */
  lemma PullsCons(s: seq<char>, k: nat, n: nat)
    requires k <= |s|
    ensures Pulls(s, k, n + 1) == [NextSpec(s, k).out] + Pulls(s, NextSpec(s, k).cursor.raw, n)
  {
  }

  /** An operator, bracket or line end makes its token alone and nothing after it is read. */
  lemma ClassifySingle(s: seq<char>, j: nat)
    requires j < |s| && SingleToken(s[j]).Some?
    ensures Classify(s, j) == Step(Some(Ok((SingleToken(s[j]).value, PosAt(s, j + 1)))), Cursor(j + 1, Some(s[j])))
  {
  }

  /** A letter or '_' starts an identifier that runs as far as identifier characters go. */
  lemma ClassifyIdent(s: seq<char>, j: nat)
    requires j < |s| && IdentStart(s[j])
    ensures var e := RunEnd(s, j + 1, IdentParts);
            Classify(s, j) == Step(Some(Ok((Ident(s[j..e]), PosAt(s, j + 1)))), StoppedAt(s, e))
  {
    assert SingleToken(s[j]).None?;
  }

  /** Any other digit or '.' starts a numeric run; a malformed one yields none. */
  lemma ClassifyNum(s: seq<char>, j: nat)
    requires j < |s| && !IdentStart(s[j]) && NumPart(s[j])
    ensures var e := RunEnd(s, j + 1, NumParts);
            var num := s[j..e];
            Classify(s, j) ==
              Step(if MalformedNumber(num) then None else Some(Ok((Num(num), PosAt(s, j + 1)))), StoppedAt(s, e))
  {
    assert SingleToken(s[j]).None?;
  }

  /** A pull that yields something classified the first non-blank at or after `k`. */
  lemma NextAt(s: seq<char>, k: nat)
    requires k <= |s| && NextSpec(s, k).out.Some?
    ensures var j := RunEnd(s, k, Blanks);
            j < |s| && NextSpec(s, k) == Classify(s, j) && NextSpec(s, k).out.value.value.1.raw == j + 1
  {
  }

  /**
   * Reading the character at `k` and then the blank run it starts, if it
   * does, stops right after the first non-blank at or after `k`.
   */
  lemma SkipsBlanks(s: seq<char>, k: nat, read: Cursor, blank: bool, c: Cursor)
    requires k <= |s| && read == StoppedAt(s, k)
    requires blank <==> read.ch.Some? && Blank(read.ch.value)
    requires blank ==> c == StoppedAt(s, RunEnd(s, read.raw, Blanks))
    requires !blank ==> c == read
    ensures c == StoppedAt(s, RunEnd(s, k, Blanks))
  {
  }

  /**
   * A pull is the blank skip followed by the classification of the
   * character it stops at, or nothing when it stops at the end.
   */
  lemma NextSpecComposes(s: seq<char>, k: nat, c: Cursor, r: Option<Item>, c': Cursor)
    requires k <= |s| && c == StoppedAt(s, RunEnd(s, k, Blanks))
    requires c.ch.None? ==> r == None && c' == c
    requires c.ch.Some? ==> Step(r, c') == Classify(s, RunEnd(s, k, Blanks))
    ensures Step(r, c') == NextSpec(s, k)
  {
  }

  /** Blanks before a token are skipped: starting before or after one makes no difference. */
  lemma BlankSkipped(s: seq<char>, k: nat)
    requires k < |s| && Blank(s[k])
    ensures NextSpec(s, k) == NextSpec(s, k + 1)
  {
  }

  /**
   * Where every token comes from: its position is the one reached right
   * after its first character, which is the first non-blank at or after `k`.
   */
  lemma NextTokenPosition(s: seq<char>, k: nat, t: Token, p: Pos)
    requires k <= |s| && NextSpec(s, k).out == Some(Ok((t, p)))
    ensures var j := RunEnd(s, k, Blanks);
            k <= j < |s| && p.raw == j + 1 && !Blank(s[j]) && p == PosAt(s, j + 1)
    ensures forall i :: k <= i < RunEnd(s, k, Blanks) ==> Blank(s[i])
  {
    NextAt(s, k);
    var j := RunEnd(s, k, Blanks);
    assert p == Classify(s, j).out.value.value.1 == PosAt(s, j + 1);
    assert !InClass(Blanks, s[j]);
    assert forall i :: k <= i < j ==> InClass(Blanks, s[i]);
  }

  /**
   * An operator, bracket or end-of-line token comes from the single
   * character at its position, and the pull consumes nothing after it.
   */
  lemma NextSingleToken(s: seq<char>, k: nat, t: Token, p: Pos)
    requires k <= |s| && NextSpec(s, k).out == Some(Ok((t, p)))
    requires !t.Num? && !t.Ident? && !t.Invalid?
    ensures var j := RunEnd(s, k, Blanks);
            j < |s| && p.raw == j + 1 && SingleToken(s[j]) == Some(t) &&
            NextSpec(s, k).cursor == Cursor(j + 1, Some(s[j]))
  {
    NextAt(s, k);
    ClassifiedSingle(s, RunEnd(s, k, Blanks), t, p);
  }

  lemma ClassifiedSingle(s: seq<char>, j: nat, t: Token, p: Pos)
    requires j < |s| && Classify(s, j).out == Some(Ok((t, p)))
    requires !t.Num? && !t.Ident? && !t.Invalid?
    ensures p.raw == j + 1 && SingleToken(s[j]) == Some(t) && Classify(s, j).cursor == Cursor(j + 1, Some(s[j]))
  {
  }

  /**
   * An invalid token carries a character that is neither blank, nor an
   * operator, bracket or line end, nor the start of an identifier or number.
   */
  lemma NextInvalidToken(s: seq<char>, k: nat, c: char, p: Pos)
    requires k <= |s| && NextSpec(s, k).out == Some(Ok((Invalid(c), p)))
    ensures var j := RunEnd(s, k, Blanks);
            j < |s| && p.raw == j + 1 && c == s[j] &&
            NextSpec(s, k).cursor == Cursor(j + 1, Some(c))
    ensures !Blank(c) && SingleToken(c).None? && !IdentStart(c) && !NumPart(c)
  {
    NextAt(s, k);
    ClassifiedInvalid(s, RunEnd(s, k, Blanks), c, p);
  }

  lemma ClassifiedInvalid(s: seq<char>, j: nat, c: char, p: Pos)
    requires j < |s| && Classify(s, j).out == Some(Ok((Invalid(c), p)))
    ensures p.raw == j + 1 && c == s[j] && Classify(s, j).cursor == Cursor(j + 1, Some(c))
    ensures SingleToken(c).None? && !IdentStart(c) && !NumPart(c)
  {
  }

  /**
   * An identifier is the maximal run that starts with a letter or '_' and
   * goes on with letters, digits or '_'. The character that ends the run is
   * consumed with it: the next pull starts after it.
   */
  lemma IdentAt(s: seq<char>, k: nat, w: seq<char>, p: Pos)
    requires k <= |s| && NextSpec(s, k).out == Some(Ok((Ident(w), p)))
    ensures var j := RunEnd(s, k, Blanks);
            var e := RunEnd(s, j + 1, IdentParts);
            j < |s| && p.raw == j + 1 && IdentStart(s[j]) && w == s[j..e] &&
            NextSpec(s, k).cursor == StoppedAt(s, e)
  {
    NextAt(s, k);
    ClassifiedIdent(s, RunEnd(s, k, Blanks), w, p);
  }

  lemma ClassifiedIdent(s: seq<char>, j: nat, w: seq<char>, p: Pos)
    requires j < |s| && Classify(s, j).out == Some(Ok((Ident(w), p)))
    ensures p.raw == j + 1
    ensures var e := RunEnd(s, j + 1, IdentParts);
            IdentStart(s[j]) && w == s[j..e] && Classify(s, j).cursor == StoppedAt(s, e)
  {
    ClassifyIdent(s, j);
  }

  /** The shape of an identifier run taken from `s` at index `j`. */
  lemma IdentRun(s: seq<char>, j: nat, w: seq<char>)
    requires j < |s| && IdentStart(s[j]) && w == s[j..RunEnd(s, j + 1, IdentParts)]
    ensures j + |w| <= |s| && w == s[j..j + |w|]
    ensures |w| > 0 && IdentStart(w[0]) && forall i :: 0 <= i < |w| ==> IdentPart(w[i])
    ensures RunEnd(s, j + 1, IdentParts) == j + |w|
    ensures j + |w| == |s| || !IdentPart(s[j + |w|])
  {
    assert w[0] == s[j];
    assert forall i :: 0 <= i < |w| ==> w[i] == s[j + i];
  }

  /** The shape of an accepted numeric run taken from `s` at index `j`. */
  lemma NumRun(s: seq<char>, j: nat, w: seq<char>)
    requires j < |s| && !IdentStart(s[j]) && NumPart(s[j])
    requires w == s[j..RunEnd(s, j + 1, NumParts)] && !MalformedNumber(w)
    ensures j + |w| <= |s| && w == s[j..j + |w|]
    ensures |w| > 0 && !IdentStart(w[0]) && forall i :: 0 <= i < |w| ==> NumPart(w[i])
    ensures Occurrences(w, '.') <= 1 && w != "."
    ensures RunEnd(s, j + 1, NumParts) == j + |w|
    ensures j + |w| == |s| || !NumPart(s[j + |w|])
  {
    assert w[0] == s[j];
    assert forall i :: 0 <= i < |w| ==> w[i] == s[j + i];
  }

  /**
   * A number is the maximal run of digits and '.' that does not start an
   * identifier, and it is never malformed. The character that ends the run
   * is consumed with it.
   */
  lemma NumAt(s: seq<char>, k: nat, w: seq<char>, p: Pos)
    requires k <= |s| && NextSpec(s, k).out == Some(Ok((Num(w), p)))
    ensures var j := RunEnd(s, k, Blanks);
            var e := RunEnd(s, j + 1, NumParts);
            j < |s| && p.raw == j + 1 && !IdentStart(s[j]) && NumPart(s[j]) && w == s[j..e] &&
            !MalformedNumber(w) && NextSpec(s, k).cursor == StoppedAt(s, e)
  {
    NextAt(s, k);
    ClassifiedNum(s, RunEnd(s, k, Blanks), w, p);
  }

  lemma ClassifiedNum(s: seq<char>, j: nat, w: seq<char>, p: Pos)
    requires j < |s| && Classify(s, j).out == Some(Ok((Num(w), p)))
    ensures p.raw == j + 1
    ensures var e := RunEnd(s, j + 1, NumParts);
            !IdentStart(s[j]) && NumPart(s[j]) && w == s[j..e] && !MalformedNumber(w) &&
            Classify(s, j).cursor == StoppedAt(s, e)
  {
    ClassifyNum(s, j);
  }

  /**
   * A pull yields nothing in exactly two cases: only blanks are left, or the
   * first significant character starts a malformed number. In the second
   * case the run and its terminator are consumed and input may remain.
   */
  lemma NextNone(s: seq<char>, k: nat)
    requires k <= |s|
    ensures var j := RunEnd(s, k, Blanks);
            NextSpec(s, k).out == None <==>
              j == |s| ||
              (!IdentStart(s[j]) && NumPart(s[j]) && MalformedNumber(s[j..RunEnd(s, j + 1, NumParts)]))
  {
  }

  /**
   * `read_num`'s test against an independent description: a run of digits
   * and '.' is accepted exactly when it is all digits, or it has one '.'
   * among digits and at least one digit.
   */
  lemma NumberShape(w: seq<char>)
    requires forall i :: 0 <= i < |w| ==> NumPart(w[i])
    ensures !MalformedNumber(w) <==>
              (forall i :: 0 <= i < |w| ==> Numeric(w[i])) ||
              (|w| >= 2 &&
               (exists d :: 0 <= d < |w| && w[d] == '.' &&
                  forall i :: 0 <= i < |w| && i != d ==> Numeric(w[i])))
  {
    if forall i :: 0 <= i < |w| ==> Numeric(w[i]) {
      NoDots(w);
    } else {
      var d :| 0 <= d < |w| && !Numeric(w[d]);
      assert w[d] == '.';
      if Occurrences(w, '.') <= 1 {
        OneDot(w, d);
      } else {
        forall d' | 0 <= d' < |w| && w[d'] == '.'
          ensures exists i :: 0 <= i < |w| && i != d' && !Numeric(w[i])
        {
          OneDot(w, d');
        }
      }
    }
  }

  /** A run of digits has no '.'. */
  lemma {:induction false} NoDots(w: seq<char>)
    requires forall i :: 0 <= i < |w| ==> Numeric(w[i])
    ensures Occurrences(w, '.') == 0
  {
    if |w| > 0 {
      NoDots(w[..|w| - 1]);
    }
  }

  /** With a '.' at index `d`, the count of '.' is one exactly when no other index holds one. */
  lemma {:induction false} OneDot(w: seq<char>, d: nat)
    requires d < |w| && w[d] == '.'
    ensures Occurrences(w, '.') == 1 <==> forall i :: 0 <= i < |w| && i != d ==> w[i] != '.'
    ensures Occurrences(w, '.') >= 1
  {
    var n := |w| - 1;
    if d == n {
      Absent(w[..n], '.');
    } else {
      OneDot(w[..n], d);
      assert forall i :: 0 <= i < n ==> w[..n][i] == w[i];
    }
  }

  /** `c` does not occur in `w` exactly when its count is zero. */
  lemma {:induction false} Absent(w: seq<char>, c: char)
    ensures Occurrences(w, c) == 0 <==> forall i :: 0 <= i < |w| ==> w[i] != c
  {
    if |w| > 0 {
      Absent(w[..|w| - 1], c);
      assert forall i :: 0 <= i < |w| - 1 ==> w[..|w| - 1][i] == w[i];
    }
  }

  /** Two '.' at distinct indices make the count at least two. */
  lemma {:induction false} TwoDots(w: seq<char>, a: nat, b: nat)
    requires a < b < |w| && w[a] == '.' && w[b] == '.'
    ensures Occurrences(w, '.') >= 2
  {
    var n := |w| - 1;
    if b == n {
      OneDot(w[..n], a);
    } else {
      TwoDots(w[..n], a, b);
    }
  }

  /**
   * The items that input made only of operators, brackets and line ends
   * should lex to from index `k` on: one per character, in order, each at
   * the position just after its character.
   */
  function SingleTokens(s: seq<char>, k: nat): (items: seq<Option<Item>>)
    requires k <= |s| && forall i :: k <= i < |s| ==> SingleToken(s[i]).Some?
    ensures |items| == |s| - k
    ensures forall i :: 0 <= i < |items| ==>
              items[i] == Some(Ok((SingleToken(s[k + i]).value, PosAt(s, k + i + 1))))
    decreases |s| - k
  {
    if k == |s| then [] else [Some(Ok((SingleToken(s[k]).value, PosAt(s, k + 1))))] + SingleTokens(s, k + 1)
  }

  /**
   * Input made only of operators, brackets and line ends lexes to exactly
   * those tokens, in order: a single-character token never consumes the
   * character after it.
   */
  lemma {:induction false} SingleTokenRun(s: seq<char>, k: nat)
    requires k <= |s| && forall i :: k <= i < |s| ==> SingleToken(s[i]).Some?
    ensures Pulls(s, k, |s| - k) == SingleTokens(s, k)
    decreases |s| - k
  {
    if k < |s| {
      var n := |s| - k;
      var x := Some(Ok((SingleToken(s[k]).value, PosAt(s, k + 1))));
      SingleAlone(s, k);
      PullsCons(s, k, n - 1);
      assert Pulls(s, k, n) == [x] + Pulls(s, k + 1, n - 1);
      SingleTokenRun(s, k + 1);
      assert SingleTokens(s, k) == [x] + SingleTokens(s, k + 1);
    }
  }

  /** A pull that starts on an operator, bracket or line end makes that token and stops right after it. */
  lemma SingleAlone(s: seq<char>, k: nat)
    requires k < |s| && SingleToken(s[k]).Some?
    ensures NextSpec(s, k) == Step(Some(Ok((SingleToken(s[k]).value, PosAt(s, k + 1)))), Cursor(k + 1, Some(s[k])))
  {
    assert RunEnd(s, k, Blanks) == k;
    ClassifySingle(s, k);
  }

  /** The input is drained within as many pulls as there are characters left. */
  lemma {:induction false} DrainedAfter(s: seq<char>, k: nat, n: nat)
    requires k <= |s| && n >= |s| - k
    ensures Drive(s, k, n) == |s|
    decreases n
  {
    if n > 0 {
      DrainedAfter(s, NextSpec(s, k).cursor.raw, n - 1);
    }
  }

  /** Once the input is drained, every further pull yields none. */
  lemma {:induction false} ExhaustedForever(s: seq<char>, n: nat)
    ensures forall i :: 0 <= i < n ==> Pulls(s, |s|, n)[i] == None
  {
    if n > 0 {
      ExhaustedForever(s, n - 1);
      assert Pulls(s, |s|, n) == [None] + Pulls(s, |s|, n - 1);
    }
  }
}
