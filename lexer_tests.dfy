/**
 * The unit tests of src/renrs_lang/lexer.rs, and a few more inputs that
 * show how the lexer behaves as written, stated about the model.
 */
module LexerTests {
  import opened Wrappers
  import opened LangErr
  import opened Position
  import opened Scanner
  import opened Lexing

  /** Empty input ends the sequence on the first pull and on the next. */
  lemma EndOfFile()
    ensures Pulls("", 0, 2) == [None, None]
  {
    ExhaustedForever("", 2);
  }

  /** An operator or bracket alone lexes to its token at the first position. */
  lemma OperatorAlone(c: char)
    requires OperatorChar(c)
    ensures NextSpec([c], 0).out == Some(Ok((SingleToken(c).value, Pos(None, 1, 0, 1))))
  {
    assert RunEnd([c], 0, Blanks) == 0;
    ClassifySingle([c], 0);
    assert PosAt([c], 1) == Pos(None, 1, 0, 1);
  }

  /** Each operator alone lexes to its token, carrying that character. */
  lemma SingleOperators()
    ensures NextSpec("=", 0).out == Some(Ok((Assign('='), Pos(None, 1, 0, 1))))
    ensures NextSpec("+", 0).out == Some(Ok((Plus('+'), Pos(None, 1, 0, 1))))
    ensures NextSpec("-", 0).out == Some(Ok((Minus('-'), Pos(None, 1, 0, 1))))
  {
    OperatorAlone('=');
    OperatorAlone('+');
    OperatorAlone('-');
  }

  /** Each curly bracket alone lexes to its token, carrying that character. */
  lemma SingleCurlies()
    ensures NextSpec("{", 0).out == Some(Ok((LCurly('{'), Pos(None, 1, 0, 1))))
    ensures NextSpec("}", 0).out == Some(Ok((RCurly('}'), Pos(None, 1, 0, 1))))
  {
    OperatorAlone('{');
    OperatorAlone('}');
  }

  /** Each parenthesis alone lexes to its token, carrying that character. */
  lemma SingleParens()
    ensures NextSpec("(", 0).out == Some(Ok((LParen('('), Pos(None, 1, 0, 1))))
    ensures NextSpec(")", 0).out == Some(Ok((RParen(')'), Pos(None, 1, 0, 1))))
  {
    OperatorAlone('(');
    OperatorAlone(')');
  }

  /** "_ident" is one identifier. */
  lemma IdentUnderscore()
    ensures NextSpec("_ident", 0).out == Some(Ok((Ident("_ident"), Pos(None, 1, 0, 1))))
  {
    assert RunEnd("_ident", 0, Blanks) == 0;
    ClassifyIdent("_ident", 0);
    assert RunEnd("_ident", 1, IdentParts) == 6;
    assert "_ident"[0..6] == "_ident";
  }

  /** "hello" is one identifier. */
  lemma IdentHello()
    ensures NextSpec("hello", 0).out == Some(Ok((Ident("hello"), Pos(None, 1, 0, 1))))
  {
    assert RunEnd("hello", 0, Blanks) == 0;
    ClassifyIdent("hello", 0);
    assert RunEnd("hello", 1, IdentParts) == 5;
    assert "hello"[0..5] == "hello";
  }

  /** Blanks and a line end before "hello": one end-of-line token, then the identifier. */
  lemma IdentAfterLineEnd()
    ensures Pulls("   \nhello", 0, 2) ==
              [Some(Ok((EndOfLine, Pos(None, 3, 1, 4)))), Some(Ok((Ident("hello"), Pos(None, 4, 1, 5))))]
  {
    var s := "   \nhello";
    assert RunEnd(s, 0, Blanks) == 3;
    assert PosAt(s, 4) == Pos(None, 3, 1, 4);
    assert NextSpec(s, 0) == Step(Some(Ok((EndOfLine, Pos(None, 3, 1, 4)))), Cursor(4, Some('\n')));
    assert RunEnd(s, 4, Blanks) == 4;
    ClassifyIdent(s, 4);
    assert RunEnd(s, 5, IdentParts) == 9;
    assert s[4..9] == "hello";
    assert PosAt(s, 5) == Pos(None, 4, 1, 5);
    assert NextSpec(s, 4).out == Some(Ok((Ident("hello"), Pos(None, 4, 1, 5))));
    assert Pulls(s, 0, 2) == [NextSpec(s, 0).out] + Pulls(s, 4, 1);
  }

  /** Blanks before "h1": the identifier, digits included. */
  lemma IdentAfterBlanks()
    ensures NextSpec("     h1", 0).out == Some(Ok((Ident("h1"), Pos(None, 6, 0, 6))))
  {
    var h := "     h1";
    assert RunEnd(h, 0, Blanks) == 5;
    ClassifyIdent(h, 5);
    assert RunEnd(h, 6, IdentParts) == 7;
    assert h[5..7] == "h1";
    assert PosAt(h, 6) == Pos(None, 6, 0, 6);
  }

  /** Numbers with no '.', a leading '.', and an inner '.'. */
  lemma Numbers()
    ensures NextSpec("1", 0).out == Some(Ok((Num("1"), Pos(None, 1, 0, 1))))
    ensures NextSpec(".1", 0).out == Some(Ok((Num(".1"), Pos(None, 1, 0, 1))))
    ensures NextSpec("1.1", 0).out == Some(Ok((Num("1.1"), Pos(None, 1, 0, 1))))
  {
    NumberAlone("1");
    NumberAlone(".1");
    NumberAlone("1.1");
  }

  /** A well-formed numeric literal alone lexes to one number token at the first position. */
  lemma NumberAlone(n: string)
    requires n in {"1", ".1", "1.1"}
    ensures NextSpec(n, 0).out == Some(Ok((Num(n), Pos(None, 1, 0, 1))))
  {
    assert RunEnd(n, 0, Blanks) == 0;
    ClassifyNum(n, 0);
    assert RunEnd(n, 1, NumParts) == |n|;
    assert n[0..|n|] == n;
    assert Occurrences(n, '.') <= 1;
    assert PosAt(n, 1) == Pos(None, 1, 0, 1);
  }

  /** Two dots: a malformed number, so the pull yields none and unwrapping it panics. */
  lemma MalformedTwoDots()
    ensures NextSpec("..", 0).out == None
  {
    assert RunEnd("..", 1, NumParts) == 2;
    assert ".."[0..2] == "..";
    TwoDots("..", 0, 1);
  }

  /** The lone ".": a malformed number, so the pull yields none. */
  lemma MalformedLoneDot()
    ensures NextSpec(".", 0).out == None
  {
    assert "."[0..1] == ".";
  }

  /** "0000.10.0" has two dots: a malformed number, so the pull yields none. */
  lemma MalformedManyDigits()
    ensures NextSpec("0000.10.0", 0).out == None
  {
    var n := "0000.10.0";
    assert RunEnd(n, 0, Blanks) == 0;
    ClassifyNum(n, 0);
    ManyDigitsRun();
    assert n[0..9] == n;
    TwoDots(n, 4, 7);
    assert MalformedNumber(n);
  }

  lemma ManyDigitsRun()
    ensures RunEnd("0000.10.0", 1, NumParts) == 9
  {
    assert RunEnd("0000.10.0", 5, NumParts) == 9;
  }

  /** Four identifiers, then the end of the sequence. */
  lemma TokenChain()
    ensures NextSpec("a b c d", 0) == Step(Some(Ok((Ident("a"), Pos(None, 1, 0, 1)))), Cursor(2, Some(' ')))
    ensures NextSpec("a b c d", 2) == Step(Some(Ok((Ident("b"), Pos(None, 3, 0, 3)))), Cursor(4, Some(' ')))
    ensures NextSpec("a b c d", 4) == Step(Some(Ok((Ident("c"), Pos(None, 5, 0, 5)))), Cursor(6, Some(' ')))
    ensures NextSpec("a b c d", 6) == Step(Some(Ok((Ident("d"), Pos(None, 7, 0, 7)))), Cursor(7, None))
    ensures NextSpec("a b c d", 7) == Step(None, Cursor(7, None))
  {
    var s := "a b c d";
    ChainIdent(s, 0, 'a');
    ChainIdent(s, 2, 'b');
    ChainIdent(s, 4, 'c');
    ChainIdent(s, 6, 'd');
  }

  /** In "a b c d", the letter at index `k` lexes alone and its terminator is consumed. */
  lemma ChainIdent(s: string, k: nat, c: char)
    requires s == "a b c d" && k in {0, 2, 4, 6} && c == s[k]
    ensures NextSpec(s, k) == Step(Some(Ok((Ident([c]), Pos(None, k + 1, 0, k + 1)))), StoppedAt(s, k + 1))
  {
    assert RunEnd(s, k, Blanks) == k;
    ClassifyIdent(s, k);
    assert RunEnd(s, k + 1, IdentParts) == k + 1;
    assert s[k..k + 1] == [c];
    PosAtCounts(s, k + 1);
    assert Occurrences(s[..k + 1], '\n') == 0 by {
      Absent(s[..k + 1], '\n');
    }
  }

  /** The '.' that ends "asdf" is consumed with it: the cursor stops after it. */
  lemma DotForAccess()
    ensures NextSpec("asdf.sdf", 0) == Step(Some(Ok((Ident("asdf"), Pos(None, 1, 0, 1)))), Cursor(5, Some('.')))
  {
    var s := "asdf.sdf";
    assert RunEnd(s, 0, Blanks) == 0;
    ClassifyIdent(s, 0);
    assert RunEnd(s, 1, IdentParts) == 4;
    assert s[0..4] == "asdf";
  }

  /** The pull after it starts past the '.' and yields "sdf": no token is made of the '.'. */
  lemma DotForAccessRest()
    ensures NextSpec("asdf.sdf", 5) == Step(Some(Ok((Ident("sdf"), Pos(None, 6, 0, 6)))), Cursor(8, None))
  {
    var s := "asdf.sdf";
    assert RunEnd(s, 5, Blanks) == 5;
    ClassifyIdent(s, 5);
    assert RunEnd(s, 6, IdentParts) == 8;
    assert s[5..8] == "sdf";
    assert PosAt(s, 6) == Pos(None, 6, 0, 6);
  }

  /** The '+' between two identifiers is swallowed as the first one's terminator. */
  lemma TerminatorSwallowed()
    ensures Pulls("a+b", 0, 3) ==
              [Some(Ok((Ident("a"), Pos(None, 1, 0, 1)))), Some(Ok((Ident("b"), Pos(None, 3, 0, 3)))), None]
  {
    var s := "a+b";
    TerminatorSwallowedFirst();
    TerminatorSwallowedSecond();
    ExhaustedForever(s, 1);
    PullsCons(s, 2, 1);
    PullsCons(s, 0, 2);
  }

  lemma TerminatorSwallowedFirst()
    ensures NextSpec("a+b", 0) == Step(Some(Ok((Ident("a"), Pos(None, 1, 0, 1)))), Cursor(2, Some('+')))
  {
    var s := "a+b";
    assert RunEnd(s, 0, Blanks) == 0;
    ClassifyIdent(s, 0);
    assert RunEnd(s, 1, IdentParts) == 1;
    assert s[0..1] == "a";
  }

  lemma TerminatorSwallowedSecond()
    ensures NextSpec("a+b", 2) == Step(Some(Ok((Ident("b"), Pos(None, 3, 0, 3)))), Cursor(3, None))
  {
    var s := "a+b";
    assert RunEnd(s, 2, Blanks) == 2;
    ClassifyIdent(s, 2);
    assert RunEnd(s, 3, IdentParts) == 3;
    assert s[2..3] == "b";
    assert PosAt(s, 3) == Pos(None, 3, 0, 3);
  }

  /**
   * A newline ending an identifier is swallowed too, and it is the column,
   * not the line, that the newline bumps.
   */
  lemma NewlineBumpsColumn()
    ensures Pulls("a\nb", 0, 2) ==
              [Some(Ok((Ident("a"), Pos(None, 1, 0, 1)))), Some(Ok((Ident("b"), Pos(None, 2, 1, 3))))]
  {
    var s := "a\nb";
    NewlineBumpsColumnFirst();
    NewlineBumpsColumnSecond();
    assert Pulls(s, 0, 2) == [NextSpec(s, 0).out] + Pulls(s, 2, 1);
  }

  lemma NewlineBumpsColumnFirst()
    ensures NextSpec("a\nb", 0) == Step(Some(Ok((Ident("a"), Pos(None, 1, 0, 1)))), Cursor(2, Some('\n')))
  {
    var s := "a\nb";
    assert RunEnd(s, 0, Blanks) == 0;
    ClassifyIdent(s, 0);
    assert RunEnd(s, 1, IdentParts) == 1;
    assert s[0..1] == "a";
  }

  lemma NewlineBumpsColumnSecond()
    ensures NextSpec("a\nb", 2).out == Some(Ok((Ident("b"), Pos(None, 2, 1, 3))))
  {
    var s := "a\nb";
    assert RunEnd(s, 2, Blanks) == 2;
    ClassifyIdent(s, 2);
    assert RunEnd(s, 3, IdentParts) == 3;
    assert s[2..3] == "b";
    assert PosAt(s, 3) == Pos(None, 2, 1, 3);
  }

  /** A malformed number yields none, yet a later pull can still yield a token. */
  lemma NoneIsNotFinal()
    ensures Pulls("..a b", 0, 2) == [None, Some(Ok((Ident("b"), Pos(None, 5, 0, 5))))]
  {
    var s := "..a b";
    NoneIsNotFinalFirst();
    NoneIsNotFinalSecond();
    assert Pulls(s, 0, 2) == [NextSpec(s, 0).out] + Pulls(s, 3, 1);
  }

  lemma NoneIsNotFinalFirst()
    ensures NextSpec("..a b", 0) == Step(None, Cursor(3, Some('a')))
  {
    var s := "..a b";
    assert RunEnd(s, 0, Blanks) == 0;
    ClassifyNum(s, 0);
    assert RunEnd(s, 1, NumParts) == 2;
    assert s[0..2] == "..";
    TwoDots("..", 0, 1);
  }

  lemma NoneIsNotFinalSecond()
    ensures NextSpec("..a b", 3).out == Some(Ok((Ident("b"), Pos(None, 5, 0, 5))))
  {
    var s := "..a b";
    assert RunEnd(s, 3, Blanks) == 4;
    ClassifyIdent(s, 4);
    assert RunEnd(s, 5, IdentParts) == 5;
    assert s[4..5] == "b";
    assert PosAt(s, 5) == Pos(None, 5, 0, 5);
  }

  /** The token chain test, stated against the lexer object itself. */
  method TokenChainClient() returns (outs: seq<Option<Item>>)
    ensures outs == [Some(Ok((Ident("a"), Pos(None, 1, 0, 1)))), Some(Ok((Ident("b"), Pos(None, 3, 0, 3)))),
                     Some(Ok((Ident("c"), Pos(None, 5, 0, 5)))), Some(Ok((Ident("d"), Pos(None, 7, 0, 7)))), None]
  {
    var lex := new Lexer("a b c d");
    TokenChain();
    var t1 := lex.Next();
    var t2 := lex.Next();
    var t3 := lex.Next();
    var t4 := lex.Next();
    var t5 := lex.Next();
    outs := [t1, t2, t3, t4, t5];
  }
}
