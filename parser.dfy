/**
 * The decoders of the engine's move text (parseMove in
 * leelawatcher/parser/AutoGtpOutputParser.java and in the older
 * leelawatcher/leela/AutoGtpOutputParser.java). A move is one character
 * followed by decimal digits, or the word "pass" (and, in the newer
 * parser, "resign"). The match is against the whole text.
 */
module Parsers {
  import opened Base
  import opened Points
  import opened MoveTree

  /** The characters a regular-expression `.` does not match. */
  predicate LineTerminator(c: char) {
    c == '\n' || c == '\r' || c == '\U{85}' || c == '\U{2028}' || c == '\U{2029}'
  }

  /** The first alternative of the move pattern: any one character, then one or more digits. */
  predicate IsCoordinate(move: string) {
    |move| >= 2 && !LineTerminator(move[0]) && forall i | 1 <= i < |move| :: IsDigit(move[i])
  }

  /** toLowerCase on one character, for the ASCII letters. */
  function Lower(c: char): (l: char)
    ensures 'A' <= c <= 'Z' ==> l as int == c as int + 32
    ensures !('A' <= c <= 'Z') ==> l == c
  {
    if 'A' <= c <= 'Z' then (c as int + 32) as char else c
  }

  /** The column of a letter: its offset from 'a', one less from 'j' on, since 'i' is skipped. */
  function Column(c: char): int {
    var x := Lower(c) as int - 'a' as int;
    if x > 8 then x - 1 else x
  }

  /** The point a coordinate names: the column letter, and the row counted from 1. */
  function CoordinatePoint(move: string): PointOfPlay
    requires IsCoordinate(move)
  {
    PointOfPlay(Column(move[0]), DigitsValue(move[1..]) - 1)
  }

  /** parseMove: a point, `None` for "pass" and "resign", and an error for anything else. */
  function ParseMove(move: string): (r: Result<Option<PointOfPlay>>)
    ensures r.Err? ==> r.fault == NoMatch
  {
    if IsCoordinate(move) then Ok(Some(CoordinatePoint(move)))
    else if move == "pass" || move == "resign" then Ok(None)
    else Err(NoMatch)
  }

  /** parseMove of the older parser, which knows no "resign". */
  function ParseMoveOld(move: string): (r: Result<Option<PointOfPlay>>)
    ensures r.Err? ==> r.fault == NoMatch
  {
    if IsCoordinate(move) then Ok(Some(CoordinatePoint(move)))
    else if move == "pass" then Ok(None)
    else Err(NoMatch)
  }

  /** The three outcomes, each exactly for its kind of text. */
  lemma {:induction false} ParseMoveOutcomes(move: string)
    ensures ParseMove(move) == Ok(None) <==> move == "pass" || move == "resign"
    ensures ParseMove(move).Ok? && ParseMove(move).value.Some? <==> IsCoordinate(move)
    ensures ParseMove(move).Err? <==> !IsCoordinate(move) && move != "pass" && move != "resign"
  {
    if move == "pass" || move == "resign" {
      assert !IsDigit(move[1]);
    }
  }

  /** The two parsers differ on "resign" alone, which only the older one rejects. */
  lemma {:induction false} ParsersAgreeButResign(move: string)
    ensures move != "resign" ==> ParseMoveOld(move) == ParseMove(move)
    ensures ParseMoveOld("resign") == Err(NoMatch) && ParseMove("resign") == Ok(None)
  {
    assert !IsDigit("resign"[1]);
  }

  /** The letters are read case-insensitively; 'i' and 'j' both give column 8. */
  lemma {:induction false} ColumnLetters(c: char)
    requires 'a' <= c <= 'z'
    ensures Column(c) == Column((c as int - 32) as char)
    ensures Column('i') == 8 && Column('j') == 8 && Column('I') == 8 && Column('J') == 8
    ensures c != 'i' && c != 'j' && Column(c) == 8 ==> false
  {
  }

  /** The book letters, as written and as intended, both read back as their column. */
  lemma {:induction false} ColumnOfBookLetter(x: int)
    requires 0 <= x < Size
    ensures Column(XEnglishBook(x)) == x
    ensures Column(XEnglish(x)) == x
  {
    JCharSmall('a' as int + x + 1);
    JCharSmall('a' as int + x);
  }

  /** The text of an on-board point: book letter, then the row counted from 1. */
  function MoveText(p: PointOfPlay): string
    requires OnBoard(p)
  {
    [XEnglishBook(p.x)] + NatText(YEnglish(p.y))
  }

  /** parseMove reads back every on-board point from its text. */
  lemma {:induction false} ParseMoveText(p: PointOfPlay)
    requires OnBoard(p)
    ensures ParseMove(MoveText(p)) == Ok(Some(p))
    ensures ParseMoveOld(MoveText(p)) == Ok(Some(p))
  {
    var t := MoveText(p);
    ColumnOfBookLetter(p.x);
    JCharSmall('a' as int + p.x + 1);
    JCharSmall('a' as int + p.x);
    assert !LineTerminator(t[0]);
    assert t[1..] == NatText(p.y + 1);
    NatTextRoundTrip(p.y + 1);
    assert IsCoordinate(t);
  }

  /** The cases of the parser's tests. */
  lemma Examples()
    ensures ParseMove("D3") == Ok(Some(PointOfPlay(3, 2)))
    ensures ParseMove("pass") == Ok(None) && ParseMove("resign") == Ok(None)
    ensures ParseMove("resign!") == Err(NoMatch)
  {
    assert IsCoordinate("D3");
    assert "D3"[1..] == "3";
    assert DigitsValue("3") == DigitsValue("") * 10 + 3;
    ParseMoveOutcomes("resign!");
    assert !IsDigit("resign!"[1]);
  }
}
