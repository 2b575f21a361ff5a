/** The immutable (x, y) point of play, with its equality, hash and text form. */
module Points {
  import opened Base

  /** The coordinate value that marks a pass (and the root node). */
  const Pass: int := 99
  /** Rows and columns of the board; the engine fixes the size at 19. */
  const Size: int := 19

  datatype PointOfPlay = PointOfPlay(x: int, y: int)

  predicate OnBoard(p: PointOfPlay) {
    0 <= p.x < Size && 0 <= p.y < Size
  }

  /** Reduces an integer to the Java int it wraps around to. */
  function Wrap32(n: int): (r: int)
    ensures -0x8000_0000 <= r < 0x8000_0000
    ensures (n - r) % 0x1_0000_0000 == 0
    ensures -0x8000_0000 <= n < 0x8000_0000 ==> r == n
  {
    var m := n % 0x1_0000_0000;
    if m >= 0x8000_0000 then m - 0x1_0000_0000 else m
  }

  /**
   * The constructor. Its negative-coordinate guard reads the fields before
   * they are assigned, i.e. while they still hold 0, so it never fails.
   */
  function NewPoint(xcoor: int, ycoor: int): (r: Result<PointOfPlay>)
    ensures r.Ok? && r.value.x == xcoor && r.value.y == ycoor
  {
    var fieldX, fieldY := 0, 0;
    if fieldX < 0 || fieldY < 0 then Err(IllegalArgument)
    else Ok(PointOfPlay(xcoor, ycoor))
  }

  /** equals: field-wise comparison of x and y. */
  function Equals(a: PointOfPlay, b: PointOfPlay): (r: bool)
    ensures r <==> a == b
  {
    a.x == b.x && a.y == b.y
  }

  /** hashCode: 17, then 37 * result + x, then 37 * result + y, in Java int arithmetic. */
  function HashCode(p: PointOfPlay): (h: int)
    ensures -0x8000_0000 <= h < 0x8000_0000
  {
    var r0 := 17;
    var r1 := Wrap32(37 * r0 + p.x);
    Wrap32(37 * r1 + p.y)
  }

  /** Equal points hash alike, and on the board the hash tells points apart. */
  lemma {:induction false} HashCodeOnBoard(p: PointOfPlay, q: PointOfPlay)
    requires OnBoard(p) && OnBoard(q)
    ensures HashCode(p) == 23273 + 37 * p.x + p.y
    ensures HashCode(p) == HashCode(q) <==> p == q
  {
    assert Wrap32(37 * 17 + p.x) == 629 + p.x;
    assert Wrap32(37 * 17 + q.x) == 629 + q.x;
    assert HashCode(p) == 23273 + 37 * p.x + p.y;
    assert HashCode(q) == 23273 + 37 * q.x + q.y;
  }

  // ---- decimal text of Java ints ----

  function DigitChar(d: int): char
    requires 0 <= d < 10
  {
    ['0', '1', '2', '3', '4', '5', '6', '7', '8', '9'][d]
  }

  predicate IsDigit(c: char) {
    '0' <= c <= '9'
  }

  /** Decimal digits of a natural number, most significant first. */
  function NatText(n: nat): (s: string)
    ensures |s| > 0 && forall i :: 0 <= i < |s| ==> IsDigit(s[i])
  {
    if n < 10 then [DigitChar(n)] else NatText(n / 10) + [DigitChar(n % 10)]
  }

  /** Value of a string of decimal digits. */
  function DigitsValue(s: string): int
    requires forall i :: 0 <= i < |s| ==> IsDigit(s[i])
  {
    if |s| == 0 then 0
    else DigitsValue(s[..|s| - 1]) * 10 + (s[|s| - 1] as int - '0' as int)
  }

  lemma {:induction false} NatTextRoundTrip(n: nat)
    ensures DigitsValue(NatText(n)) == n
  {
    if n >= 10 {
      var s := NatText(n);
      assert s[..|s| - 1] == NatText(n / 10);
      NatTextRoundTrip(n / 10);
    }
  }

  /** How Java renders an int in string concatenation. */
  function IntText(n: int): (s: string)
    ensures ',' !in s && '(' !in s && ')' !in s
  {
    if n < 0 then "-" + NatText(-n) else NatText(n)
  }

  /** Reads back the text of an int. */
  function IntOfText(s: string): int
    requires |s| > 0
    requires s[0] == '-' ==> forall i :: 1 <= i < |s| ==> IsDigit(s[i])
    requires s[0] != '-' ==> forall i :: 0 <= i < |s| ==> IsDigit(s[i])
  {
    if s[0] == '-' then 0 - DigitsValue(s[1..]) else DigitsValue(s)
  }

  lemma {:induction false} IntTextRoundTrip(n: int)
    ensures IntOfText(IntText(n)) == n
  {
    var s := IntText(n);
    if n < 0 {
      NatTextRoundTrip(-n);
      assert s[0] == '-' && s[1..] == NatText(-n);
    } else {
      NatTextRoundTrip(n);
      assert s[0] != '-';
    }
  }

  /** toString: "(" + x + "," + y + ")". */
  function ToString(p: PointOfPlay): (s: string)
    ensures |s| >= 5 && s[0] == '(' && s[|s| - 1] == ')'
  {
    "(" + IntText(p.x) + "," + IntText(p.y) + ")"
  }

  lemma SeparatorAt(a: string, c: char, b: string)
    ensures (a + [c] + b)[|a|] == c
  {}

  lemma PrefixAt(a: string, c: char, b: string, i: int)
    ensures 0 <= i < |a| ==> (a + [c] + b)[i] == a[i] && a[i] in a
  {}

  lemma {:induction false} SplitAtFirst(a: string, b: string, a': string, b': string, c: char)
    requires c !in a && c !in a'
    requires a + [c] + b == a' + [c] + b'
    ensures a == a' && b == b'
  {
    var s := a + [c] + b;
    if |a| < |a'| {
      SeparatorAt(a, c, b);
      PrefixAt(a', c, b', |a|);
      assert false;
    } else if |a'| < |a| {
      SeparatorAt(a', c, b');
      PrefixAt(a, c, b, |a'|);
      assert false;
    }
    assert a == s[..|a|] == a';
    assert b == s[|a| + 1..] == b';
  }

  /** Different points have different text. */
  lemma {:induction false} ToStringInjective(p: PointOfPlay, q: PointOfPlay)
    requires ToString(p) == ToString(q)
    ensures p == q
  {
    var s, t := ToString(p), ToString(q);
    assert s[1..|s| - 1] == IntText(p.x) + [','] + IntText(p.y);
    assert t[1..|t| - 1] == IntText(q.x) + [','] + IntText(q.y);
    SplitAtFirst(IntText(p.x), IntText(p.y), IntText(q.x), IntText(q.y), ',');
    IntTextRoundTrip(p.x);
    IntTextRoundTrip(q.x);
    IntTextRoundTrip(p.y);
    IntTextRoundTrip(q.y);
  }
}
