/**
 * The file-chooser filter for SGF files (tsb/gui/SGFFileFilter.java). A
 * name is accepted when, for one of the eight case spellings of ".sgf",
 * the first occurrence of that spelling starts four characters before the
 * end; `indexOf` gives -1 when there is none.
 */
module FileFilters {
  /** The eight spellings accept tries, in its order. */
  const Spellings: seq<string> := [".sgf", ".SGF", ".Sgf", ".sGf", ".sgF", ".sGF", ".SgF", ".SGf"]

  /** getDescription. */
  const Description: string := "Smart Go Format"

  /** `t` occurs in `s` starting at index i. */
  predicate OccursAt(s: string, t: string, i: int) {
    0 <= i && i + |t| <= |s| && s[i..i + |t|] == t
  }

  /** String.indexOf from `from` on: the first index where `t` occurs, or -1. */
  function IndexFrom(s: string, t: string, from: nat): (r: int)
    requires from <= |s|
    ensures r == -1 || (from <= r && OccursAt(s, t, r))
    ensures r == -1 ==> forall j | from <= j <= |s| :: !OccursAt(s, t, j)
    ensures r != -1 ==> forall j | from <= j < r :: !OccursAt(s, t, j)
    decreases |s| - from
  {
    if from + |t| > |s| then -1
    else if s[from..from + |t|] == t then from
    else IndexFrom(s, t, from + 1)
  }

  function IndexOf(s: string, t: string): (r: int)
    ensures r == -1 <==> forall j | 0 <= j <= |s| :: !OccursAt(s, t, j)
    ensures r != -1 ==> OccursAt(s, t, r) && forall j | 0 <= j < r :: !OccursAt(s, t, j)
  {
    IndexFrom(s, t, 0)
  }

  /** accept, on the file's name. */
  function Accept(name: string): bool {
    exists k | 0 <= k < |Spellings| :: IndexOf(name, Spellings[k]) == |name| - 4
  }

  /** The spelling occurs for the first time at the end of the name. */
  predicate EndsOnlyWith(name: string, t: string) {
    OccursAt(name, t, |name| - 4) && forall j | 0 <= j < |name| - 4 :: !OccursAt(name, t, j)
  }

  /**
   * A name of three characters is always accepted (no spelling occurs, and
   * -1 equals 3 - 4); any other name is accepted exactly when it ends with
   * some spelling that occurs nowhere earlier in it.
   */
  lemma {:induction false} AcceptMeaning(name: string)
    ensures |name| == 3 ==> Accept(name)
    ensures |name| != 3 ==>
              (Accept(name) <==> exists k | 0 <= k < |Spellings| :: EndsOnlyWith(name, Spellings[k]))
  {
    if |name| == 3 {
      assert IndexOf(name, Spellings[0]) == -1;
    } else {
      if Accept(name) {
        var k :| 0 <= k < |Spellings| && IndexOf(name, Spellings[k]) == |name| - 4;
        assert EndsOnlyWith(name, Spellings[k]);
      }
      if exists k | 0 <= k < |Spellings| :: EndsOnlyWith(name, Spellings[k]) {
        var k :| 0 <= k < |Spellings| && EndsOnlyWith(name, Spellings[k]);
        var r := IndexOf(name, Spellings[k]);
        assert |Spellings[k]| == 4;
        assert r == |name| - 4;
      }
    }
  }

  /** Each spelling is '.' and the letters s, g, f in some mix of cases, and every mix is there. */
  lemma AllCaseSpellings(a: char, b: char, c: char)
    requires a == 's' || a == 'S'
    requires b == 'g' || b == 'G'
    requires c == 'f' || c == 'F'
    ensures ['.', a, b, c] in Spellings
  {
  }

  /** A name whose only '.' starts its last four characters. */
  lemma SingleDot(name: string, t: string)
    requires |t| == 4 && t[0] == '.' && OccursAt(name, t, |name| - 4)
    requires forall j | 0 <= j < |name| - 4 :: name[j] != '.'
    ensures EndsOnlyWith(name, t)
  {
    forall j | 0 <= j < |name| - 4 ensures !OccursAt(name, t, j) {
      assert name[j..j + 4][0] == name[j];
    }
  }

  /** The accepted names of the filter's tests. */
  lemma {:induction false} AcceptedExamples()
    ensures Accept("fff.sgF") && Accept("fff.SGF") && Accept("xyz123.SGf")
  {
    SingleDot("fff.sgF", Spellings[4]);
    SingleDot("fff.SGF", Spellings[1]);
    SingleDot("xyz123.SGf", Spellings[7]);
    AcceptMeaning("fff.sgF");
    AcceptMeaning("fff.SGF");
    AcceptMeaning("xyz123.SGf");
  }

  /** Another extension is rejected. */
  lemma {:induction false} OtherExtension()
    ensures !Accept("fff.txt")
  {
    AcceptMeaning("fff.txt");
    forall k | 0 <= k < |Spellings| ensures !EndsOnlyWith("fff.txt", Spellings[k]) {
      assert "fff.txt"[3..7] == ".txt";
    }
  }

  /** A doubled extension is rejected: the first ".sgf" is not at the end. */
  lemma {:induction false} DoubledExtension()
    ensures !Accept("a.sgf.sgf")
  {
    AcceptMeaning("a.sgf.sgf");
    forall k | 0 <= k < |Spellings| ensures !EndsOnlyWith("a.sgf.sgf", Spellings[k]) {
      if OccursAt("a.sgf.sgf", Spellings[k], 5) {
        assert "a.sgf.sgf"[5..9] == ".sgf";
        assert "a.sgf.sgf"[1..5] == ".sgf";
        assert OccursAt("a.sgf.sgf", Spellings[k], 1);
      }
    }
  }
}
