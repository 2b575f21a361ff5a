/**
 * A board position: 19 rows of black bits, 19 rows of white bits, the side
 * to move and the move number. `PosVal` is the content of a position as a
 * value; the class `Position` holds it in two arrays, as the engine does.
 */
module Positions {
  import opened Base
  import opened Points
  import opened Rows
  import opened RowSums
  import opened MoveTree

  datatype PosVal = PosVal(black: seq<bv32>, white: seq<bv32>, blackToMove: bool, moveNum: int)

  predicate Shaped(v: PosVal) {
    |v.black| == Size && |v.white| == Size
  }

  /** Only the 19 low bits of each row are used. */
  predicate Tidy(v: PosVal) {
    Shaped(v) && AllTidy(v.black) && AllTidy(v.white)
  }

  /** blackAt: the bit of p's column in p's black row. */
  predicate BlackAt(v: PosVal, p: PointOfPlay)
    requires Shaped(v) && OnBoard(p)
  {
    Bit(v.black[p.y], p.x)
  }

  predicate WhiteAt(v: PosVal, p: PointOfPlay)
    requires Shaped(v) && OnBoard(p)
  {
    Bit(v.white[p.y], p.x)
  }

  predicate StoneAt(v: PosVal, p: PointOfPlay)
    requires Shaped(v) && OnBoard(p)
  {
    BlackAt(v, p) || WhiteAt(v, p)
  }

  /** No point holds both colours. */
  ghost predicate NoOverlap(v: PosVal)
    requires Shaped(v)
  {
    forall p | OnBoard(p) :: !(BlackAt(v, p) && WhiteAt(v, p))
  }

  /** The same stones and side to move; the move number is not compared. */
  predicate SameBoard(v: PosVal, w: PosVal) {
    v.black == w.black && v.white == w.white && v.blackToMove == w.blackToMove
  }

  /** `new Position()`: no stones, white to move (the flag defaults to false), move 0. */
  function EmptyVal(): (v: PosVal)
    ensures Tidy(v) && NoOverlap(v) && !v.blackToMove && v.moveNum == 0
    ensures forall p | OnBoard(p) :: !StoneAt(v, p)
  {
    var rows := seq(Size, i => 0 as bv32);
    assert forall p | OnBoard(p) :: !Bit(rows[p.y], p.x) by {
      forall p | OnBoard(p) ensures !Bit(rows[p.y], p.x) {
        ZeroHas(Col(p.x));
      }
    }
    PosVal(rows, rows, false, 0)
  }

  // ---- checkValid ----

  /** Java's `> 0` on an int. */
  predicate Positive(t: bv32) {
    t != 0 && t < 0x8000_0000
  }

  function Overlaps(v: PosVal): (r: seq<bv32>)
    requires Shaped(v)
    ensures |r| == Size && forall i | 0 <= i < Size :: r[i] == Meet(v.black[i], v.white[i])
  {
    seq(Size, i requires 0 <= i < Size => Meet(v.black[i], v.white[i]))
  }

  /** checkValid returns normally: the int sum of `black[i] & white[i]` is not positive. */
  predicate CheckPasses(v: PosVal)
    requires Shaped(v)
  {
    !Positive(Sum(Overlaps(v)))
  }

  /** On tidy rows checkValid throws iff some point holds both colours. */
  lemma CheckValidIff(v: PosVal)
    requires Tidy(v)
    ensures CheckPasses(v) <==> NoOverlap(v)
  {
    var ov := Overlaps(v);
    assert AllTidy(ov) by {
      forall i | 0 <= i < Size ensures TidyRow(ov[i]) {
        MeetTidy(v.black[i], v.white[i]);
      }
    }
    SumBelowSign(ov);
    SumZero(ov);
    if NoOverlap(v) {
      forall i | 0 <= i < Size ensures ov[i] == 0 {
        forall x | 0 <= x < Size ensures !Bit(ov[i], x) {
          AndBit(v.black[i], v.white[i], x);
          assert !(BlackAt(v, PointOfPlay(x, i)) && WhiteAt(v, PointOfPlay(x, i)));
        }
        ZeroIffNoBit(ov[i]);
      }
    } else {
      var p :| OnBoard(p) && BlackAt(v, p) && WhiteAt(v, p);
      AndBit(v.black[p.y], v.white[p.y], p.x);
      ZeroIffNoBit(ov[p.y]);
    }
  }

  // ---- equals and hashCode ----

  function Xors(a: seq<bv32>, b: seq<bv32>): (r: seq<bv32>)
    requires |a| == Size && |b| == Size
    ensures |r| == Size && forall i | 0 <= i < Size :: r[i] == Diff(a[i], b[i])
  {
    seq(Size, i requires 0 <= i < Size => Diff(a[i], b[i]))
  }

  /**
   * equals: false when the side to move differs; otherwise the int sum of
   * the xors of the black rows plus that of the white rows must be zero.
   */
  function Equals(v: PosVal, w: PosVal): bool
    requires Shaped(v) && Shaped(w)
  {
    v.blackToMove == w.blackToMove
    && Sum(Xors(v.black, w.black)) + Sum(Xors(v.white, w.white)) == 0
  }

  lemma XorsZero(a: seq<bv32>, b: seq<bv32>)
    requires |a| == Size && |b| == Size && AllTidy(a) && AllTidy(b)
    ensures AllTidy(Xors(a, b))
    ensures Sum(Xors(a, b)) == 0 <==> a == b
  {
    var xs := Xors(a, b);
    forall i | 0 <= i < Size ensures TidyRow(xs[i]) && (xs[i] == 0 <==> a[i] == b[i]) {
      DiffTidy(a[i], b[i]);
      DiffZero(a[i], b[i]);
    }
    SumZero(xs);
  }

  /** On tidy rows equals holds iff the side to move and all 38 rows agree. */
  lemma EqualsIff(v: PosVal, w: PosVal)
    requires Tidy(v) && Tidy(w)
    ensures Equals(v, w) <==> SameBoard(v, w)
  {
    XorsZero(v.black, w.black);
    XorsZero(v.white, w.white);
    TwoSums(Xors(v.black, w.black), Xors(v.white, w.white));
  }

  /** hashCode: `31 * (31 * flag + hash(black)) + hash(white)` in Java int arithmetic. */
  function HashCode(v: PosVal): bv32 {
    HashOf(v.blackToMove, v.black, v.white)
  }

  function HashOf(blackToMove: bool, black: seq<bv32>, white: seq<bv32>): bv32 {
    31 * (31 * (if blackToMove then 1 else 0) + ArrayHash(black)) + ArrayHash(white)
  }

  /** Equal positions have equal hash codes. */
  lemma HashConsistent(v: PosVal, w: PosVal)
    requires Tidy(v) && Tidy(w) && Equals(v, w)
    ensures HashCode(v) == HashCode(w)
  {
    EqualsIff(v, w);
  }

  // ---- colorAt, stoneAt ----

  /**
   * colorAt(x, y): checkValid first, then 'B' if the black bit is set, else
   * 'W' if the white bit is set, else 'E'. Off-board coordinates index the
   * arrays out of range.
   */
  function ColorAt(v: PosVal, x: int, y: int): (r: Result<char>)
    requires Shaped(v)
    ensures r.Ok? <==> CheckPasses(v) && OnBoard(PointOfPlay(x, y))
    ensures r.Ok? ==> (r.value == MoveBlack <==> BlackAt(v, PointOfPlay(x, y)))
    ensures r.Ok? ==> (r.value == MoveWhite <==> !BlackAt(v, PointOfPlay(x, y)) && WhiteAt(v, PointOfPlay(x, y)))
    ensures r.Ok? ==> (r.value == EmptyPoint <==> !StoneAt(v, PointOfPlay(x, y)))
  {
    var p := PointOfPlay(x, y);
    if !CheckPasses(v) then Err(InvalidPosition)
    else if !OnBoard(p) then Err(ArrayIndexOutOfBounds)
    else if BlackAt(v, p) then Ok(MoveBlack)
    else if WhiteAt(v, p) then Ok(MoveWhite)
    else Ok(EmptyPoint)
  }

  /** stoneAt(x, y): checkValid first, then either bit. */
  function StoneAtXY(v: PosVal, x: int, y: int): (r: Result<bool>)
    requires Shaped(v)
    ensures r.Ok? <==> CheckPasses(v) && OnBoard(PointOfPlay(x, y))
    ensures r.Ok? ==> (r.value <==> ColorAt(v, x, y).value != EmptyPoint)
  {
    var p := PointOfPlay(x, y);
    if !CheckPasses(v) then Err(InvalidPosition)
    else if !OnBoard(p) then Err(ArrayIndexOutOfBounds)
    else Ok(BlackAt(v, p) || WhiteAt(v, p))
  }

  /** blackAt(x, y) without the validity check; off-board coordinates index out of range. */
  function BlackAtXY(v: PosVal, x: int, y: int): (r: Result<bool>)
    requires Shaped(v)
    ensures r.Ok? <==> OnBoard(PointOfPlay(x, y))
    ensures r.Ok? ==> (r.value <==> BlackAt(v, PointOfPlay(x, y)))
  {
    if OnBoard(PointOfPlay(x, y)) then Ok(Bit(v.black[y], x)) else Err(ArrayIndexOutOfBounds)
  }

  function WhiteAtXY(v: PosVal, x: int, y: int): (r: Result<bool>)
    requires Shaped(v)
    ensures r.Ok? <==> OnBoard(PointOfPlay(x, y))
    ensures r.Ok? ==> (r.value <==> WhiteAt(v, PointOfPlay(x, y)))
  {
    if OnBoard(PointOfPlay(x, y)) then Ok(Bit(v.white[y], x)) else Err(ArrayIndexOutOfBounds)
  }

  // ---- removeStoneAt ----

  /** removeStoneAt: `&= ~colMasks[x]` on both rows y. */
  function RemoveVal(v: PosVal, p: PointOfPlay): (r: PosVal)
    requires Shaped(v) && OnBoard(p)
    ensures Shaped(r)
  {
    v.(black := v.black[p.y := Clear(v.black[p.y], Col(p.x))],
       white := v.white[p.y := Clear(v.white[p.y], Col(p.x))])
  }

  /** removeStoneAt empties p and changes no other point and neither flag nor number. */
  lemma RemoveEffect(v: PosVal, p: PointOfPlay)
    requires Shaped(v) && OnBoard(p)
    ensures Shaped(RemoveVal(v, p))
    ensures forall q | OnBoard(q) ::
      (BlackAt(RemoveVal(v, p), q) <==> q != p && BlackAt(v, q))
      && (WhiteAt(RemoveVal(v, p), q) <==> q != p && WhiteAt(v, q))
    ensures RemoveVal(v, p).blackToMove == v.blackToMove && RemoveVal(v, p).moveNum == v.moveNum
    ensures Tidy(v) ==> Tidy(RemoveVal(v, p))
  {
    var r := RemoveVal(v, p);
    forall q | OnBoard(q)
      ensures (BlackAt(r, q) <==> q != p && BlackAt(v, q))
      ensures (WhiteAt(r, q) <==> q != p && WhiteAt(v, q))
    {
      if q.y == p.y {
        ClearBit(v.black[p.y], p.x, q.x);
        ClearBit(v.white[p.y], p.x, q.x);
      }
    }
    if Tidy(v) {
      ClearTidy(v.black[p.y], p.x);
      ClearTidy(v.white[p.y], p.x);
    }
  }

  /** Two tidy positions with the same stones, side to move and number are one value. */
  lemma SameStonesEqual(u: PosVal, w: PosVal)
    requires Tidy(u) && Tidy(w)
    requires u.blackToMove == w.blackToMove && u.moveNum == w.moveNum
    requires forall q | OnBoard(q) :: BlackAt(u, q) == BlackAt(w, q) && WhiteAt(u, q) == WhiteAt(w, q)
    ensures u == w
  {
    forall y | 0 <= y < Size
      ensures u.black[y] == w.black[y] && u.white[y] == w.white[y]
    {
      forall x | 0 <= x < Size
        ensures Bit(u.black[y], x) == Bit(w.black[y], x) && Bit(u.white[y], x) == Bit(w.white[y], x)
      {
        var q := PointOfPlay(x, y);
        assert OnBoard(q);
        assert BlackAt(u, q) == BlackAt(w, q) && WhiteAt(u, q) == WhiteAt(w, q);
      }
      RowsAgree(u.black[y], w.black[y]);
      RowsAgree(u.white[y], w.white[y]);
    }
  }

  /** The row-major number of a board point. */
  function Index(q: PointOfPlay): int {
    q.y * Size + q.x
  }

  /** The board point with row-major number k. */
  function PointAt(k: int): (q: PointOfPlay)
    requires 0 <= k < Size * Size
    ensures OnBoard(q) && Index(q) == k
  {
    PointOfPlay(k % Size, k / Size)
  }

  lemma IndexBounds(q: PointOfPlay)
    requires OnBoard(q)
    ensures 0 <= Index(q) < Size * Size && PointAt(Index(q)) == q
  {}

  /** Empties the points of s among the first k in row-major order, one removeStoneAt each. */
  function ClearFirst(v: PosVal, s: set<PointOfPlay>, k: nat): (r: PosVal)
    requires Shaped(v) && k <= Size * Size
    ensures Shaped(r)
  {
    if k == 0 then v
    else
      var u := ClearFirst(v, s, k - 1);
      var q := PointAt(k - 1);
      if q in s then RemoveVal(u, q) else u
  }

  lemma {:induction false} ClearFirstEffect(v: PosVal, s: set<PointOfPlay>, k: nat)
    requires Shaped(v) && k <= Size * Size
    ensures var r := ClearFirst(v, s, k);
      r.blackToMove == v.blackToMove && r.moveNum == v.moveNum && (Tidy(v) ==> Tidy(r))
      && forall q | OnBoard(q) ::
           (BlackAt(r, q) <==> BlackAt(v, q) && !(q in s && Index(q) < k))
           && (WhiteAt(r, q) <==> WhiteAt(v, q) && !(q in s && Index(q) < k))
  {
    if k > 0 {
      ClearFirstEffect(v, s, k - 1);
      var u := ClearFirst(v, s, k - 1);
      var p := PointAt(k - 1);
      if p in s {
        RemoveEffect(u, p);
      }
      forall q | OnBoard(q)
        ensures (q in s && Index(q) < k) <==> (q in s && Index(q) < k - 1) || (q == p && p in s)
      {
        IndexBounds(q);
      }
    }
  }

  /** The position with every point of s emptied. */
  function Without(v: PosVal, s: set<PointOfPlay>): (r: PosVal)
    requires Shaped(v)
    ensures Shaped(r)
  {
    ClearFirst(v, s, Size * Size)
  }

  /** Without(v, s) holds exactly v's stones outside s, with the same flag and number. */
  lemma WithoutEffect(v: PosVal, s: set<PointOfPlay>)
    requires Shaped(v)
    ensures var r := Without(v, s);
      r.blackToMove == v.blackToMove && r.moveNum == v.moveNum && (Tidy(v) ==> Tidy(r))
      && forall q | OnBoard(q) ::
           (BlackAt(r, q) <==> BlackAt(v, q) && q !in s) && (WhiteAt(r, q) <==> WhiteAt(v, q) && q !in s)
  {
    ClearFirstEffect(v, s, Size * Size);
    forall q | OnBoard(q)
      ensures Index(q) < Size * Size
    {
      IndexBounds(q);
    }
  }

  // ---- the derived position: new Position(prev, aMove) ----

  /** `rows[y] += colMasks[x]`; an off-board point indexes out of range. */
  function Plant(rows: seq<bv32>, p: PointOfPlay): (r: Result<seq<bv32>>)
    requires |rows| == Size
    ensures r.Err? ==> r.fault == ArrayIndexOutOfBounds
  {
    if OnBoard(p) then Ok(rows[p.y := Plus(rows[p.y], Col(p.x))]) else Err(ArrayIndexOutOfBounds)
  }

  /** One addEmpty point: `^=` the bit in each array where it is set. */
  function ClearPoint(b: seq<bv32>, w: seq<bv32>, p: PointOfPlay): Result<(seq<bv32>, seq<bv32>)>
    requires |b| == Size && |w| == Size
  {
    if !OnBoard(p) then Err(ArrayIndexOutOfBounds)
    else
      var b' := if Bit(b[p.y], p.x) then b[p.y := Flip(b[p.y], Col(p.x))] else b;
      var w' := if Bit(w[p.y], p.x) then w[p.y := Flip(w[p.y], Col(p.x))] else w;
      Ok((b', w'))
  }

  /** The addEmpty points in list order. */
  function ClearAll(b: seq<bv32>, w: seq<bv32>, pts: seq<PointOfPlay>): (r: Result<(seq<bv32>, seq<bv32>)>)
    requires |b| == Size && |w| == Size
    ensures r.Ok? ==> |r.value.0| == Size && |r.value.1| == Size
    ensures r.Err? ==> r.fault == ArrayIndexOutOfBounds
  {
    if |pts| == 0 then Ok((b, w))
    else
      var r := ClearAll(b, w, pts[..|pts| - 1]);
      if r.Err? then r else ClearPoint(r.value.0, r.value.1, pts[|pts| - 1])
  }

  /** `rows[y] |= colMasks[x]` for each point of a list, in order. */
  function OrAll(rows: seq<bv32>, pts: seq<PointOfPlay>): (r: Result<seq<bv32>>)
    requires |rows| == Size
    ensures r.Ok? ==> |r.value| == Size
    ensures r.Err? ==> r.fault == ArrayIndexOutOfBounds
  {
    if |pts| == 0 then Ok(rows)
    else
      var r := OrAll(rows, pts[..|pts| - 1]);
      var p := pts[|pts| - 1];
      if r.Err? then r
      else if OnBoard(p) then Ok(r.value[p.y := Set(r.value[p.y], Col(p.x))])
      else Err(ArrayIndexOutOfBounds)
  }

  /**
   * new Position(prev, aMove): copy prev's rows, run prev.checkValid(), take
   * the move number of the node, then
   *   - play: set the side to move to the other colour and, unless it is a
   *     pass, `+=` the stone's bit into its colour's row;
   *   - setup: clear the addEmpty points, take the side to move from
   *     colorMoveNext, then OR in addBlack and addWhite;
   *   - root: nothing more, so white is to move and setup lists are ignored.
   */
  function Derive(prev: PosVal, m: Node): (r: Result<PosVal>)
    requires Shaped(prev)
    ensures r.Ok? ==> Shaped(r.value)
  {
    if !CheckPasses(prev) then Err(InvalidPosition)
    else if m.IsMove() then
      if m.IsPass() then Ok(PosVal(prev.black, prev.white, m.IsWhite(), m.moveNum))
      else if m.IsWhite() then
        var w := Plant(prev.white, PointOfPlay(m.x, m.y));
        if w.Err? then Err(w.fault) else Ok(PosVal(prev.black, w.value, true, m.moveNum))
      else
        var b := Plant(prev.black, PointOfPlay(m.x, m.y));
        if b.Err? then Err(b.fault) else Ok(PosVal(b.value, prev.white, false, m.moveNum))
    else if m.IsSetup() then
      var c := ClearAll(prev.black, prev.white, m.addEmpty);
      if c.Err? then Err(c.fault)
      else
        var b := OrAll(c.value.0, m.addBlack);
        if b.Err? then Err(b.fault)
        else
          var w := OrAll(c.value.1, m.addWhite);
          if w.Err? then Err(w.fault)
          else Ok(PosVal(b.value, w.value, m.colorMoveNext == MoveBlack, m.moveNum))
    else Ok(PosVal(prev.black, prev.white, false, m.moveNum))
  }

  predicate AllOnBoard(pts: seq<PointOfPlay>) {
    forall i | 0 <= i < |pts| :: OnBoard(pts[i])
  }

  /** Playing a stone sets exactly its point in its colour; every other point is unchanged. */
  lemma {:induction false} PlayEffect(prev: PosVal, m: Node)
    requires Shaped(prev) && CheckPasses(prev) && m.IsMove() && !m.IsPass()
    requires OnBoard(PointOfPlay(m.x, m.y))
    requires m.IsWhite() ==> !WhiteAt(prev, PointOfPlay(m.x, m.y))
    requires m.IsBlack() ==> !BlackAt(prev, PointOfPlay(m.x, m.y))
    ensures Derive(prev, m).Ok?
    ensures var v := Derive(prev, m).value;
      Shaped(v) && v.blackToMove == m.IsWhite() && v.moveNum == m.moveNum
      && (forall q | OnBoard(q) ::
            (BlackAt(v, q) <==> BlackAt(prev, q) || (m.IsBlack() && q == PointOfPlay(m.x, m.y)))
            && (WhiteAt(v, q) <==> WhiteAt(prev, q) || (m.IsWhite() && q == PointOfPlay(m.x, m.y))))
      && (Tidy(prev) ==> Tidy(v))
  {
    var p := PointOfPlay(m.x, m.y);
    var v := Derive(prev, m).value;
    var rows := if m.IsWhite() then prev.white else prev.black;
    AddClearBit(rows[p.y], p.x);
    forall q | OnBoard(q)
      ensures (BlackAt(v, q) <==> BlackAt(prev, q) || (m.IsBlack() && q == p))
      ensures (WhiteAt(v, q) <==> WhiteAt(prev, q) || (m.IsWhite() && q == p))
    {
      if q.y == p.y {
        OrBit(rows[p.y], p.x, q.x);
      }
    }
    if Tidy(prev) {
      OrTidy(rows[p.y], p.x);
    }
  }

  /**
   * `+=` on a point that already holds the stone's colour does not keep the
   * stone: the carry moves it one column to the right.
   */
  lemma PlayOnOwnStoneCarries(prev: PosVal, m: Node)
    requires Shaped(prev) && CheckPasses(prev) && m.IsBlack()
    requires 0 <= m.x < 18 && 0 <= m.y < Size && prev.black[m.y] == Mask(Col(m.x))
    ensures BlackAt(prev, PointOfPlay(m.x, m.y))
    ensures Derive(prev, m).Ok?
    ensures !BlackAt(Derive(prev, m).value, PointOfPlay(m.x, m.y))
    ensures BlackAt(Derive(prev, m).value, PointOfPlay(m.x + 1, m.y))
  {
    MaskBit(m.x, m.x);
    AddSetBitCarries(m.x);
    MaskBit(m.x + 1, m.x);
    MaskBit(m.x + 1, m.x + 1);
  }

  lemma ClearPointEffect(b: seq<bv32>, w: seq<bv32>, p: PointOfPlay)
    requires |b| == Size && |w| == Size
    ensures ClearPoint(b, w, p).Ok? <==> OnBoard(p)
    ensures ClearPoint(b, w, p).Ok? ==> var r := ClearPoint(b, w, p).value;
      (forall q | OnBoard(q) ::
         (Bit(r.0[q.y], q.x) <==> Bit(b[q.y], q.x) && q != p)
         && (Bit(r.1[q.y], q.x) <==> Bit(w[q.y], q.x) && q != p))
      && (AllTidy(b) ==> AllTidy(r.0)) && (AllTidy(w) ==> AllTidy(r.1))
  {
    if OnBoard(p) {
      var r := ClearPoint(b, w, p).value;
      if Bit(b[p.y], p.x) {
        XorSetBit(b[p.y], p.x);
        ClearTidyAll(b, p);
      }
      if Bit(w[p.y], p.x) {
        XorSetBit(w[p.y], p.x);
        ClearTidyAll(w, p);
      }
      forall q | OnBoard(q)
        ensures (Bit(r.0[q.y], q.x) <==> Bit(b[q.y], q.x) && q != p)
        ensures (Bit(r.1[q.y], q.x) <==> Bit(w[q.y], q.x) && q != p)
      {
        if q.y == p.y {
          ClearBit(b[p.y], p.x, q.x);
          ClearBit(w[p.y], p.x, q.x);
        }
      }
    }
  }

  lemma ClearTidyAll(rows: seq<bv32>, p: PointOfPlay)
    requires |rows| == Size && OnBoard(p)
    ensures AllTidy(rows) ==> AllTidy(rows[p.y := Clear(rows[p.y], Col(p.x))])
  {
    if AllTidy(rows) {
      ClearTidy(rows[p.y], p.x);
    }
  }

  lemma SetTidyAll(rows: seq<bv32>, p: PointOfPlay)
    requires |rows| == Size && OnBoard(p)
    ensures AllTidy(rows) ==> AllTidy(rows[p.y := Set(rows[p.y], Col(p.x))])
  {
    if AllTidy(rows) {
      OrTidy(rows[p.y], p.x);
    }
  }

  /** The addEmpty pass empties exactly the listed points, or fails on an off-board one. */
  lemma {:induction false} ClearAllEffect(b: seq<bv32>, w: seq<bv32>, pts: seq<PointOfPlay>)
    requires |b| == Size && |w| == Size
    ensures ClearAll(b, w, pts).Ok? <==> AllOnBoard(pts)
    ensures ClearAll(b, w, pts).Ok? ==> var r := ClearAll(b, w, pts).value;
      (forall q | OnBoard(q) ::
         (Bit(r.0[q.y], q.x) <==> Bit(b[q.y], q.x) && q !in pts)
         && (Bit(r.1[q.y], q.x) <==> Bit(w[q.y], q.x) && q !in pts))
      && (AllTidy(b) ==> AllTidy(r.0)) && (AllTidy(w) ==> AllTidy(r.1))
  {
    if |pts| > 0 {
      var init := pts[..|pts| - 1];
      var p := pts[|pts| - 1];
      assert pts == init + [p];
      ClearAllEffect(b, w, init);
      var c := ClearAll(b, w, init);
      if c.Ok? {
        ClearPointEffect(c.value.0, c.value.1, p);
      }
      assert AllOnBoard(pts) <==> AllOnBoard(init) && OnBoard(p);
    }
  }

  /** OR-ing a list sets exactly the listed points on top of the row contents. */
  lemma {:induction false} OrAllEffect(rows: seq<bv32>, pts: seq<PointOfPlay>)
    requires |rows| == Size
    ensures OrAll(rows, pts).Ok? <==> AllOnBoard(pts)
    ensures OrAll(rows, pts).Ok? ==> var r := OrAll(rows, pts).value;
      (forall q | OnBoard(q) :: (Bit(r[q.y], q.x) <==> Bit(rows[q.y], q.x) || q in pts))
      && (AllTidy(rows) ==> AllTidy(r))
  {
    if |pts| > 0 {
      var init := pts[..|pts| - 1];
      var p := pts[|pts| - 1];
      assert pts == init + [p];
      OrAllEffect(rows, init);
      var c := OrAll(rows, init);
      if c.Ok? && OnBoard(p) {
        var r := OrAll(rows, pts).value;
        forall q | OnBoard(q) ensures (Bit(r[q.y], q.x) <==> Bit(rows[q.y], q.x) || q in pts) {
          if q.y == p.y {
            OrBit(c.value[p.y], p.x, q.x);
          }
        }
        SetTidyAll(c.value, p);
      }
      assert AllOnBoard(pts) <==> AllOnBoard(init) && OnBoard(p);
    }
  }

  /**
   * A setup node empties the addEmpty points, then adds the addBlack and
   * addWhite stones without clearing the other colour there, and takes the
   * side to move from colorMoveNext.
   */
  lemma SetupEffect(prev: PosVal, m: Node)
    requires Shaped(prev) && CheckPasses(prev) && m.IsSetup()
    ensures Derive(prev, m).Ok? <==> AllOnBoard(m.addEmpty) && AllOnBoard(m.addBlack) && AllOnBoard(m.addWhite)
    ensures Derive(prev, m).Ok? ==> var v := Derive(prev, m).value;
      Shaped(v) && v.blackToMove == (m.colorMoveNext == MoveBlack) && v.moveNum == m.moveNum
      && (forall q | OnBoard(q) ::
            (BlackAt(v, q) <==> q in m.addBlack || (BlackAt(prev, q) && q !in m.addEmpty))
            && (WhiteAt(v, q) <==> q in m.addWhite || (WhiteAt(prev, q) && q !in m.addEmpty)))
      && (Tidy(prev) ==> Tidy(v))
  {
    ClearAllEffect(prev.black, prev.white, m.addEmpty);
    var c := ClearAll(prev.black, prev.white, m.addEmpty);
    if c.Ok? {
      OrAllEffect(c.value.0, m.addBlack);
      OrAllEffect(c.value.1, m.addWhite);
    }
  }

  /** So a point listed black over a white stone (or listed in both) ends up holding both colours. */
  lemma SetupLeavesDoublySet(prev: PosVal, m: Node, q: PointOfPlay)
    requires Tidy(prev) && CheckPasses(prev) && m.IsSetup()
    requires AllOnBoard(m.addEmpty) && AllOnBoard(m.addBlack) && AllOnBoard(m.addWhite) && OnBoard(q)
    requires q in m.addBlack && (q in m.addWhite || (WhiteAt(prev, q) && q !in m.addEmpty))
    ensures Derive(prev, m).Ok?
    ensures BlackAt(Derive(prev, m).value, q) && WhiteAt(Derive(prev, m).value, q)
    ensures !CheckPasses(Derive(prev, m).value)
  {
    SetupEffect(prev, m);
    CheckValidIff(Derive(prev, m).value);
  }

  /** A pass keeps both arrays and only sets the side to move: black after white, white after black. */
  lemma PassEffect(prev: PosVal, m: Node)
    requires Shaped(prev) && CheckPasses(prev) && m.IsMove() && m.IsPass()
    ensures Derive(prev, m) == Ok(PosVal(prev.black, prev.white, m.IsWhite(), m.moveNum))
  {}

  /** A root node keeps both arrays, ignores its setup lists and leaves white to move. */
  lemma RootEffect(prev: PosVal, m: Node)
    requires Shaped(prev) && CheckPasses(prev) && m.IsRoot()
    ensures Derive(prev, m) == Ok(PosVal(prev.black, prev.white, false, m.moveNum))
  {}

  /** The previous position is checked first: a malformed one fails whatever the node. */
  lemma DeriveChecksPrev(prev: PosVal, m: Node)
    requires Shaped(prev)
    ensures !CheckPasses(prev) <==> Derive(prev, m) == Err(InvalidPosition)
  {}

  /**
   * The engine's Position: two 19-int arrays, the side to move and the move
   * number. Only the array contents ever change after construction.
   */
  class Position {
    const posBlack: array<bv32>
    const posWhite: array<bv32>
    const blackToMove: bool
    const moveNum: int

    ghost predicate Valid() {
      posBlack.Length == Size && posWhite.Length == Size && posBlack != posWhite
    }

    function Val(): (v: PosVal)
      requires Valid()
      reads posBlack, posWhite
      ensures Shaped(v)
    {
      PosVal(posBlack[..], posWhite[..], blackToMove, moveNum)
    }

    /** `new Position()`. */
    constructor Empty()
      ensures Valid() && Val() == EmptyVal()
      ensures fresh(posBlack) && fresh(posWhite)
    {
      posBlack := new bv32[Size](i => 0);
      posWhite := new bv32[Size](i => 0);
      blackToMove := false;
      moveNum := 0;
    }

    /** Wraps two freshly filled arrays. */
    constructor Of(b: array<bv32>, w: array<bv32>, toMove: bool, num: int)
      requires b.Length == Size && w.Length == Size && b != w
      ensures Valid() && posBlack == b && posWhite == w
      ensures blackToMove == toMove && moveNum == num
    {
      posBlack := b;
      posWhite := w;
      blackToMove := toMove;
      moveNum := num;
    }

    /** `new Position(basePos)`: independent copies of both arrays. */
    constructor Copy(basePos: Position)
      requires basePos.Valid()
      ensures Valid() && Val() == basePos.Val()
      ensures fresh(posBlack) && fresh(posWhite)
    {
      posBlack := new bv32[Size](i reads basePos.posBlack => if 0 <= i < Size then basePos.posBlack[i] else 0);
      posWhite := new bv32[Size](i reads basePos.posWhite => if 0 <= i < Size then basePos.posWhite[i] else 0);
      blackToMove := basePos.blackToMove;
      moveNum := basePos.moveNum;
    }

    /** `clone()`: a shallow copy that shares both row arrays with the original. */
    constructor Clone(basePos: Position)
      requires basePos.Valid()
      ensures Valid() && posBlack == basePos.posBlack && posWhite == basePos.posWhite
      ensures blackToMove == basePos.blackToMove && moveNum == basePos.moveNum
    {
      posBlack := basePos.posBlack;
      posWhite := basePos.posWhite;
      blackToMove := basePos.blackToMove;
      moveNum := basePos.moveNum;
    }

    /** getArrayBlack: a fresh copy, so writes to it never reach the position. */
    method GetArrayBlack() returns (a: array<bv32>)
      requires Valid()
      ensures fresh(a) && a[..] == posBlack[..]
    {
      a := new bv32[Size];
      forall i | 0 <= i < Size {
        a[i] := posBlack[i];
      }
    }

    method GetArrayWhite() returns (a: array<bv32>)
      requires Valid()
      ensures fresh(a) && a[..] == posWhite[..]
    {
      a := new bv32[Size];
      forall i | 0 <= i < Size {
        a[i] := posWhite[i];
      }
    }

    /** checkValid: sums `posBlack[i] & posWhite[i]` and throws when the sum is positive. */
    method CheckValid() returns (r: Outcome)
      requires Valid()
      ensures r == Done <==> CheckPasses(Val())
      ensures r != Done ==> r == Thrown(InvalidPosition)
    {
      ghost var ov := Overlaps(Val());
      var tmp: bv32 := 0;
      var i := 0;
      while i < Size
        invariant 0 <= i <= Size
        invariant tmp == Sum(ov[..i])
      {
        var t := Meet(posBlack[i], posWhite[i]);
        SumPrefix(ov, i);
        tmp := Add(tmp, t);
        i := i + 1;
      }
      assert ov[..Size] == ov;
      r := if Positive(tmp) then Thrown(InvalidPosition) else Done;
    }

    /** removeStoneAt(x, y): clears the point in both arrays; off-board coordinates throw first. */
    method RemoveStoneAt(x: int, y: int) returns (r: Outcome)
      requires Valid()
      modifies posBlack, posWhite
      ensures OnBoard(PointOfPlay(x, y)) ==> r == Done && Val() == RemoveVal(old(Val()), PointOfPlay(x, y))
      ensures !OnBoard(PointOfPlay(x, y)) ==> r == Thrown(ArrayIndexOutOfBounds) && Val() == old(Val())
    {
      if !OnBoard(PointOfPlay(x, y)) {
        return Thrown(ArrayIndexOutOfBounds);
      }
      posWhite[y] := Clear(posWhite[y], Col(x));
      posBlack[y] := Clear(posBlack[y], Col(x));
      r := Done;
    }
  }

  /** `+=` of one stone's bit into a copied row array. */
  method PlantAt(a: array<bv32>, p: PointOfPlay) returns (r: Outcome)
    requires a.Length == Size
    modifies a
    ensures var e := Plant(old(a[..]), p);
      (r == Done <==> e.Ok?) && (e.Ok? ==> a[..] == e.value) && (e.Err? ==> r == Thrown(e.fault))
  {
    if !OnBoard(p) {
      return Thrown(ArrayIndexOutOfBounds);
    }
    a[p.y] := Plus(a[p.y], Col(p.x));
    r := Done;
  }

  /** A list whose prefix already throws throws as a whole. */
  lemma {:induction false} ClearAllPrefixErr(b: seq<bv32>, w: seq<bv32>, pts: seq<PointOfPlay>, k: int)
    requires |b| == Size && |w| == Size && 0 <= k <= |pts|
    requires ClearAll(b, w, pts[..k]).Err?
    ensures ClearAll(b, w, pts).Err?
    decreases |pts|
  {
    if k == |pts| {
      assert pts[..k] == pts;
    } else {
      assert pts[..|pts| - 1][..k] == pts[..k];
      ClearAllPrefixErr(b, w, pts[..|pts| - 1], k);
    }
  }

  lemma {:induction false} OrAllPrefixErr(rows: seq<bv32>, pts: seq<PointOfPlay>, k: int)
    requires |rows| == Size && 0 <= k <= |pts|
    requires OrAll(rows, pts[..k]).Err?
    ensures OrAll(rows, pts).Err?
    decreases |pts|
  {
    if k == |pts| {
      assert pts[..k] == pts;
    } else {
      assert pts[..|pts| - 1][..k] == pts[..k];
      OrAllPrefixErr(rows, pts[..|pts| - 1], k);
    }
  }

  /** The addEmpty loop over two copied row arrays. */
  method ClearAllAt(b: array<bv32>, w: array<bv32>, pts: seq<PointOfPlay>) returns (r: Outcome)
    requires b.Length == Size && w.Length == Size && b != w
    modifies b, w
    ensures var e := ClearAll(old(b[..]), old(w[..]), pts);
      (r == Done <==> e.Ok?) && (e.Ok? ==> b[..] == e.value.0 && w[..] == e.value.1)
      && (e.Err? ==> r == Thrown(e.fault))
  {
    var k := 0;
    while k < |pts|
      invariant 0 <= k <= |pts|
      invariant ClearAll(old(b[..]), old(w[..]), pts[..k]) == Ok((b[..], w[..]))
    {
      var p := pts[k];
      assert pts[..k + 1][..k] == pts[..k];
      if !OnBoard(p) {
        ClearAllPrefixErr(old(b[..]), old(w[..]), pts, k + 1);
        return Thrown(ArrayIndexOutOfBounds);
      }
      if Bit(b[p.y], p.x) {
        b[p.y] := Flip(b[p.y], Col(p.x));
      }
      if Bit(w[p.y], p.x) {
        w[p.y] := Flip(w[p.y], Col(p.x));
      }
      k := k + 1;
    }
    assert pts[..|pts|] == pts;
    r := Done;
  }

  /** The `|=` loop of one setup list over a copied row array. */
  method OrAllAt(a: array<bv32>, pts: seq<PointOfPlay>) returns (r: Outcome)
    requires a.Length == Size
    modifies a
    ensures var e := OrAll(old(a[..]), pts);
      (r == Done <==> e.Ok?) && (e.Ok? ==> a[..] == e.value) && (e.Err? ==> r == Thrown(e.fault))
  {
    var k := 0;
    while k < |pts|
      invariant 0 <= k <= |pts|
      invariant OrAll(old(a[..]), pts[..k]) == Ok(a[..])
    {
      var p := pts[k];
      assert pts[..k + 1][..k] == pts[..k];
      if !OnBoard(p) {
        OrAllPrefixErr(old(a[..]), pts, k + 1);
        return Thrown(ArrayIndexOutOfBounds);
      }
      a[p.y] := Set(a[p.y], Col(p.x));
      k := k + 1;
    }
    assert pts[..|pts|] == pts;
    r := Done;
  }

  /** `new Position(prev, aMove)`, which either yields a position or throws. */
  method NewFromMove(prev: Position, m: Node) returns (r: Result<Position>)
    requires prev.Valid()
    ensures var e := Derive(prev.Val(), m);
      (r.Ok? <==> e.Ok?) && (e.Err? ==> r == Err(e.fault))
      && (r.Ok? ==> r.value.Valid() && r.value.Val() == e.value
                    && fresh(r.value.posBlack) && fresh(r.value.posWhite))
  {
    var b := prev.GetArrayBlack();
    var w := prev.GetArrayWhite();
    var ok := prev.CheckValid();
    if ok != Done {
      return Err(InvalidPosition);
    }
    var toMove := false;
    if m.IsMove() {
      if m.color == MoveWhite {
        toMove := true;
        if !m.IsPass() {
          var o := PlantAt(w, PointOfPlay(m.x, m.y));
          if o != Done {
            return Err(o.fault);
          }
        }
      } else if m.color == MoveBlack {
        toMove := false;
        if !m.IsPass() {
          var o := PlantAt(b, PointOfPlay(m.x, m.y));
          if o != Done {
            return Err(o.fault);
          }
        }
      }
    } else if m.IsSetup() {
      var o := ClearAllAt(b, w, m.addEmpty);
      if o != Done {
        return Err(o.fault);
      }
      toMove := m.colorMoveNext == MoveBlack;
      o := OrAllAt(b, m.addBlack);
      if o != Done {
        return Err(o.fault);
      }
      o := OrAllAt(w, m.addWhite);
      if o != Done {
        return Err(o.fault);
      }
    }
    var pos := new Position.Of(b, w, toMove, m.moveNum);
    r := Ok(pos);
  }
}
