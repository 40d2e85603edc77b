/** Board-symmetry canonicalisation for the 5x5 board.

    A board is a 5x5 grid of cell values (0 empty, 1 X, 2 O), indexed
    b[row][column]. The eight symmetries of the square (the dihedral group)
    are named by tags Sym(ref, rot): reflect `ref` times about the main
    diagonal, then rotate `rot` quarter-turns. A board's canonical state is
    the image with the smallest base-3 score; it comes back together with
    the tag whose inverse maps the state back onto the board.
 */
module GameStates {

  type Board = seq<seq<int>>

  /** A well-formed board: five rows of five cells. */
  predicate IsBoard(b: Board) {
    |b| == 5 && forall i :: 0 <= i < 5 ==> |b[i]| == 5
  }

  predicate IsTrit(v: int) {
    0 <= v <= 2
  }

  /** A board whose cells are all 0, 1 or 2. */
  predicate IsTritBoard(b: Board) {
    IsBoard(b) && forall i, j :: 0 <= i < 5 && 0 <= j < 5 ==> IsTrit(b[i][j])
  }

  /** The all-empty board. */
  function EmptyBoard(): (b: Board)
    ensures IsTritBoard(b)
    ensures forall i, j :: 0 <= i < 5 && 0 <= j < 5 ==> b[i][j] == 0
  {
    seq(5, i => seq(5, j => 0))
  }

  /** Two boards are equal when they agree on every cell. */
  lemma BoardExt(p: Board, q: Board)
    requires IsBoard(p) && IsBoard(q)
    requires forall i, j :: 0 <= i < 5 && 0 <= j < 5 ==> p[i][j] == q[i][j]
    ensures p == q
  {
    forall i | 0 <= i < 5
      ensures p[i] == q[i]
    {
      assert |p[i]| == |q[i]| == 5;
    }
  }

  // ---------------------------------------------------------------------
  // Rotation
  // ---------------------------------------------------------------------

  /** One quarter-turn: the cell at (i, j) moves to (j, 4 - i). */
  function QuarterTurn(b: Board): (r: Board)
    requires IsBoard(b)
    ensures IsBoard(r)
    ensures forall i, j :: 0 <= i < 5 && 0 <= j < 5 ==> r[j][4 - i] == b[i][j]
  {
    seq(5, a requires 0 <= a < 5 => seq(5, c requires 0 <= c < 5 => b[4 - c][a]))
  }

  /** k quarter-turns, one after the other. */
  function Turns(b: Board, k: nat): (r: Board)
    requires IsBoard(b)
    ensures IsBoard(r)
    decreases k
  {
    if k == 0 then b else Turns(QuarterTurn(b), k - 1)
  }

  /** rotate(board, n): the number of quarter-turns is n modulo 4. For the
      divisor 4, Dafny's `%` and Python's `%` agree on negative n (both give
      a result in 0..3), so rotating by -1 is rotating by 3. */
  function Rotated(b: Board, n: int): (r: Board)
    requires IsBoard(b)
    ensures IsBoard(r)
  {
    Turns(b, n % 4)
  }

  /** rotate: reduces n modulo 4, returns the board itself for 0, and
      otherwise fills a copy cell by cell with one quarter-turn and rotates
      that copy by one turn fewer. */
  method Rotate(board: Board, n: int) returns (r: Board)
    requires IsBoard(board)
    ensures r == Rotated(board, n)
    decreases n % 4
  {
    var m := n % 4;
    if m == 0 {
      return board;
    }
    var next := board;
    for i := 0 to 5
      invariant IsBoard(next)
      invariant forall p, q :: 0 <= p < i && 0 <= q < 5 ==> next[q][4 - p] == board[p][q]
    {
      for j := 0 to 5
        invariant IsBoard(next)
        invariant forall p, q :: 0 <= p < i && 0 <= q < 5 ==> next[q][4 - p] == board[p][q]
        invariant forall q :: 0 <= q < j ==> next[q][4 - i] == board[i][q]
      {
        next := next[j := next[j][4 - i := board[i][j]]];
      }
    }
    forall a, c | 0 <= a < 5 && 0 <= c < 5
      ensures next[a][c] == QuarterTurn(board)[a][c]
    {
      assert next[a][4 - (4 - c)] == board[4 - c][a];
    }
    BoardExt(next, QuarterTurn(board));
    r := Rotate(next, m - 1);
  }

  /** Four quarter-turns give the board back. */
  lemma FourTurns(b: Board)
    requires IsBoard(b)
    ensures Turns(b, 4) == b
  {
    var b1 := QuarterTurn(b);
    var b2 := QuarterTurn(b1);
    var b3 := QuarterTurn(b2);
    var b4 := QuarterTurn(b3);
    forall a, c | 0 <= a < 5 && 0 <= c < 5
      ensures b4[a][c] == b[a][c]
    {
      calc {
        b4[a][c];
        b3[4 - c][a];
        b2[4 - a][4 - c];
        b1[c][4 - a];
        b[a][c];
      }
    }
    BoardExt(b4, b);
    assert Turns(b, 4) == Turns(b4, 0);
  }

  /** Turning j times and then k times is turning j + k times. */
  lemma {:induction false} TurnsAdd(b: Board, j: nat, k: nat)
    requires IsBoard(b)
    ensures Turns(Turns(b, j), k) == Turns(b, j + k)
    decreases j
  {
    if j > 0 {
      TurnsAdd(QuarterTurn(b), j - 1, k);
    }
  }

  /** Only the number of turns modulo 4 matters. */
  lemma {:induction false} TurnsMod(b: Board, k: nat)
    requires IsBoard(b)
    ensures Turns(b, k) == Turns(b, k % 4)
    decreases k
  {
    if k >= 4 {
      TurnsAdd(b, 4, k - 4);
      FourTurns(b);
      TurnsMod(b, k - 4);
    }
  }

  lemma ModAdd(m: int, n: int)
    ensures (m % 4 + n % 4) % 4 == (m + n) % 4
  {
  }

  lemma ModUnique(a: int, q: int, r: int)
    requires a == 4 * q + r && 0 <= r < 4
    ensures a % 4 == r
  {
  }

  lemma ModNeg(n: int)
    ensures (3 * (n % 4)) % 4 == (-n) % 4
  {
    var k := n % 4;
    var q := n / 4;
    assert n == 4 * q + k;
    if k == 0 {
      ModUnique(-n, -q, 0);
      ModUnique(3 * k, 0, 0);
    } else {
      ModUnique(-n, -q - 1, 4 - k);
      ModUnique(3 * k, k - 1, 4 - k);
    }
  }

  /** Rotating by m and then by n is rotating by m + n. */
  lemma RotateAdd(b: Board, m: int, n: int)
    requires IsBoard(b)
    ensures Rotated(Rotated(b, m), n) == Rotated(b, m + n)
  {
    TurnsAdd(b, m % 4, n % 4);
    TurnsMod(b, m % 4 + n % 4);
    ModAdd(m, n);
  }

  /** Rotation depends only on n modulo 4: multiples of 4 are the identity,
      and four quarter-turns of a board give it back. */
  lemma RotationPeriod(b: Board, n: int)
    requires IsBoard(b)
    ensures Rotated(b, n + 4) == Rotated(b, n) == Rotated(b, n - 4)
    ensures Rotated(b, 0) == Rotated(b, 4) == Rotated(b, -4) == b
    ensures Rotated(b, 1) == Rotated(b, 5) == Rotated(b, -3)
    ensures Rotated(Rotated(Rotated(Rotated(b, 1), 1), 1), 1) == b
  {
    RotateAdd(b, 1, 1);
    RotateAdd(b, 2, 1);
    RotateAdd(b, 3, 1);
  }

  /** A rotation leaves the centre cell where it is. */
  lemma {:induction false} TurnsKeepCentre(b: Board, k: nat)
    requires IsBoard(b)
    ensures Turns(b, k)[2][2] == b[2][2]
    decreases k
  {
    if k > 0 {
      TurnsKeepCentre(QuarterTurn(b), k - 1);
    }
  }

  lemma RotateKeepsCentre(b: Board, n: int)
    requires IsBoard(b)
    ensures Rotated(b, n)[2][2] == b[2][2]
  {
    TurnsKeepCentre(b, n % 4);
  }

  // ---------------------------------------------------------------------
  // Reflection
  // ---------------------------------------------------------------------

  /** Reflection about the main diagonal: the cell at (i, j) moves to (j, i). */
  function Transpose(b: Board): (r: Board)
    requires IsBoard(b)
    ensures IsBoard(r)
    ensures forall i, j :: 0 <= i < 5 && 0 <= j < 5 ==> r[j][i] == b[i][j]
  {
    seq(5, a requires 0 <= a < 5 => seq(5, c requires 0 <= c < 5 => b[c][a]))
  }

  /** reflect(board, n): the identity for even n, the transpose for odd n
      (parity taken as Python does, so -1 is odd). */
  function Reflected(b: Board, n: int): (r: Board)
    requires IsBoard(b)
    ensures IsBoard(r)
  {
    if n % 2 == 0 then b else Transpose(b)
  }

  /** reflect: returns the board itself for even n, otherwise a copy filled
      cell by cell with the transpose. */
  method Reflect(board: Board, n: int) returns (r: Board)
    requires IsBoard(board)
    ensures r == Reflected(board, n)
  {
    if n % 2 == 0 {
      return board;
    }
    var next := board;
    for i := 0 to 5
      invariant IsBoard(next)
      invariant forall p, q :: 0 <= p < i && 0 <= q < 5 ==> next[q][p] == board[p][q]
    {
      for j := 0 to 5
        invariant IsBoard(next)
        invariant forall p, q :: 0 <= p < i && 0 <= q < 5 ==> next[q][p] == board[p][q]
        invariant forall q :: 0 <= q < j ==> next[q][i] == board[i][q]
      {
        next := next[j := next[j][i := board[i][j]]];
      }
    }
    BoardExt(next, Transpose(board));
    r := next;
  }

  lemma TransposeTwice(b: Board)
    requires IsBoard(b)
    ensures Transpose(Transpose(b)) == b
  {
    BoardExt(Transpose(Transpose(b)), b);
  }

  /** Reflecting m times and then n times is reflecting m + n times. */
  lemma ReflectAdd(b: Board, m: int, n: int)
    requires IsBoard(b)
    ensures Reflected(Reflected(b, m), n) == Reflected(b, m + n)
  {
    if m % 2 == 1 && n % 2 == 1 {
      TransposeTwice(b);
    }
  }

  /** Reflection depends only on the parity of n and undoes itself. */
  lemma ReflectionInvolution(b: Board, n: int)
    requires IsBoard(b)
    ensures Reflected(b, 0) == Reflected(b, 2) == Reflected(b, -2) == b
    ensures Reflected(b, 1) == Reflected(b, 3) == Reflected(b, -1)
    ensures Reflected(Reflected(b, n), n) == b
  {
    if n % 2 != 0 {
      TransposeTwice(b);
    }
  }

  /** Reflection keeps the diagonal cells in place. */
  lemma ReflectKeepsDiagonal(b: Board, n: int)
    requires IsBoard(b)
    ensures forall i :: 0 <= i < 5 ==> Reflected(b, n)[i][i] == b[i][i]
  {
  }

  /** Reflecting after a quarter-turn is three quarter-turns after reflecting. */
  lemma TransposeQuarterTurn(b: Board)
    requires IsBoard(b)
    ensures Transpose(QuarterTurn(b)) == Turns(Transpose(b), 3)
  {
    var t := Transpose(b);
    var t1 := QuarterTurn(t);
    var t2 := QuarterTurn(t1);
    var t3 := QuarterTurn(t2);
    var lhs := Transpose(QuarterTurn(b));
    forall a, c | 0 <= a < 5 && 0 <= c < 5
      ensures lhs[a][c] == t3[a][c]
    {
      calc {
        t3[a][c];
        t2[4 - c][a];
        t1[4 - a][4 - c];
        t[c][4 - a];
        b[4 - a][c];
        QuarterTurn(b)[c][a];
        lhs[a][c];
      }
    }
    BoardExt(lhs, t3);
    assert Turns(t, 3) == Turns(t3, 0);
  }

  lemma {:induction false} TransposeTurns(b: Board, k: nat)
    requires IsBoard(b)
    ensures Transpose(Turns(b, k)) == Turns(Transpose(b), 3 * k)
    decreases k
  {
    if k > 0 {
      calc {
        Transpose(Turns(b, k));
        Transpose(Turns(QuarterTurn(b), k - 1));
        { TransposeTurns(QuarterTurn(b), k - 1); }
        Turns(Transpose(QuarterTurn(b)), 3 * (k - 1));
        { TransposeQuarterTurn(b); }
        Turns(Turns(Transpose(b), 3), 3 * (k - 1));
        { TurnsAdd(Transpose(b), 3, 3 * (k - 1)); }
        Turns(Transpose(b), 3 * k);
      }
    }
  }

  /** Reflecting a rotated board is rotating the reflected board the other way. */
  lemma ReflectRotate(b: Board, n: int)
    requires IsBoard(b)
    ensures Reflected(Rotated(b, n), 1) == Rotated(Reflected(b, 1), -n)
  {
    TransposeTurns(b, n % 4);
    TurnsMod(Transpose(b), 3 * (n % 4));
    ModNeg(n);
  }

  // ---------------------------------------------------------------------
  // The eight symmetries
  // ---------------------------------------------------------------------

  /** A symmetry, named by the two loop counters make_symetry_functions
      captures: reflect `ref` times, then rotate `rot` quarter-turns. */
  datatype Sym = Sym(ref: int, rot: int)

  predicate ValidSym(s: Sym) {
    0 <= s.ref < 2 && 0 <= s.rot < 4
  }

  /** The forward function of a pair: rotate(reflect(x, ref), rot). */
  function Forward(s: Sym, b: Board): (r: Board)
    requires IsBoard(b)
    ensures IsBoard(r)
  {
    Rotated(Reflected(b, s.ref), s.rot)
  }

  /** The inverse function of a pair: reflect(rotate(x, -rot), -ref). */
  function Inverse(s: Sym, b: Board): (r: Board)
    requires IsBoard(b)
    ensures IsBoard(r)
  {
    Reflected(Rotated(b, -s.rot), -s.ref)
  }

  /** make_symetry_functions: the eight tags, at index 4 * ref + rot. */
  function MakeSymmetryFunctions(): (syms: seq<Sym>)
    ensures |syms| == 8
    ensures forall k :: 0 <= k < 8 ==> ValidSym(syms[k]) && syms[k] == Sym(k / 4, k % 4)
    ensures forall s :: ValidSym(s) ==> syms[4 * s.ref + s.rot] == s
  {
    [Sym(0, 0), Sym(0, 1), Sym(0, 2), Sym(0, 3), Sym(1, 0), Sym(1, 1), Sym(1, 2), Sym(1, 3)]
  }

  /** Every inverse undoes its forward function. */
  lemma InverseForward(s: Sym, b: Board)
    requires IsBoard(b)
    ensures Inverse(s, Forward(s, b)) == b
  {
    var f := Reflected(b, s.ref);
    RotateAdd(f, s.rot, -s.rot);
    ReflectAdd(b, s.ref, -s.ref);
  }

  /** Every forward function undoes its inverse. */
  lemma ForwardInverse(s: Sym, b: Board)
    requires IsBoard(b)
    ensures Forward(s, Inverse(s, b)) == b
  {
    var r := Rotated(b, -s.rot);
    ReflectAdd(r, -s.ref, s.ref);
    RotateAdd(b, -s.rot, s.rot);
  }

  /** The tag of the composite "apply s, then t". */
  function Compose(t: Sym, s: Sym): (u: Sym) {
    if t.ref % 2 == 0 then Sym(s.ref % 2, (t.rot + s.rot) % 4)
    else Sym((s.ref + 1) % 2, (t.rot - s.rot) % 4)
  }

  /** Only the parity of a reflection count matters. */
  lemma ReflectParity(b: Board, n: int)
    requires IsBoard(b)
    ensures Reflected(b, n % 2) == Reflected(b, n)
  {
  }

  /** Only the rotation count modulo 4 matters. */
  lemma RotateMod(b: Board, n: int)
    requires IsBoard(b)
    ensures Rotated(b, n % 4) == Rotated(b, n)
  {
  }

  /** The symmetries are closed under composition. */
  lemma ComposeForward(t: Sym, s: Sym, b: Board)
    requires IsBoard(b)
    ensures ValidSym(Compose(t, s))
    ensures Forward(t, Forward(s, b)) == Forward(Compose(t, s), b)
  {
    if t.ref % 2 == 0 {
      ComposeRotation(t, s, b);
    } else {
      ComposeReflection(t, s, b);
    }
  }

  lemma ComposeRotation(t: Sym, s: Sym, b: Board)
    requires IsBoard(b) && t.ref % 2 == 0
    ensures Forward(t, Forward(s, b)) == Rotated(Reflected(b, s.ref % 2), (t.rot + s.rot) % 4)
  {
    var f := Reflected(b, s.ref);
    RotateAdd(f, s.rot, t.rot);
    ReflectParity(b, s.ref);
    RotateMod(f, s.rot + t.rot);
  }

  lemma ComposeReflection(t: Sym, s: Sym, b: Board)
    requires IsBoard(b) && t.ref % 2 == 1
    ensures Forward(t, Forward(s, b)) == Rotated(Reflected(b, (s.ref + 1) % 2), (t.rot - s.rot) % 4)
  {
    var f := Reflected(b, s.ref);
    var g := Reflected(f, 1);
    calc {
      Forward(t, Forward(s, b));
      Rotated(Reflected(Rotated(f, s.rot), 1), t.rot);
      { ReflectRotate(f, s.rot); }
      Rotated(Rotated(g, -s.rot), t.rot);
      { RotateAdd(g, -s.rot, t.rot); }
      Rotated(g, t.rot - s.rot);
      { RotateMod(g, t.rot - s.rot); }
      Rotated(g, (t.rot - s.rot) % 4);
      { ReflectAdd(b, s.ref, 1); ReflectParity(b, s.ref + 1); }
      Rotated(Reflected(b, (s.ref + 1) % 2), (t.rot - s.rot) % 4);
    }
  }

  /** The tag whose forward function is the inverse of s. */
  function InverseSym(s: Sym): (u: Sym) {
    if s.ref % 2 == 0 then Sym(0, (-s.rot) % 4) else Sym(1, s.rot % 4)
  }

  /** Each inverse function is itself one of the eight symmetries. */
  lemma InverseIsForward(s: Sym, b: Board)
    requires IsBoard(b)
    ensures ValidSym(InverseSym(s))
    ensures Inverse(s, b) == Forward(InverseSym(s), b)
  {
    var r := Rotated(b, -s.rot);
    if s.ref % 2 == 0 {
      assert Reflected(r, -s.ref) == r;
      assert Reflected(b, 0) == b;
    } else {
      calc {
        Inverse(s, b);
        Reflected(r, 1);
        { ReflectRotate(b, -s.rot); }
        Rotated(Reflected(b, 1), s.rot);
        Forward(InverseSym(s), b);
      }
    }
  }

  /** Every symmetry maps a board of trits to a board of trits. */
  lemma {:induction false} TurnsKeepTrits(b: Board, k: nat)
    requires IsTritBoard(b)
    ensures IsTritBoard(Turns(b, k))
    decreases k
  {
    if k > 0 {
      var q := QuarterTurn(b);
      assert forall a, c :: 0 <= a < 5 && 0 <= c < 5 ==> q[a][c] == b[4 - c][a];
      TurnsKeepTrits(q, k - 1);
    }
  }

  lemma ForwardKeepsTrits(s: Sym, b: Board)
    requires IsTritBoard(b)
    ensures IsTritBoard(Forward(s, b))
  {
    var f := Reflected(b, s.ref);
    assert IsTritBoard(f) by {
      if s.ref % 2 != 0 {
        assert forall a, c :: 0 <= a < 5 && 0 <= c < 5 ==> f[a][c] == b[c][a];
      }
    }
    TurnsKeepTrits(f, s.rot % 4);
  }

  // ---------------------------------------------------------------------
  // Ternary score
  // ---------------------------------------------------------------------

  /** flatten: the rows laid end to end. */
  function Flatten(rows: seq<seq<int>>): (cells: seq<int>) {
    if rows == [] then [] else rows[0] + Flatten(rows[1..])
  }

  /** Flattening rows of five cells is row-major: cell (i, j) lands at 5 * i + j. */
  lemma {:induction false} FlattenRowMajor(rows: seq<seq<int>>)
    requires forall i :: 0 <= i < |rows| ==> |rows[i]| == 5
    ensures |Flatten(rows)| == 5 * |rows|
    ensures forall i, j :: 0 <= i < |rows| && 0 <= j < 5 ==> Flatten(rows)[5 * i + j] == rows[i][j]
  {
    if rows != [] {
      var rest := rows[1..];
      FlattenRowMajor(rest);
      forall i, j | 0 <= i < |rows| && 0 <= j < 5
        ensures Flatten(rows)[5 * i + j] == rows[i][j]
      {
        if i > 0 {
          assert rows[i] == rest[i - 1];
          assert Flatten(rows)[5 * i + j] == Flatten(rest)[5 * (i - 1) + j];
        }
      }
    }
  }

  /** Two boards with the same flattening are the same board. */
  lemma FlattenInjective(p: Board, q: Board)
    requires IsBoard(p) && IsBoard(q)
    requires Flatten(p) == Flatten(q)
    ensures p == q
  {
    FlattenRowMajor(p);
    FlattenRowMajor(q);
    forall i, j | 0 <= i < 5 && 0 <= j < 5
      ensures p[i][j] == q[i][j]
    {
      assert Flatten(p)[5 * i + j] == Flatten(q)[5 * i + j];
    }
    BoardExt(p, q);
  }

  function Pow3(n: nat): (r: nat)
    ensures r >= 1
  {
    if n == 0 then 1 else 3 * Pow3(n - 1)
  }

  /** The value of a digit list read in base 3, most significant digit
      first: sum of d[i] * 3^(|d| - 1 - i). */
  function TernValue(d: seq<int>): (v: int) {
    if d == [] then 0 else d[0] * Pow3(|d| - 1) + TernValue(d[1..])
  }

  /** tern2int: walks the digits from the last one, adding digit * 3^i. */
  method Tern2Int(digits: seq<int>) returns (sum: int)
    ensures sum == TernValue(digits)
  {
    var n := |digits|;
    sum := 0;
    for i := 0 to n
      invariant sum == TernValue(digits[n - i..])
    {
      var tail := digits[n - 1 - i..];
      assert tail[1..] == digits[n - i..];
      sum := sum + digits[n - 1 - i] * Pow3(i);
    }
    assert digits[n - n..] == digits;
  }

  /** A list of trits scores between 0 and 3^len - 1. */
  lemma {:induction false} TernValueBounds(d: seq<int>)
    requires forall k :: 0 <= k < |d| ==> IsTrit(d[k])
    ensures 0 <= TernValue(d) < Pow3(|d|)
  {
    if d != [] {
      TernValueBounds(d[1..]);
      var p := Pow3(|d| - 1);
      assert 0 <= d[0] * p <= 2 * p by {
        if d[0] == 1 { } else if d[0] == 2 { }
      }
    }
  }

  /** Two trit lists of the same length with the same score are equal. */
  lemma {:induction false} TernValueInjective(d: seq<int>, e: seq<int>)
    requires |d| == |e|
    requires forall k :: 0 <= k < |d| ==> IsTrit(d[k])
    requires forall k :: 0 <= k < |e| ==> IsTrit(e[k])
    requires TernValue(d) == TernValue(e)
    ensures d == e
  {
    if d != [] {
      var p := Pow3(|d| - 1);
      TernValueBounds(d[1..]);
      TernValueBounds(e[1..]);
      assert d[0] == e[0] by {
        assert d[0] * p + TernValue(d[1..]) == e[0] * p + TernValue(e[1..]);
      }
      TernValueInjective(d[1..], e[1..]);
      assert d == [d[0]] + d[1..];
      assert e == [e[0]] + e[1..];
    }
  }

  /** The score of a board: its flattening read as a base-3 number. */
  function Score(b: Board): (v: int)
    requires IsBoard(b)
  {
    TernValue(Flatten(b))
  }

  /** Boards of trits score in 0 .. 3^25 - 1, and distinct boards score differently. */
  lemma ScoreBoundsAndInjective(p: Board, q: Board)
    requires IsTritBoard(p) && IsTritBoard(q)
    ensures 0 <= Score(p) < Pow3(25)
    ensures Score(p) == Score(q) ==> p == q
  {
    FlattenRowMajor(p);
    FlattenRowMajor(q);
    var fp, fq := Flatten(p), Flatten(q);
    assert forall k :: 0 <= k < 25 ==> fp[k] == p[k / 5][k % 5] && fq[k] == q[k / 5][k % 5] by {
      forall k | 0 <= k < 25
        ensures fp[k] == p[k / 5][k % 5] && fq[k] == q[k / 5][k % 5]
      {
        assert k == 5 * (k / 5) + k % 5;
      }
    }
    TernValueBounds(fp);
    if Score(p) == Score(q) {
      TernValueInjective(fp, fq);
      FlattenInjective(p, q);
    }
  }

  // ---------------------------------------------------------------------
  // Canonicalisation
  // ---------------------------------------------------------------------

  /** argmin: the first index holding the smallest value, as Python's min()
      over the indices finds it (it replaces its candidate only on a strictly
      smaller value). min() raises on an empty list, hence the requires. */
  function ArgMin(xs: seq<int>): (k: nat)
    requires |xs| > 0
    ensures k < |xs|
    ensures forall j :: 0 <= j < |xs| ==> xs[k] <= xs[j]
    ensures forall j :: 0 <= j < k ==> xs[k] < xs[j]
    decreases |xs|
  {
    if |xs| == 1 then 0
    else
      var k := ArgMin(xs[..|xs| - 1]);
      if xs[|xs| - 1] < xs[k] then |xs| - 1 else k
  }

  /** The scores of the images of a board under each tag, in tag order. */
  function Scores(board: Board, syms: seq<Sym>): (nums: seq<int>)
    requires IsBoard(board)
    ensures |nums| == |syms|
    ensures forall k :: 0 <= k < |syms| ==> nums[k] == Score(Forward(syms[k], board))
  {
    seq(|syms|, k requires 0 <= k < |syms| => Score(Forward(syms[k], board)))
  }

  /** A canonical state, with the tag whose inverse function maps it back. */
  datatype Canonical = Canonical(state: Board, back: Sym)

  /** board2state: score every symmetric image and keep the first one with
      the smallest score, together with its inverse. */
  function Board2State(board: Board, syms: seq<Sym>): (c: Canonical)
    requires IsBoard(board) && |syms| > 0
    ensures IsBoard(c.state)
    ensures Inverse(c.back, c.state) == board
    ensures exists k :: 0 <= k < |syms| && syms[k] == c.back && c.state == Forward(syms[k], board)
                        && (forall j :: 0 <= j < k ==> Score(c.state) < Score(Forward(syms[j], board)))
    ensures forall j :: 0 <= j < |syms| ==> Score(c.state) <= Score(Forward(syms[j], board))
  {
    var nums := Scores(board, syms);
    var i := ArgMin(nums);
    InverseForward(syms[i], board);
    Canonical(Forward(syms[i], board), syms[i])
  }

  /** An image of an image of b is an image of b under one of the eight tags. */
  lemma ImageOfImage(b: Board, s: Sym, t: Sym) returns (j: nat)
    requires IsBoard(b)
    ensures j < 8 && Forward(t, Forward(s, b)) == Forward(MakeSymmetryFunctions()[j], b)
  {
    ComposeForward(t, s, b);
    var u := Compose(t, s);
    j := 4 * u.ref + u.rot;
  }

  /** The canonical state is the image of b under one of the eight tags. */
  lemma CanonicalIsImage(b: Board) returns (k: nat)
    requires IsBoard(b)
    ensures k < 8 && Board2State(b, MakeSymmetryFunctions()).state == Forward(MakeSymmetryFunctions()[k], b)
  {
    var syms := MakeSymmetryFunctions();
    k :| 0 <= k < |syms| && syms[k] == Board2State(b, syms).back
         && Board2State(b, syms).state == Forward(syms[k], b);
  }

  /** The canonical state of an image of b scores no higher than the
      canonical state of b. */
  lemma CanonicalScoreOfImage(b: Board, s: Sym)
    requires IsBoard(b)
    ensures Score(Board2State(Forward(s, b), MakeSymmetryFunctions()).state)
         <= Score(Board2State(b, MakeSymmetryFunctions()).state)
  {
    var syms := MakeSymmetryFunctions();
    var b' := Forward(s, b);
    var k := CanonicalIsImage(b);
    InverseForward(s, b);
    InverseIsForward(s, b');
    // b is the image of b' under InverseSym(s), so b's canonical state is an image of b'.
    var j := ImageOfImage(b', InverseSym(s), syms[k]);
    assert Board2State(b, syms).state == Forward(syms[j], b');
  }

  /** A board and any image of it have canonical states of equal score. */
  lemma CanonicalScoreInvariant(b: Board, s: Sym)
    requires IsBoard(b)
    ensures Score(Board2State(Forward(s, b), MakeSymmetryFunctions()).state)
         == Score(Board2State(b, MakeSymmetryFunctions()).state)
  {
    var b' := Forward(s, b);
    CanonicalScoreOfImage(b, s);
    InverseForward(s, b);
    InverseIsForward(s, b');
    assert Forward(InverseSym(s), b') == b;
    CanonicalScoreOfImage(b', InverseSym(s));
  }

  /** Canonical states of boards of trits are boards of trits. */
  lemma CanonicalKeepsTrits(b: Board)
    requires IsTritBoard(b)
    ensures IsTritBoard(Board2State(b, MakeSymmetryFunctions()).state)
  {
    var k := CanonicalIsImage(b);
    ForwardKeepsTrits(MakeSymmetryFunctions()[k], b);
  }

  /** The canonical state of a board of trits is the same for every
      symmetric image of it (under any tag, valid or not: tags act modulo
      2 and 4). */
  lemma CanonicalInvariant(b: Board, s: Sym)
    requires IsTritBoard(b)
    ensures Board2State(Forward(s, b), MakeSymmetryFunctions()).state
         == Board2State(b, MakeSymmetryFunctions()).state
  {
    var syms := MakeSymmetryFunctions();
    var b' := Forward(s, b);
    ForwardKeepsTrits(s, b);
    CanonicalScoreInvariant(b, s);
    CanonicalKeepsTrits(b);
    CanonicalKeepsTrits(b');
    ScoreBoundsAndInjective(Board2State(b, syms).state, Board2State(b', syms).state);
  }

  /** The canonical state is unchanged by rotate(b, -1) and reflect(b, -1),
      and its inverse gives the board back. */
  lemma CanonicalOfImages(b: Board)
    requires IsTritBoard(b)
    ensures var syms := MakeSymmetryFunctions();
            var c := Board2State(b, syms);
            Inverse(c.back, c.state) == b
            && Board2State(Rotated(b, -1), syms).state == c.state
            && Board2State(Reflected(b, -1), syms).state == c.state
  {
    CanonicalInvariant(b, Sym(0, -1));
    CanonicalInvariant(b, Sym(-1, 0));
    assert Forward(Sym(-1, 0), b) == Reflected(b, -1);
  }

  /** Every symmetry maps the empty board to itself. */
  lemma EmptyBoardFixed(s: Sym)
    ensures Forward(s, EmptyBoard()) == EmptyBoard()
  {
    var e := EmptyBoard();
    assert QuarterTurn(e) == e by { BoardExt(QuarterTurn(e), e); }
    assert Transpose(e) == e by { BoardExt(Transpose(e), e); }
    assert Reflected(e, s.ref) == e;
    var k := s.rot % 4;
    if k >= 1 { assert Turns(e, 1) == e; }
    if k >= 2 { assert Turns(e, 2) == Turns(e, 1); }
    if k >= 3 { assert Turns(e, 3) == Turns(e, 2); }
  }

  /** The empty board is its own canonical state, reached by the identity
      (every image ties, and the first index wins). */
  lemma EmptyBoardCanonical()
    ensures Board2State(EmptyBoard(), MakeSymmetryFunctions()) == Canonical(EmptyBoard(), Sym(0, 0))
  {
    var e := EmptyBoard();
    var syms := MakeSymmetryFunctions();
    forall j | 0 <= j < 8
      ensures Forward(syms[j], e) == e
    {
      EmptyBoardFixed(syms[j]);
    }
    var nums := Scores(e, syms);
    assert forall j :: 0 <= j < 8 ==> nums[j] == nums[0];
    assert ArgMin(nums) == 0;
  }
}
