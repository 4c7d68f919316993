/**
 * The text forms of a form-factor field: print_ff ("re,im" cells per row),
 * save (an nrow × ncol intensity table), save_ff (one line of intensities per
 * z plane) and read_form_factor (pairs of numbers read back in z/y/x order).
 *
 * Text is a sequence of lines (one per std::endl), each a sequence of tokens:
 * a number, whose digits are not modelled, or a literal separator character.
 */
module Layout {
  import opened Complex
  import opened Grid
  import opened FormFactors

  datatype Token = Num(value: real) | Sep(c: char)

  type Line = seq<Token>

  datatype Option<T> = None | Some(value: T)

  // ---------------------------------------------------------------------------
  // Concatenation of blocks
  // ---------------------------------------------------------------------------

  /** The blocks one after the other, as consecutive loop iterations write them. */
  function Flatten<T>(s: seq<seq<T>>): seq<T> {
    if |s| == 0 then [] else Flatten(s[..|s| - 1]) + s[|s| - 1]
  }

  predicate Uniform<T>(s: seq<seq<T>>, w: nat) {
    forall i :: 0 <= i < |s| ==> |s[i]| == w
  }

  lemma {:induction false} FlattenLength<T>(s: seq<seq<T>>, w: nat)
    requires Uniform(s, w)
    ensures |Flatten(s)| == |s| * w
    decreases |s|
  {
    if |s| > 0 {
      var n := |s| - 1;
      FlattenLength(s[..n], w);
      assert |s| * w == n * w + w;
    }
  }

  /** When every block has width w, element j of block i sits at position i·w + j. */
  lemma {:induction false} FlattenAt<T>(s: seq<seq<T>>, w: nat, i: nat, j: nat)
    requires Uniform(s, w) && i < |s| && j < w
    ensures i * w + j < |Flatten(s)|
    ensures Flatten(s)[i * w + j] == s[i][j]
    decreases |s|
  {
    var n := |s| - 1;
    FlattenLength(s[..n], w);
    FlattenLength(s, w);
    var prefix := Flatten(s[..n]);
    assert Flatten(s) == prefix + s[n];
    if i < n {
      FlattenAt(s[..n], w, i, j);
      assert s[..n][i] == s[i];
    } else {
      assert i * w == |prefix|;
    }
  }

  // ---------------------------------------------------------------------------
  // print_ff
  // ---------------------------------------------------------------------------

  /** "re,im\t" */
  function PrintCell(c: Complex): Line {
    [Num(c.re), Sep(','), Num(c.im), Sep('\t')]
  }

  function PrintRow(ff: seq<Complex>, d: Dims, y: nat, z: nat): Line
    requires Size(d) <= |ff| && y < d.nqy && z < d.nqz
  {
    Flatten(seq(d.nqx, x requires 0 <= x < d.nqx => PrintCell(ff[Index(d, Point(x, y, z))])))
  }

  /** The nqy rows of plane z followed by the blank line. */
  function PrintBlock(ff: seq<Complex>, d: Dims, z: nat): seq<Line>
    requires Size(d) <= |ff| && z < d.nqz
  {
    seq(d.nqy, y requires 0 <= y < d.nqy => PrintRow(ff, d, y, z)) + [[]]
  }

  /** FormFactor::print_ff */
  function PrintFF(ff: seq<Complex>, d: Dims): seq<Line>
    requires Size(d) <= |ff|
  {
    Flatten(seq(d.nqz, z requires 0 <= z < d.nqz => PrintBlock(ff, d, z)))
  }

  /**
   * print_ff writes nqz·(nqy + 1) lines: line z·(nqy+1) + y holds the nqx cells
   * "re,im\t" of row (y, z) in x order, read from slot Index(x, y, z), and line
   * z·(nqy+1) + nqy is blank.
   */
  lemma PrintFFLayout(ff: seq<Complex>, d: Dims, p: Point)
    requires Size(d) <= |ff| && InGrid(d, p)
    ensures |PrintFF(ff, d)| == d.nqz * (d.nqy + 1)
    ensures p.z * (d.nqy + 1) + p.y < |PrintFF(ff, d)|
    ensures p.z * (d.nqy + 1) + d.nqy < |PrintFF(ff, d)|
    ensures PrintFF(ff, d)[p.z * (d.nqy + 1) + d.nqy] == []
    ensures var line := PrintFF(ff, d)[p.z * (d.nqy + 1) + p.y];
      && |line| == d.nqx * 4
      && line[p.x * 4 + 0] == Num(ff[Index(d, p)].re)
      && line[p.x * 4 + 1] == Sep(',')
      && line[p.x * 4 + 2] == Num(ff[Index(d, p)].im)
      && line[p.x * 4 + 3] == Sep('\t')
  {
    var blocks := seq(d.nqz, z requires 0 <= z < d.nqz => PrintBlock(ff, d, z));
    assert Uniform(blocks, d.nqy + 1);
    FlattenLength(blocks, d.nqy + 1);
    FlattenAt(blocks, d.nqy + 1, p.z, p.y);
    FlattenAt(blocks, d.nqy + 1, p.z, d.nqy);
    var cells := seq(d.nqx, x requires 0 <= x < d.nqx => PrintCell(ff[Index(d, Point(x, p.y, p.z))]));
    assert Uniform(cells, 4);
    FlattenLength(cells, 4);
    FlattenAt(cells, 4, p.x, 0);
    FlattenAt(cells, 4, p.x, 1);
    FlattenAt(cells, 4, p.x, 2);
    FlattenAt(cells, 4, p.x, 3);
    assert blocks[p.z][p.y] == PrintRow(ff, d, p.y, p.z) == Flatten(cells);
    assert cells[p.x] == PrintCell(ff[Index(d, p)]);
  }

  // ---------------------------------------------------------------------------
  // save
  // ---------------------------------------------------------------------------

  lemma RowMajorBound(i: nat, j: nat, nrow: nat, ncol: nat)
    requires i < nrow && j < ncol
    ensures i * ncol + j < nrow * ncol
  {
    MulLeMono(ncol, i + 1, nrow);
    assert ncol * (i + 1) == i * ncol + ncol;
  }

  /** The intensity of ff[i·ncol + j] followed by a space. */
  function SaveCell(ff: seq<Complex>, nrow: nat, ncol: nat, i: nat, j: nat): Line
    requires nrow * ncol <= |ff| && i < nrow && j < ncol
  {
    RowMajorBound(i, j, nrow, ncol);
    [Num(Norm(ff[i * ncol + j])), Sep(' ')]
  }

  /** FormFactor::save */
  function Save(ff: seq<Complex>, nrow: nat, ncol: nat): seq<Line>
    requires nrow * ncol <= |ff|
  {
    seq(nrow, i requires 0 <= i < nrow =>
      Flatten(seq(ncol, j requires 0 <= j < ncol => SaveCell(ff, nrow, ncol, i, j))))
  }

  /**
   * save writes nrow lines of 2·ncol tokens: token 2j of line i is the
   * intensity |ff[i·ncol + j]|² and token 2j + 1 is a space.
   */
  lemma SaveLayout(ff: seq<Complex>, nrow: nat, ncol: nat, i: nat, j: nat)
    requires nrow * ncol <= |ff| && i < nrow && j < ncol
    ensures |Save(ff, nrow, ncol)| == nrow
    ensures |Save(ff, nrow, ncol)[i]| == ncol * 2
    ensures i * ncol + j < |ff|
    ensures Save(ff, nrow, ncol)[i][j * 2 + 0] == Num(Norm(ff[i * ncol + j]))
    ensures Save(ff, nrow, ncol)[i][j * 2 + 1] == Sep(' ')
  {
    RowMajorBound(i, j, nrow, ncol);
    var cells := seq(ncol, j' requires 0 <= j' < ncol => SaveCell(ff, nrow, ncol, i, j'));
    assert Uniform(cells, 2);
    FlattenLength(cells, 2);
    FlattenAt(cells, 2, j, 0);
    FlattenAt(cells, 2, j, 1);
    assert Save(ff, nrow, ncol)[i] == Flatten(cells);
  }

  /**
   * With nrow = nqy and ncol = nqx, save writes only plane z = 0 of the field:
   * line y, token 2x is the intensity at grid point (x, y, 0).
   */
  lemma SaveIsFirstPlane(ff: seq<Complex>, d: Dims, p: Point)
    requires Size(d) <= |ff| && InGrid(d, p) && p.z == 0
    ensures d.nqy * d.nqx <= |ff|
    ensures |Save(ff, d.nqy, d.nqx)| == d.nqy && |Save(ff, d.nqy, d.nqx)[p.y]| == d.nqx * 2
    ensures Save(ff, d.nqy, d.nqx)[p.y][p.x * 2 + 0] == Num(Norm(ff[Index(d, p)]))
  {
    MulLeMono(d.nqx * d.nqy, 1, d.nqz);
    assert d.nqy * d.nqx == d.nqx * d.nqy;
    SaveLayout(ff, d.nqy, d.nqx, p.y, p.x);
    assert p.y * d.nqx + p.x == Index(d, p);
  }

  // ---------------------------------------------------------------------------
  // save_ff
  // ---------------------------------------------------------------------------

  /** The intensities of row (y, z) in x order. */
  function RowIntensities(ff: seq<Complex>, d: Dims, y: nat, z: nat): seq<real>
    requires Size(d) <= |ff| && y < d.nqy && z < d.nqz
  {
    seq(d.nqx, x requires 0 <= x < d.nqx => Norm(ff[Index(d, Point(x, y, z))]))
  }

  function Nums(vs: seq<real>): Line {
    seq(|vs|, i requires 0 <= i < |vs| => Num(vs[i]))
  }

  /**
   * FormFactor::save_ff as written: one line per z plane; each row contributes
   * its nqx intensities with nothing between them, then one space.
   */
  function SaveFF(ff: seq<Complex>, d: Dims): seq<Line>
    requires Size(d) <= |ff|
  {
    seq(d.nqz, z requires 0 <= z < d.nqz =>
      Flatten(seq(d.nqy, y requires 0 <= y < d.nqy => Nums(RowIntensities(ff, d, y, z)) + [Sep(' ')])))
  }

  /**
   * save_ff writes nqz lines of nqy·(nqx + 1) tokens: position y·(nqx+1) + x
   * holds the intensity at (x, y, z) and position y·(nqx+1) + nqx a space.
   */
  lemma SaveFFLayout(ff: seq<Complex>, d: Dims, p: Point)
    requires Size(d) <= |ff| && InGrid(d, p)
    ensures |SaveFF(ff, d)| == d.nqz
    ensures |SaveFF(ff, d)[p.z]| == d.nqy * (d.nqx + 1)
    ensures p.y * (d.nqx + 1) + d.nqx < |SaveFF(ff, d)[p.z]|
    ensures SaveFF(ff, d)[p.z][p.y * (d.nqx + 1) + p.x] == Num(Norm(ff[Index(d, p)]))
    ensures SaveFF(ff, d)[p.z][p.y * (d.nqx + 1) + d.nqx] == Sep(' ')
  {
    var groups := seq(d.nqy, y requires 0 <= y < d.nqy => Nums(RowIntensities(ff, d, y, p.z)) + [Sep(' ')]);
    assert Uniform(groups, d.nqx + 1);
    FlattenLength(groups, d.nqx + 1);
    FlattenAt(groups, d.nqx + 1, p.y, p.x);
    FlattenAt(groups, d.nqx + 1, p.y, d.nqx);
    assert SaveFF(ff, d)[p.z] == Flatten(groups);
    assert groups[p.y][p.x] == Num(Norm(ff[Index(d, p)]));
  }

  /**
   * A whitespace-separated reader: spaces are skipped and each number must be
   * followed by a space or the end of the line. Two numbers with nothing
   * between them print as one run of digits, so the reader cannot recover
   * them and fails.
   */
  function ReadWords(line: Line): Option<seq<real>>
    decreases |line|
  {
    if |line| == 0 then Some([])
    else match line[0]
      case Sep(c) => if c == ' ' then ReadWords(line[1..]) else None
      case Num(v) =>
        if |line| == 1 then Some([v])
        else if line[1] != Sep(' ') then None
        else match ReadWords(line[2..])
          case None => None
          case Some(vs) => Some([v] + vs)
  }

  /** The intensities of plane z in slot order. */
  function PlaneIntensities(ff: seq<Complex>, d: Dims, z: nat): seq<real>
    requires Size(d) <= |ff| && z < d.nqz
  {
    Flatten(seq(d.nqy, y requires 0 <= y < d.nqy => RowIntensities(ff, d, y, z)))
  }

  /**
   * As written, a save_ff line whose rows hold two or more intensities cannot
   * be read back: its first two tokens are numbers with no separator.
   */
  lemma SaveFFUnreadable(ff: seq<Complex>, d: Dims, z: nat)
    requires Size(d) <= |ff| && z < d.nqz && d.nqx >= 2 && d.nqy >= 1
    ensures ReadWords(SaveFF(ff, d)[z]) == None
  {
    SaveFFLayout(ff, d, Point(0, 0, z));
    SaveFFLayout(ff, d, Point(1, 0, z));
  }

  /** Each value followed by a space. */
  function Spaced(vs: seq<real>): Line {
    if |vs| == 0 then [] else [Num(vs[0]), Sep(' ')] + Spaced(vs[1..])
  }

  /**
   * save_ff with a space after every intensity (and still one after each
   * row): the layout of nqx space-separated intensities per row.
   */
  function SaveFFSpaced(ff: seq<Complex>, d: Dims): seq<Line>
    requires Size(d) <= |ff|
  {
    seq(d.nqz, z requires 0 <= z < d.nqz =>
      Flatten(seq(d.nqy, y requires 0 <= y < d.nqy => Spaced(RowIntensities(ff, d, y, z)) + [Sep(' ')])))
  }

  /** A line that is empty or ends in a space. */
  predicate Closed(line: Line) {
    |line| == 0 || line[|line| - 1] == Sep(' ')
  }

  lemma {:induction false} ReadSpaced(vs: seq<real>)
    ensures ReadWords(Spaced(vs)) == Some(vs)
    ensures Closed(Spaced(vs))
    decreases |vs|
  {
    if |vs| > 0 {
      var rest := Spaced(vs[1..]);
      ReadSpaced(vs[1..]);
      assert Spaced(vs)[2..] == rest;
      assert [vs[0]] + vs[1..] == vs;
    }
  }

  /** Reading a closed line and then another is reading their concatenation. */
  lemma {:induction false} ReadWordsConcat(a: Line, b: Line)
    requires Closed(a) && ReadWords(a).Some? && ReadWords(b).Some?
    ensures ReadWords(a + b) == Some(ReadWords(a).value + ReadWords(b).value)
    decreases |a|
  {
    if |a| == 0 {
      assert a + b == b;
      assert ReadWords(a) == Some([]);
      assert [] + ReadWords(b).value == ReadWords(b).value;
    } else if a[0] == Sep(' ') {
      assert (a + b)[1..] == a[1..] + b;
      ReadWordsConcat(a[1..], b);
    } else {
      var v := a[0].value;
      assert |a| >= 2 && a[1] == Sep(' ');
      assert (a + b)[0] == Num(v) && (a + b)[1] == Sep(' ');
      assert (a + b)[2..] == a[2..] + b;
      assert ReadWords(a) == Some([v] + ReadWords(a[2..]).value);
      ReadWordsConcat(a[2..], b);
      var u, w := ReadWords(a[2..]).value, ReadWords(b).value;
      assert ReadWords(a + b) == Some([v] + (u + w));
      assert [v] + (u + w) == ([v] + u) + w;
    }
  }

  /** A row group (spaced intensities, then the row's space) reads back as the row. */
  lemma ReadGroup(vs: seq<real>)
    ensures ReadWords(Spaced(vs) + [Sep(' ')]) == Some(vs)
    ensures Closed(Spaced(vs) + [Sep(' ')])
  {
    ReadSpaced(vs);
    assert ReadWords([Sep(' ')]) == Some([]);
    ReadWordsConcat(Spaced(vs), [Sep(' ')]);
    assert vs + [] == vs;
  }

  lemma {:induction false} ReadGroups(groups: seq<Line>, rows: seq<seq<real>>)
    requires |groups| == |rows|
    requires forall i :: 0 <= i < |groups| ==> Closed(groups[i]) && ReadWords(groups[i]) == Some(rows[i])
    ensures Closed(Flatten(groups))
    ensures ReadWords(Flatten(groups)) == Some(Flatten(rows))
    decreases |groups|
  {
    if |groups| > 0 {
      var n := |groups| - 1;
      ReadGroups(groups[..n], rows[..n]);
      ReadWordsConcat(Flatten(groups[..n]), groups[n]);
    }
  }

  /**
   * The corrected layout round-trips: reading line z back gives exactly the
   * intensities of plane z, in slot order.
   */
  lemma SaveFFSpacedRoundTrip(ff: seq<Complex>, d: Dims, z: nat)
    requires Size(d) <= |ff| && z < d.nqz
    ensures |SaveFFSpaced(ff, d)| == d.nqz
    ensures ReadWords(SaveFFSpaced(ff, d)[z]) == Some(PlaneIntensities(ff, d, z))
  {
    var rows := seq(d.nqy, y requires 0 <= y < d.nqy => RowIntensities(ff, d, y, z));
    var groups := seq(d.nqy, y requires 0 <= y < d.nqy => Spaced(RowIntensities(ff, d, y, z)) + [Sep(' ')]);
    forall i | 0 <= i < d.nqy
      ensures Closed(groups[i]) && ReadWords(groups[i]) == Some(rows[i])
    {
      ReadGroup(rows[i]);
    }
    ReadGroups(groups, rows);
  }

  /** The plane's intensities in slot order: entry k is |ff[nqx·nqy·z + k]|². */
  lemma PlaneIntensitiesInSlotOrder(ff: seq<Complex>, d: Dims, p: Point)
    requires Size(d) <= |ff| && InGrid(d, p)
    ensures |PlaneIntensities(ff, d, p.z)| == d.nqy * d.nqx
    ensures p.y * d.nqx + p.x < |PlaneIntensities(ff, d, p.z)|
    ensures PlaneIntensities(ff, d, p.z)[p.y * d.nqx + p.x] == Norm(ff[Index(d, p)])
  {
    var rows := seq(d.nqy, y requires 0 <= y < d.nqy => RowIntensities(ff, d, y, p.z));
    assert Uniform(rows, d.nqx);
    FlattenLength(rows, d.nqx);
    FlattenAt(rows, d.nqx, p.y, p.x);
    assert PlaneIntensities(ff, d, p.z) == Flatten(rows);
  }

  // ---------------------------------------------------------------------------
  // read_form_factor
  // ---------------------------------------------------------------------------

  /**
   * The i-th number extracted from the file: the stream's i-th number while
   * it lasts, and past its end whatever the failed extraction leaves in the
   * variable (`exhausted(i)`).
   */
  function StreamAt(stream: seq<real>, exhausted: nat -> real, i: nat): real {
    if i < |stream| then stream[i] else exhausted(i)
  }

  /** The first n (re, im) pairs of the stream. */
  function ReadPairs(stream: seq<real>, exhausted: nat -> real, n: nat): seq<Complex> {
    seq(n, k requires 0 <= k < n => Complex(StreamAt(stream, exhausted, 2 * k), StreamAt(stream, exhausted, 2 * k + 1)))
  }

  /**
   * FormFactor::read_form_factor: `ff_` is cleared and refilled with
   * nqx·nqy·nqz pairs read in z/y/x order, so the pair read k-th lands at slot
   * k = Index(x, y, z); the sub-engines and the flag are untouched and the
   * call always reports true, whether or not the file held enough numbers.
   */
  method ReadFormFactor(f: FormFactor, stream: seq<real>, exhausted: nat -> real, d: Dims)
    returns (ok: bool, g: FormFactor)
    ensures ok
    ensures g.analytic == f.analytic && g.numeric == f.numeric && g.isAnalytic == f.isAnalytic
    ensures |g.ff| == Size(d)
    ensures forall p :: InGrid(d, p) ==>
      g.ff[Index(d, p)] == Complex(StreamAt(stream, exhausted, 2 * Index(d, p)), StreamAt(stream, exhausted, 2 * Index(d, p) + 1))
    ensures g.ff == ReadPairs(stream, exhausted, Size(d))
  {
    var ff: seq<Complex> := [];
    var pos := 0;
    var plane := d.nqx * d.nqy;
    for z := 0 to d.nqz
      invariant |ff| == Offset(d, 0, 0, z) && pos == 2 * |ff|
      invariant forall k :: 0 <= k < |ff| ==> ff[k] == ReadPairs(stream, exhausted, |ff|)[k]
    {
      for y := 0 to d.nqy
        invariant |ff| == Offset(d, 0, y, z) && pos == 2 * |ff|
        invariant forall k :: 0 <= k < |ff| ==> ff[k] == ReadPairs(stream, exhausted, |ff|)[k]
      {
        for x := 0 to d.nqx
          invariant |ff| == Offset(d, x, y, z) && pos == 2 * |ff|
          invariant forall k :: 0 <= k < |ff| ==> ff[k] == ReadPairs(stream, exhausted, |ff|)[k]
        {
          var re := StreamAt(stream, exhausted, pos);
          var im := StreamAt(stream, exhausted, pos + 1);
          pos := pos + 2;
          ff := ff + [Complex(re, im)];
        }
        assert d.nqx * (y + 1) == d.nqx * y + d.nqx;
        assert Offset(d, d.nqx, y, z) == Offset(d, 0, y + 1, z);
      }
      assert plane * (z + 1) == plane * z + plane;
      assert Offset(d, 0, d.nqy, z) == Offset(d, 0, 0, z + 1);
    }
    assert Offset(d, 0, 0, d.nqz) == Size(d);
    ok := true;
    g := f.(ff := ff);
  }

  /** The numbers of a field as a file would hold them: re and im of each slot in order. */
  function Interleave(ff: seq<Complex>): seq<real> {
    if |ff| == 0 then [] else Interleave(ff[..|ff| - 1]) + [ff[|ff| - 1].re, ff[|ff| - 1].im]
  }

  lemma {:induction false} InterleaveLayout(ff: seq<Complex>)
    ensures |Interleave(ff)| == 2 * |ff|
    ensures forall k :: 0 <= k < |ff| ==> Interleave(ff)[2 * k] == ff[k].re && Interleave(ff)[2 * k + 1] == ff[k].im
    decreases |ff|
  {
    if |ff| > 0 {
      InterleaveLayout(ff[..|ff| - 1]);
    }
  }

  /** Reading back the interleaved numbers of a whole field reproduces the field. */
  lemma ReadInterleaved(ff: seq<Complex>, d: Dims, exhausted: nat -> real)
    requires |ff| == Size(d)
    ensures ReadPairs(Interleave(ff), exhausted, Size(d)) == ff
  {
    InterleaveLayout(ff);
  }
}
