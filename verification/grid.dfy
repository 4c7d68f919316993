/**
 * The dense nqx × nqy × nqz field layout shared by every kernel and
 * serialiser: the linear index `nqx*nqy*z + nqx*y + x` (x fastest), its
 * inverse, the order in which the z/y/x loop nest writes the slots, and the
 * fill loop itself.
 */
module Grid {
  import opened Complex

  datatype Dims = Dims(nqx: nat, nqy: nat, nqz: nat)

  datatype Point = Point(x: nat, y: nat, z: nat)

  function Size(d: Dims): nat {
    d.nqx * d.nqy * d.nqz
  }

  predicate InGrid(d: Dims, p: Point) {
    p.x < d.nqx && p.y < d.nqy && p.z < d.nqz
  }

  /** The index expression as the loops write it, defined for any coordinates. */
  function Offset(d: Dims, x: nat, y: nat, z: nat): nat {
    d.nqx * d.nqy * z + d.nqx * y + x
  }

  /** The slot of a grid point; it always lies inside the field. */
  function Index(d: Dims, p: Point): (k: nat)
    requires InGrid(d, p)
    ensures k < Size(d)
  {
    IndexBound(d, p);
    Offset(d, p.x, p.y, p.z)
  }

  /** The grid point stored at slot k; it is in the grid and indexes back to k. */
  function Decode(d: Dims, k: nat): (p: Point)
    requires k < Size(d)
    ensures InGrid(d, p)
    ensures Index(d, p) == k
  {
    var p := Unflatten(d, k);
    DecodeCorrect(d, k);
    p
  }

  /** z = k / (nqx*nqy), y = (k mod nqx*nqy) / nqx, x = k mod nqx. */
  function Unflatten(d: Dims, k: nat): Point
    requires d.nqx > 0 && d.nqy > 0
  {
    var plane := d.nqx * d.nqy;
    Point((k % plane) % d.nqx, (k % plane) / d.nqx, k / plane)
  }

  lemma DecodeCorrect(d: Dims, k: nat)
    requires k < Size(d)
    ensures d.nqx > 0 && d.nqy > 0
    ensures InGrid(d, Unflatten(d, k))
    ensures Offset(d, Unflatten(d, k).x, Unflatten(d, k).y, Unflatten(d, k).z) == k
  {
    var plane := d.nqx * d.nqy;
    assert plane > 0;
    assert d.nqx > 0;
    var z := k / plane;
    var rem := k % plane;
    var y := rem / d.nqx;
    var x := rem % d.nqx;
    assert k == plane * z + rem;
    assert rem == d.nqx * y + x;
    assert z < d.nqz by {
      if z >= d.nqz {
        MulLeMono(plane, d.nqz, z);
      }
    }
    assert y < d.nqy by {
      if y >= d.nqy {
        MulLeMono(d.nqx, d.nqy, y);
      }
    }
    assert Unflatten(d, k) == Point(x, y, z);
  }

  lemma {:induction false} MulLeMono(a: nat, b: nat, c: nat)
    requires b <= c
    ensures a * b <= a * c
    decreases a
  {
    if a > 0 {
      MulLeMono(a - 1, b, c);
      assert a * b == (a - 1) * b + b;
      assert a * c == (a - 1) * c + c;
    }
  }

  lemma IndexBound(d: Dims, p: Point)
    requires InGrid(d, p)
    ensures Offset(d, p.x, p.y, p.z) < Size(d)
  {
    var plane := d.nqx * d.nqy;
    MulLeMono(d.nqx, p.y + 1, d.nqy);
    assert d.nqx * (p.y + 1) == d.nqx * p.y + d.nqx;
    assert d.nqx * p.y + p.x < plane;
    MulLeMono(plane, p.z + 1, d.nqz);
    assert plane * (p.z + 1) == plane * p.z + plane;
  }

  /** Euclidean division recovers quotient and remainder uniquely. */
  lemma DivModUnique(n: nat, q: nat, r: nat)
    requires r < n
    ensures (n * q + r) / n == q
    ensures (n * q + r) % n == r
  {
    var k := n * q + r;
    var q' := k / n;
    var r' := k % n;
    assert k == n * q' + r';
    if q' < q {
      MulLeMono(n, q' + 1, q);
    } else if q' > q {
      MulLeMono(n, q + 1, q');
    }
  }

  /** Index is injective on the grid: decoding an index gives the point back. */
  lemma DecodeIndex(d: Dims, p: Point)
    requires InGrid(d, p)
    ensures Decode(d, Index(d, p)) == p
  {
    var plane := d.nqx * d.nqy;
    var k := Index(d, p);
    var rem := d.nqx * p.y + p.x;
    assert k == plane * p.z + rem;
    MulLeMono(d.nqx, p.y + 1, d.nqy);
    assert d.nqx * (p.y + 1) == d.nqx * p.y + d.nqx;
    DivModUnique(plane, p.z, rem);
    DivModUnique(d.nqx, p.y, p.x);
  }

  /**
   * Index is a bijection from the grid points onto [0, Size): distinct points
   * get distinct slots and every slot is the index of some point.
   */
  lemma IndexBijective(d: Dims, p: Point, q: Point, k: nat)
    requires InGrid(d, p) && InGrid(d, q)
    requires k < Size(d)
    ensures Index(d, p) == Index(d, q) <==> p == q
    ensures exists r :: InGrid(d, r) && Index(d, r) == k
  {
    if Index(d, p) == Index(d, q) {
      DecodeIndex(d, p);
      DecodeIndex(d, q);
    }
    var r := Decode(d, k);
    assert InGrid(d, r) && Index(d, r) == k;
  }

  /** The integers lo, lo+1, ..., lo+n-1. */
  function Range(lo: nat, n: nat): (s: seq<nat>)
    ensures |s| == n
    ensures forall i :: 0 <= i < n ==> s[i] == lo + i
  {
    seq(n, i requires 0 <= i < n => lo + i)
  }

  lemma RangeAppend(lo: nat, n: nat, m: nat)
    ensures Range(lo, n) + Range(lo + n, m) == Range(lo, n + m)
  {
  }

  /** Slots written by the x loop of row (y, z), first n iterations. */
  function RowWrites(d: Dims, y: nat, z: nat, n: nat): seq<nat>
    requires y < d.nqy && z < d.nqz && n <= d.nqx
  {
    if n == 0 then [] else RowWrites(d, y, z, n - 1) + [Index(d, Point(n - 1, y, z))]
  }

  /** Slots written by the y loop of plane z, first n iterations. */
  function PlaneWrites(d: Dims, z: nat, n: nat): seq<nat>
    requires z < d.nqz && n <= d.nqy
  {
    if n == 0 then [] else PlaneWrites(d, z, n - 1) + RowWrites(d, n - 1, z, d.nqx)
  }

  /** Slots written by the z loop, first n iterations. */
  function FieldWrites(d: Dims, n: nat): seq<nat>
    requires n <= d.nqz
  {
    if n == 0 then [] else FieldWrites(d, n - 1) + PlaneWrites(d, n - 1, d.nqy)
  }

  /** The slots the z/y/x loop nest writes, in the order it writes them. */
  function WriteOrder(d: Dims): seq<nat> {
    FieldWrites(d, d.nqz)
  }

  lemma {:induction false} RowWritesRange(d: Dims, y: nat, z: nat, n: nat)
    requires y < d.nqy && z < d.nqz && n <= d.nqx
    ensures RowWrites(d, y, z, n) == Range(Offset(d, 0, y, z), n)
    decreases n
  {
    if n > 0 {
      RowWritesRange(d, y, z, n - 1);
      RangeAppend(Offset(d, 0, y, z), n - 1, 1);
    }
  }

  lemma {:induction false} PlaneWritesRange(d: Dims, z: nat, n: nat)
    requires z < d.nqz && n <= d.nqy
    ensures PlaneWrites(d, z, n) == Range(Offset(d, 0, 0, z), d.nqx * n)
    decreases n
  {
    if n > 0 {
      PlaneWritesRange(d, z, n - 1);
      RowWritesRange(d, n - 1, z, d.nqx);
      assert d.nqx * n == d.nqx * (n - 1) + d.nqx;
      assert Offset(d, 0, n - 1, z) == Offset(d, 0, 0, z) + d.nqx * (n - 1);
      RangeAppend(Offset(d, 0, 0, z), d.nqx * (n - 1), d.nqx);
    }
  }

  lemma {:induction false} FieldWritesRange(d: Dims, n: nat)
    requires n <= d.nqz
    ensures FieldWrites(d, n) == Range(0, d.nqx * d.nqy * n)
    decreases n
  {
    if n > 0 {
      FieldWritesRange(d, n - 1);
      PlaneWritesRange(d, n - 1, d.nqy);
      var plane := d.nqx * d.nqy;
      assert plane * n == plane * (n - 1) + plane;
      assert Offset(d, 0, 0, n - 1) == plane * (n - 1);
      RangeAppend(0, plane * (n - 1), plane);
    }
  }

  /**
   * The loop nest writes every slot of [0, Size) exactly once, in ascending
   * order: the i-th write goes to slot i.
   */
  lemma WriteOrderCoversEachSlotOnce(d: Dims)
    ensures |WriteOrder(d)| == Size(d)
    ensures forall i :: 0 <= i < Size(d) ==> WriteOrder(d)[i] == i
  {
    FieldWritesRange(d, d.nqz);
  }

  /** The field a kernel produces when the value at point p is point(p). */
  function Field(d: Dims, point: Point -> Complex): seq<Complex> {
    seq(Size(d), k requires 0 <= k < Size(d) => point(Decode(d, k)))
  }

  /**
   * The grid loop every kernel runs: pre-fill Size(d) zeros, then for z, y, x
   * store the point's value at Index. Every slot ends up holding the value of
   * the one grid point that indexes it.
   */
  method FillGrid(d: Dims, point: Point -> Complex) returns (ff: seq<Complex>)
    ensures |ff| == Size(d)
    ensures forall p :: InGrid(d, p) ==> ff[Index(d, p)] == point(p)
    ensures ff == Field(d, point)
  {
    ff := seq(Size(d), _ => Zero);
    var plane := d.nqx * d.nqy;
    for z := 0 to d.nqz
      invariant |ff| == Size(d)
      invariant forall k :: 0 <= k < Size(d) ==>
        ff[k] == if k < Offset(d, 0, 0, z) then point(Decode(d, k)) else Zero
    {
      for y := 0 to d.nqy
        invariant |ff| == Size(d)
        invariant forall k :: 0 <= k < Size(d) ==>
          ff[k] == if k < Offset(d, 0, y, z) then point(Decode(d, k)) else Zero
      {
        for x := 0 to d.nqx
          invariant |ff| == Size(d)
          invariant forall k :: 0 <= k < Size(d) ==>
            ff[k] == if k < Offset(d, x, y, z) then point(Decode(d, k)) else Zero
        {
          var p := Point(x, y, z);
          DecodeIndex(d, p);
          ff := ff[Index(d, p) := point(p)];
        }
        assert d.nqx * (y + 1) == d.nqx * y + d.nqx;
        assert Offset(d, d.nqx, y, z) == Offset(d, 0, y + 1, z);
      }
      assert plane * (z + 1) == plane * z + plane;
      assert Offset(d, 0, d.nqy, z) == Offset(d, 0, 0, z + 1);
    }
    forall p | InGrid(d, p)
      ensures ff[Index(d, p)] == point(p)
    {
      DecodeIndex(d, p);
    }
  }
}
