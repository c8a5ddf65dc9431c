/**
 * The successor table of the navigator (`navigator/src/successors.py`): every
 * direction `(x, y)` with both components in `[-bounds, bounds]`, except
 * `(0, 0)`, reduced by the gcd of its components to a primitive vector and
 * listed once, at its first occurrence in x-major, y-ascending order.
 *
 * Each listed vector carries the squared length of the candidate that first
 * produced it; the script prints the square root of that number.  The
 * printed lines are the returned sequence.
 */
module Successors {
  function Abs(x: int): nat
  {
    if x < 0 then -x else x
  }

  /** Euclid's algorithm on natural numbers. */
  function Gcd(a: nat, b: nat): (g: nat)
    ensures a > 0 || b > 0 ==> g > 0
    decreases b
  {
    if b == 0 then a else Gcd(b, a % b)
  }

  /** `math.gcd(x, y)`: the gcd of the magnitudes. */
  function MathGcd(x: int, y: int): nat
  {
    Gcd(Abs(x), Abs(y))
  }

  /** A positive factor does not make a magnitude smaller. */
  lemma MulGrows(g: nat, a: nat)
    requires g >= 1
    ensures g * a >= a
  {
    assert g * a == a + (g - 1) * a;
  }

  /** A number `d` divides is `d` times its quotient. */
  lemma Multiple(n: int, d: nat)
    requires d > 0 && n % d == 0
    ensures n == d * (n / d)
  {
  }

  /** A multiple of `d` leaves no remainder, and dividing it gives the factor back. */
  lemma DivExact(n: int, d: nat, m: int)
    requires d > 0 && n == d * m
    ensures n % d == 0 && n / d == m
  {
    var q, r := n / d, n % d;
    assert n == d * q + r && 0 <= r < d;
    var t := m - q;
    assert d * t == r by {
      assert d * m - d * q == d * (m - q);
    }
    if t >= 1 {
      MulGrows(t, d);
    }
  }

  /** A common divisor of `x` and `y` divides `q * x + y`. */
  lemma DividesCombination(d: nat, x: int, y: int, q: int)
    requires d > 0 && x % d == 0 && y % d == 0
    ensures (q * x + y) % d == 0
  {
    var kx, ky := x / d, y / d;
    assert x == d * kx;
    assert y == d * ky;
    assert q * x + y == d * (q * kx + ky);
    DivExact(q * x + y, d, q * kx + ky);
  }

  /** The gcd divides both arguments. */
  lemma {:induction false} GcdDivides(a: nat, b: nat)
    requires a > 0 || b > 0
    ensures a % Gcd(a, b) == 0 && b % Gcd(a, b) == 0
    decreases b
  {
    var g := Gcd(a, b);
    if b == 0 {
      DivExact(a, a, 1);
      DivExact(0, a, 0);
    } else {
      GcdDivides(b, a % b);
      assert a == (a / b) * b + a % b;
      DividesCombination(g, b, a % b, a / b);
    }
  }

  /** Every common divisor divides the gcd. */
  lemma {:induction false} CommonDivisorDividesGcd(a: nat, b: nat, d: nat)
    requires d > 0 && a % d == 0 && b % d == 0
    ensures Gcd(a, b) % d == 0
    decreases b
  {
    if b != 0 {
      assert a % b == -(a / b) * b + a;
      DividesCombination(d, b, a, -(a / b));
      CommonDivisorDividesGcd(b, a % b, d);
    }
  }

  /** The magnitude of a product with a positive factor. */
  lemma AbsMul(d: nat, m: int)
    requires d > 0
    ensures Abs(d * m) == d * Abs(m)
  {
    if m < 0 {
      assert d * m == -(d * Abs(m));
    }
  }

  /** A direction divided by the gcd of its components: `(int(x / gcd), int(y / gcd))`. */
  function Reduce(c: (int, int)): (int, int)
    requires c != (0, 0)
  {
    var g := MathGcd(c.0, c.1);
    (c.0 / g, c.1 / g)
  }

  /** The gcd is a positive divisor of both components, which it scales down to the reduced vector. */
  lemma ReduceFactors(c: (int, int))
    requires c != (0, 0)
    ensures MathGcd(c.0, c.1) >= 1
    ensures c.0 == MathGcd(c.0, c.1) * Reduce(c).0 && c.1 == MathGcd(c.0, c.1) * Reduce(c).1
  {
    var g := MathGcd(c.0, c.1);
    GcdDivides(Abs(c.0), Abs(c.1));
    SignedMultiple(c.0, g);
    SignedMultiple(c.1, g);
  }

  /** When `d` divides the magnitude of `x`, `x` is `d` times `x / d`. */
  lemma SignedMultiple(x: int, d: nat)
    requires d > 0 && Abs(x) % d == 0
    ensures x == d * (x / d)
  {
    var m := Abs(x) / d;
    assert Abs(x) == d * m;
    if x < 0 {
      assert x == d * (-m);
      DivExact(x, d, -m);
    } else {
      DivExact(x, d, m);
    }
  }

  /** If `g` is a multiple of `g * h` for positive `g` and `h`, then `h` is 1. */
  lemma OnlyUnitDividesOut(g: nat, h: nat, r: int)
    requires g >= 1 && h >= 1 && g == (g * h) * r
    ensures h == 1
  {
    MulGrows(g, h);
    if r <= 0 {
      MulGrows(g * h, -r);
    } else {
      MulGrows(r, g * h);
      assert (g * h) * r == r * (g * h);
      assert g * h == g + g * (h - 1);
      if h > 1 {
        MulGrows(h - 1, g);
      }
    }
  }

  /** Dividing two numbers by their gcd leaves numbers whose gcd is 1. */
  lemma CoprimeAfterDivision(x: nat, y: nat, g: nat, a: nat, b: nat)
    requires g == Gcd(x, y) && g >= 1 && x == g * a && y == g * b && (a > 0 || b > 0)
    ensures Gcd(a, b) == 1
  {
    var h := Gcd(a, b);
    GcdDivides(a, b);
    var p, q := a / h, b / h;
    Multiple(a, h);
    Multiple(b, h);
    ScaledMultiple(x, g, h, p);
    ScaledMultiple(y, g, h, q);
    CommonDivisorDividesGcd(x, y, g * h);
    var r := g / (g * h);
    Multiple(g, g * h);
    OnlyUnitDividesOut(g, h, r);
  }

  /** A reduced vector is primitive: the gcd of its components is 1. */
  lemma ReducedIsPrimitive(c: (int, int))
    requires c != (0, 0)
    ensures MathGcd(Reduce(c).0, Reduce(c).1) == 1
  {
    var g := MathGcd(c.0, c.1);
    var v := Reduce(c);
    ReduceFactors(c);
    AbsMul(g, v.0);
    AbsMul(g, v.1);
    CoprimeAfterDivision(Abs(c.0), Abs(c.1), g, Abs(v.0), Abs(v.1));
  }

  /** `g * (h * p)` is a multiple of `g * h`. */
  lemma ScaledMultiple(n: int, g: nat, h: nat, p: int)
    requires g >= 1 && h >= 1 && n == g * (h * p)
    ensures g * h >= 1 && n % (g * h) == 0
  {
    MulGrows(g, h);
    assert n == (g * h) * p;
    DivExact(n, g * h, p);
  }

  /** Reducing never lengthens a component. */
  lemma ReduceWithinBounds(c: (int, int))
    requires c != (0, 0)
    ensures Abs(Reduce(c).0) <= Abs(c.0) && Abs(Reduce(c).1) <= Abs(c.1)
  {
    var g := MathGcd(c.0, c.1);
    var v := Reduce(c);
    ReduceFactors(c);
    AbsMul(g, v.0);
    AbsMul(g, v.1);
    MulGrows(g, Abs(v.0));
    MulGrows(g, Abs(v.1));
  }

  /** One printed table entry. */
  datatype Successor = Successor(dx: int, dy: int, squaredDistance: nat)

  function SquaredLength(c: (int, int)): nat
  {
    c.0 * c.0 + c.1 * c.1
  }

  function Vec(s: Successor): (int, int)
  {
    (s.dx, s.dy)
  }

  /** The `seen` set: the vectors already listed. */
  function Vecs(out: seq<Successor>): set<(int, int)>
  {
    set i | 0 <= i < |out| :: Vec(out[i])
  }

  /** The loop body for one candidate. */
  function Step(out: seq<Successor>, c: (int, int)): seq<Successor>
  {
    if c == (0, 0) then out
    else
      var v := Reduce(c);
      if v in Vecs(out) then out else out + [Successor(v.0, v.1, SquaredLength(c))]
  }

  /** The entries listed for a run of candidates, taken in order. */
  function Emit(cs: seq<(int, int)>): seq<Successor>
    decreases |cs|
  {
    if cs == [] then [] else Step(Emit(cs[..|cs| - 1]), cs[|cs| - 1])
  }

  /** The candidates `(x, y)` of one value of `x`, in ascending `y`. */
  function RowOf(bounds: nat, x: int): seq<(int, int)>
  {
    seq(2 * bounds + 1, j requires 0 <= j < 2 * bounds + 1 => (x, j - bounds))
  }

  /** The candidates of the rows from `-bounds` up to, but not including, `upTo`. */
  function Grid(bounds: nat, upTo: int): seq<(int, int)>
    decreases upTo + bounds
  {
    if upTo <= -(bounds as int) then [] else Grid(bounds, upTo - 1) + RowOf(bounds, upTo - 1)
  }

  /** Every candidate of the nested loops, in the order they visit them. */
  function Candidates(bounds: nat): seq<(int, int)>
  {
    Grid(bounds, bounds + 1)
  }

  /** The candidates lie in the square `[-bounds, bounds]²`, and every point of it is a candidate. */
  lemma {:induction false} GridContents(bounds: nat, upTo: int, c: (int, int))
    requires upTo <= bounds + 1
    ensures c in Grid(bounds, upTo) <==> -(bounds as int) <= c.0 < upTo && -(bounds as int) <= c.1 <= bounds
    decreases upTo + bounds
  {
    if upTo > -(bounds as int) {
      GridContents(bounds, upTo - 1, c);
      var row := RowOf(bounds, upTo - 1);
      if c.0 == upTo - 1 && -(bounds as int) <= c.1 <= bounds {
        assert row[c.1 + bounds] == c;
      }
    }
  }

  /** The vectors listed are exactly the reductions of the non-zero candidates. */
  lemma {:induction false} EmitVecs(cs: seq<(int, int)>)
    ensures Vecs(Emit(cs)) == set k | 0 <= k < |cs| && cs[k] != (0, 0) :: Reduce(cs[k])
    decreases |cs|
  {
    if cs != [] {
      var n := |cs| - 1;
      var init := cs[..n];
      EmitVecs(init);
      var out := Emit(init);
      assert forall k :: 0 <= k < n ==> cs[k] == init[k];
      if cs[n] != (0, 0) && Reduce(cs[n]) !in Vecs(out) {
        var out' := out + [Successor(Reduce(cs[n]).0, Reduce(cs[n]).1, SquaredLength(cs[n]))];
        assert forall i :: 0 <= i < |out| ==> out'[i] == out[i];
        assert Vec(out'[|out|]) == Reduce(cs[n]);
        assert Vecs(out') == Vecs(out) + {Reduce(cs[n])};
      }
    }
  }

  /** No vector is listed twice. */
  lemma {:induction false} EmitNoDuplicates(cs: seq<(int, int)>)
    ensures forall i, j :: 0 <= i < j < |Emit(cs)| ==> Vec(Emit(cs)[i]) != Vec(Emit(cs)[j])
    decreases |cs|
  {
    if cs != [] {
      var n := |cs| - 1;
      EmitNoDuplicates(cs[..n]);
      var out := Emit(cs[..n]);
      if Emit(cs) != out {
        forall i | 0 <= i < |out| ensures Vec(out[i]) in Vecs(out) {
        }
      }
    }
  }

  /** Every listed vector is primitive, non-zero and no longer in each component than some candidate. */
  lemma EmitPrimitive(cs: seq<(int, int)>, i: nat)
    requires i < |Emit(cs)|
    ensures var s := Emit(cs)[i];
            MathGcd(s.dx, s.dy) == 1 && (s.dx, s.dy) != (0, 0) &&
            exists k :: 0 <= k < |cs| && cs[k] != (0, 0) && Abs(s.dx) <= Abs(cs[k].0) && Abs(s.dy) <= Abs(cs[k].1)
  {
    var s := Emit(cs)[i];
    EmitVecs(cs);
    assert Vec(s) in Vecs(Emit(cs));
    var k :| 0 <= k < |cs| && cs[k] != (0, 0) && Reduce(cs[k]) == Vec(s);
    ReducedIsPrimitive(cs[k]);
    ReduceWithinBounds(cs[k]);
  }

  /** Candidate `k` is the first non-zero one that reduces to `v`. */
  ghost predicate FirstReducingTo(cs: seq<(int, int)>, k: int, v: (int, int))
  {
    0 <= k < |cs| && cs[k] != (0, 0) && Reduce(cs[k]) == v &&
    forall j :: 0 <= j < k ==> cs[j] == (0, 0) || Reduce(cs[j]) != v
  }

  /** Each vector carries the squared length of the first candidate that reduces to it. */
  lemma {:induction false} EmitFirstOccurrence(cs: seq<(int, int)>)
    ensures forall i :: 0 <= i < |Emit(cs)| ==>
              exists k :: FirstReducingTo(cs, k, Vec(Emit(cs)[i])) && Emit(cs)[i].squaredDistance == SquaredLength(cs[k])
    decreases |cs|
  {
    if cs != [] {
      var n := |cs| - 1;
      var init := cs[..n];
      EmitFirstOccurrence(init);
      var out := Emit(init);
      assert forall k :: 0 <= k < n ==> cs[k] == init[k];
      forall i | 0 <= i < |out|
        ensures exists k :: FirstReducingTo(cs, k, Vec(out[i])) && out[i].squaredDistance == SquaredLength(cs[k])
      {
        var k :| FirstReducingTo(init, k, Vec(out[i])) && out[i].squaredDistance == SquaredLength(init[k]);
        assert FirstReducingTo(cs, k, Vec(out[i]));
      }
      if cs[n] == (0, 0) || Reduce(cs[n]) in Vecs(out) {
        assert Emit(cs) == out;
      } else {
        var v := Reduce(cs[n]);
        EmitVecs(init);
        forall j | 0 <= j < n && cs[j] != (0, 0) ensures Reduce(cs[j]) != v {
          assert Reduce(init[j]) in Vecs(out);
        }
        assert FirstReducingTo(cs, n, v);
        var out' := Emit(cs);
        assert out' == out + [Successor(v.0, v.1, SquaredLength(cs[n]))];
        forall i | 0 <= i < |out'|
          ensures exists k :: FirstReducingTo(cs, k, Vec(out'[i])) && out'[i].squaredDistance == SquaredLength(cs[k])
        {
          if i < |out| {
            assert out'[i] == out[i];
          } else {
            assert FirstReducingTo(cs, n, Vec(out'[i])) && out'[i].squaredDistance == SquaredLength(cs[n]);
          }
        }
      }
    } else {
      assert Emit(cs) == [];
    }
  }

  /** Every non-zero direction of the square is covered by a listed vector. */
  lemma Complete(bounds: nat, c: (int, int))
    requires -(bounds as int) <= c.0 <= bounds && -(bounds as int) <= c.1 <= bounds && c != (0, 0)
    ensures Reduce(c) in Vecs(Emit(Candidates(bounds)))
  {
    GridContents(bounds, bounds + 1, c);
    var cs := Candidates(bounds);
    var k :| 0 <= k < |cs| && cs[k] == c;
    EmitVecs(cs);
  }

  /** Every component of a listed vector lies in `[-bounds, bounds]`. */
  lemma WithinBounds(bounds: nat, i: nat)
    requires i < |Emit(Candidates(bounds))|
    ensures var s := Emit(Candidates(bounds))[i];
            -(bounds as int) <= s.dx <= bounds && -(bounds as int) <= s.dy <= bounds
  {
    var cs := Candidates(bounds);
    EmitPrimitive(cs, i);
    var k :| 0 <= k < |cs| && cs[k] != (0, 0) &&
             Abs(Emit(cs)[i].dx) <= Abs(cs[k].0) && Abs(Emit(cs)[i].dy) <= Abs(cs[k].1);
    GridContents(bounds, bounds + 1, cs[k]);
  }

  /** Listing one more candidate is one more step of the loop body. */
  lemma EmitSnoc(cs: seq<(int, int)>, c: (int, int))
    ensures Emit(cs + [c]) == Step(Emit(cs), c)
  {
    assert (cs + [c])[..|cs|] == cs;
  }

  /** Listing one more entry adds its vector to the `seen` set. */
  lemma VecsSnoc(out: seq<Successor>, s: Successor)
    ensures Vecs(out + [s]) == Vecs(out) + {Vec(s)}
  {
    var out' := out + [s];
    assert forall i :: 0 <= i < |out| ==> out'[i] == out[i];
    assert out'[|out|] == s;
  }

  /** One row of the candidates with `bounds = 1`. */
  lemma RowOfOne(x: int)
    ensures RowOf(1, x) == [(x, -1), (x, 0), (x, 1)]
  {
  }

  /** The candidates with `bounds = 1`, in the order the loops visit them. */
  lemma CandidatesOne()
    ensures Candidates(1) == [(-1, -1), (-1, 0), (-1, 1), (0, -1), (0, 0), (0, 1), (1, -1), (1, 0), (1, 1)]
  {
    RowOfOne(-1);
    RowOfOne(0);
    RowOfOne(1);
    assert Grid(1, -1) == [];
    assert Grid(1, 0) == RowOf(1, -1);
    assert Grid(1, 1) == RowOf(1, -1) + RowOf(1, 0);
    assert Grid(1, 2) == RowOf(1, -1) + RowOf(1, 0) + RowOf(1, 1);
  }

  /** The unit and diagonal directions are already primitive. */
  lemma ReduceUnit(c: (int, int))
    requires -1 <= c.0 <= 1 && -1 <= c.1 <= 1 && c != (0, 0)
    ensures Reduce(c) == c
  {
    assert Gcd(1, 1) == 1 && Gcd(1, 0) == 1 && Gcd(0, 1) == 1;
  }

  /** The entries of candidates that are all different and already primitive: each nonzero one, as it is. */
  function Unreduced(cs: seq<(int, int)>): seq<Successor>
    decreases |cs|
  {
    if cs == [] then []
    else
      var c := cs[|cs| - 1];
      Unreduced(cs[..|cs| - 1]) + if c == (0, 0) then [] else [Successor(c.0, c.1, SquaredLength(c))]
  }

  /**
   * When no candidate needs reducing and none repeats, nothing is dropped:
   * every nonzero candidate is listed, in order, with its own squared length.
   */
  lemma {:induction false} EmitUnits(cs: seq<(int, int)>)
    requires forall i :: 0 <= i < |cs| ==> -1 <= cs[i].0 <= 1 && -1 <= cs[i].1 <= 1
    requires forall i, j :: 0 <= i < j < |cs| ==> cs[i] != cs[j]
    ensures Emit(cs) == Unreduced(cs)
    ensures Vecs(Emit(cs)) == set i | 0 <= i < |cs| && cs[i] != (0, 0) :: cs[i]
    decreases |cs|
  {
    if cs != [] {
      var init, c := cs[..|cs| - 1], cs[|cs| - 1];
      EmitUnits(init);
      var out := Emit(init);
      if c != (0, 0) {
        ReduceUnit(c);
        assert c !in Vecs(out);
        VecsSnoc(out, Successor(c.0, c.1, SquaredLength(c)));
      }
      assert (set i | 0 <= i < |cs| && cs[i] != (0, 0) :: cs[i]) ==
             (set i | 0 <= i < |init| && init[i] != (0, 0) :: init[i]) + (if c == (0, 0) then {} else {c});
    }
  }

  /** The nonzero candidates with `bounds = 1`, listed as they are. */
  lemma UnreducedNeighbours(cs: seq<(int, int)>)
    requires cs == [(-1, -1), (-1, 0), (-1, 1), (0, -1), (0, 0), (0, 1), (1, -1), (1, 0), (1, 1)]
    ensures Unreduced(cs) ==
            [Successor(-1, -1, 2), Successor(-1, 0, 1), Successor(-1, 1, 2), Successor(0, -1, 1),
             Successor(0, 1, 1), Successor(1, -1, 2), Successor(1, 0, 1), Successor(1, 1, 2)]
  {
    assert Unreduced(cs[..0]) == [];
    assert cs[..1][..0] == cs[..0];
    assert Unreduced(cs[..1]) == [Successor(-1, -1, 2)];
    assert cs[..2][..1] == cs[..1];
    assert Unreduced(cs[..2]) == [Successor(-1, -1, 2), Successor(-1, 0, 1)];
    assert cs[..3][..2] == cs[..2];
    assert Unreduced(cs[..3]) == [Successor(-1, -1, 2), Successor(-1, 0, 1), Successor(-1, 1, 2)];
    assert cs[..4][..3] == cs[..3];
    assert Unreduced(cs[..4]) == [Successor(-1, -1, 2), Successor(-1, 0, 1), Successor(-1, 1, 2), Successor(0, -1, 1)];
    assert cs[..5][..4] == cs[..4];
    assert Unreduced(cs[..5]) == [Successor(-1, -1, 2), Successor(-1, 0, 1), Successor(-1, 1, 2), Successor(0, -1, 1)];
    assert cs[..6][..5] == cs[..5];
    assert Unreduced(cs[..6]) == [Successor(-1, -1, 2), Successor(-1, 0, 1), Successor(-1, 1, 2), Successor(0, -1, 1), Successor(0, 1, 1)];
    assert cs[..7][..6] == cs[..6];
    assert Unreduced(cs[..7]) == [Successor(-1, -1, 2), Successor(-1, 0, 1), Successor(-1, 1, 2), Successor(0, -1, 1), Successor(0, 1, 1), Successor(1, -1, 2)];
    assert cs[..8][..7] == cs[..7];
    assert Unreduced(cs[..8]) == [Successor(-1, -1, 2), Successor(-1, 0, 1), Successor(-1, 1, 2), Successor(0, -1, 1), Successor(0, 1, 1), Successor(1, -1, 2), Successor(1, 0, 1)];
    assert cs[..9][..8] == cs[..8];
    assert Unreduced(cs[..9]) == [Successor(-1, -1, 2), Successor(-1, 0, 1), Successor(-1, 1, 2), Successor(0, -1, 1), Successor(0, 1, 1), Successor(1, -1, 2), Successor(1, 0, 1), Successor(1, 1, 2)];
    assert cs[..9] == cs;
  }

  /** With `bounds = 1` the table is the eight neighbour directions. */
  lemma NeighbourTable()
    ensures Emit(Candidates(1)) ==
            [Successor(-1, -1, 2), Successor(-1, 0, 1), Successor(-1, 1, 2), Successor(0, -1, 1),
             Successor(0, 1, 1), Successor(1, -1, 2), Successor(1, 0, 1), Successor(1, 1, 2)]
  {
    var cs: seq<(int, int)> := [(-1, -1), (-1, 0), (-1, 1), (0, -1), (0, 0), (0, 1), (1, -1), (1, 0), (1, 1)];
    CandidatesOne();
    EmitUnits(cs);
    UnreducedNeighbours(cs);
  }

  /** The body of the nested loops for the candidate `(x, y)`. */
  method Visit(x: int, y: int, out0: seq<Successor>, seen0: set<(int, int)>)
    returns (out: seq<Successor>, seen: set<(int, int)>)
    requires seen0 == Vecs(out0)
    ensures out == Step(out0, (x, y)) && seen == Vecs(out)
  {
    out, seen := out0, seen0;
    if x == 0 && y == 0 {
      return;
    }
    var g := MathGcd(x, y);
    var nx, ny := x / g, y / g;
    assert Reduce((x, y)) == (nx, ny);
    if (nx, ny) !in seen {
      VecsSnoc(out, Successor(nx, ny, x * x + y * y));
      seen := seen + {(nx, ny)};
      out := out + [Successor(nx, ny, x * x + y * y)];
    }
  }

  /** The candidates of a row up to `y`, followed by `(x, y)`, are the ones up to `y + 1`. */
  lemma RowPrefixStep(bounds: nat, x: int, y: int, done: seq<(int, int)>)
    requires -(bounds as int) <= y <= bounds
    ensures done + RowOf(bounds, x)[..y + bounds + 1] == (done + RowOf(bounds, x)[..y + bounds]) + [(x, y)]
  {
    var row := RowOf(bounds, x);
    assert row[..y + bounds + 1] == row[..y + bounds] + [(x, y)];
  }

  /**
   * The inner loop of the script, over `y` for one `x`: it extends the table
   * built from the candidates `done` and its `seen` set by the row of `x`.
   */
  method EnumerateRow(bounds: nat, x: int, ghost done: seq<(int, int)>, out0: seq<Successor>, seen0: set<(int, int)>)
    returns (out: seq<Successor>, seen: set<(int, int)>)
    requires out0 == Emit(done) && seen0 == Vecs(out0)
    ensures out == Emit(done + RowOf(bounds, x)) && seen == Vecs(out)
  {
    out, seen := out0, seen0;
    var y: int := -(bounds as int);
    assert done + RowOf(bounds, x)[..0] == done;
    while y < bounds + 1
      invariant -(bounds as int) <= y <= bounds + 1
      invariant out == Emit(done + RowOf(bounds, x)[..y + bounds]) && seen == Vecs(out)
      decreases bounds + 1 - y
    {
      RowPrefixStep(bounds, x, y, done);
      EmitSnoc(done + RowOf(bounds, x)[..y + bounds], (x, y));
      out, seen := Visit(x, y, out, seen);
      y := y + 1;
    }
    assert RowOf(bounds, x)[..2 * bounds + 1] == RowOf(bounds, x);
  }

  /** The rows up to `x`, followed by the row of `x`, are the rows up to `x + 1`. */
  lemma GridStep(bounds: nat, x: int)
    requires -(bounds as int) <= x
    ensures Grid(bounds, x + 1) == Grid(bounds, x) + RowOf(bounds, x)
  {
  }

  /** The script's outer loop over `x`, with the `seen` set shared by all rows. */
  method EnumerateSuccessors(bounds: nat) returns (out: seq<Successor>)
    ensures out == Emit(Candidates(bounds))
  {
    var seen: set<(int, int)> := {};
    out := [];
    var x: int := -(bounds as int);
    while x < bounds + 1
      invariant -(bounds as int) <= x <= bounds + 1
      invariant out == Emit(Grid(bounds, x)) && seen == Vecs(out)
      decreases bounds + 1 - x
    {
      out, seen := EnumerateRow(bounds, x, Grid(bounds, x), out, seen);
      GridStep(bounds, x);
      x := x + 1;
    }
  }
}
