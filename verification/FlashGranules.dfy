/**
 The erase granules of the flash array and what the best way to tile an address range with them is. `FlashErase` proves
 that the driver issues exactly the maximal granules of the requested range; the lemmas here say what that is worth.
 */
module FlashGranules {

  const SIZE_256B := 0x100
  const SIZE_2KB := 0x800
  const SIZE_32KB := 0x8000

  /** The three erase sizes. */
  datatype Kind = B256 | B2K | B32K

  function Bytes(k: Kind): int {
    match k
    case B256 => SIZE_256B
    case B2K => SIZE_2KB
    case B32K => SIZE_32KB
  }

  /** The address of the i-th block of a size. */
  function At(k: Kind, i: int): int {
    match k
    case B256 => SIZE_256B * i
    case B2K => SIZE_2KB * i
    case B32K => SIZE_32KB * i
  }

  /** The `index`-th block of a size: granules are aligned by construction. */
  datatype Granule = Granule(kind: Kind, index: int) {
    function Addr(): int { At(kind, index) }

    function End(): int { At(kind, index) + Bytes(kind) }
  }

  predicate Contains(g: Granule, a: int) {
    g.Addr() <= a < g.End()
  }

  predicate Inside(g: Granule, h: Granule) {
    h.Addr() <= g.Addr() && g.End() <= h.End()
  }

  /** A granule lying within [lo, hi). */
  predicate Fits(g: Granule, lo: int, hi: int) {
    lo <= g.Addr() && g.End() <= hi
  }

  /** A granule of [lo, hi) that no other granule of [lo, hi) encloses. */
  ghost predicate Maximal(g: Granule, lo: int, hi: int) {
    Fits(g, lo, hi) && forall h :: Fits(h, lo, hi) && Inside(g, h) ==> h == g
  }

  function Elements(gs: seq<Granule>): set<Granule> {
    set g | g in gs
  }

  ghost predicate Distinct(gs: seq<Granule>) {
    forall i, j :: 0 <= i < j < |gs| ==> gs[i] != gs[j]
  }

  /** `gs` lists each maximal granule of [lo, hi) once, and nothing else. */
  ghost predicate MaximalTiling(gs: seq<Granule>, lo: int, hi: int) {
    Distinct(gs) && forall g :: g in gs <==> Maximal(g, lo, hi)
  }

  ghost predicate Covered(cover: set<Granule>, a: int) {
    exists g :: g in cover && Contains(g, a)
  }

  /** Every byte of [lo, hi) lies in some granule of `cover`. */
  ghost predicate Covers(cover: set<Granule>, lo: int, hi: int) {
    forall a :: lo <= a < hi ==> Covered(cover, a)
  }

  // ----- alignment

  /** `a` is a multiple of the block size. */
  ghost predicate Boundary(a: int, k: Kind) {
    exists i :: a == At(k, i)
  }

  /** Boundaries that differ do so by at least a block. */
  lemma Step(k: Kind, x: int, y: int)
    requires Boundary(x, k) && Boundary(y, k) && x < y
    ensures x + Bytes(k) <= y
  {
    var i :| x == At(k, i);
    var j :| y == At(k, j);
    assert i < j;
  }

  lemma Next(k: Kind, a: int)
    requires Boundary(a, k)
    ensures Boundary(a + Bytes(k), k)
  {
    var i :| a == At(k, i);
    assert a + Bytes(k) == At(k, i + 1);
  }

  /** A boundary is one for each smaller size. */
  lemma Finer(a: int)
    ensures Boundary(a, B32K) ==> Boundary(a, B2K)
    ensures Boundary(a, B2K) ==> Boundary(a, B256)
  {
    if Boundary(a, B32K) {
      var i :| a == At(B32K, i);
      assert a == At(B2K, 16 * i);
    }
    if Boundary(a, B2K) {
      var i :| a == At(B2K, i);
      assert a == At(B256, 8 * i);
    }
  }

  /** Alignment makes granules laminar: two that share a byte are nested. */
  lemma Nested(g: Granule, h: Granule, a: int)
    requires Contains(g, a) && Contains(h, a)
    ensures Bytes(g.kind) <= Bytes(h.kind) ==> Inside(g, h)
    ensures Bytes(h.kind) <= Bytes(g.kind) ==> Inside(h, g)
  {
    if Bytes(g.kind) <= Bytes(h.kind) {
      NestedIn(g, h, a);
    }
    if Bytes(h.kind) <= Bytes(g.kind) {
      NestedIn(h, g, a);
    }
  }

  lemma NestedIn(g: Granule, h: Granule, a: int)
    requires Contains(g, a) && Contains(h, a) && Bytes(g.kind) <= Bytes(h.kind)
    ensures Inside(g, h)
  {
    Next(h.kind, h.Addr());
    Finer(h.Addr());
    Finer(h.End());
    if g.Addr() < h.Addr() {
      Step(g.kind, g.Addr(), h.Addr());
    }
    Step(g.kind, g.Addr(), h.End());
  }

  lemma BlockExists(a: int, k: Kind) returns (i: int)
    ensures At(k, i) <= a < At(k, i) + Bytes(k)
  {
    match k
    case B256 => i := a / SIZE_256B;
    case B2K => i := a / SIZE_2KB;
    case B32K => i := a / SIZE_32KB;
  }

  /** The granule of a size around an address. */
  ghost function Block(a: int, k: Kind): (g: Granule)
    ensures g.kind == k && Contains(g, a)
  {
    assert exists i :: At(k, i) <= a < At(k, i) + Bytes(k) by { var i := BlockExists(a, k); }
    var i :| At(k, i) <= a < At(k, i) + Bytes(k);
    Granule(k, i)
  }

  lemma SameBlock(g: Granule, block: Granule, a: int)
    requires Bytes(g.kind) <= Bytes(block.kind) && Contains(g, a) && Contains(block, a)
    ensures Block(g.Addr(), block.kind) == block
  {
    Nested(g, block, a);
    Nested(Block(g.Addr(), block.kind), block, g.Addr());
  }

  // ----- what a maximal tiling is worth

  lemma MaximalDisjoint(g: Granule, h: Granule, lo: int, hi: int, a: int)
    requires Maximal(g, lo, hi) && Maximal(h, lo, hi)
    requires Contains(g, a) && Contains(h, a)
    ensures g == h
  {
    Nested(g, h, a);
  }

  /** A granule is maximal when the block of the next size around it leaves the range. */
  lemma MaximalIff(g: Granule, lo: int, hi: int)
    ensures Maximal(g, lo, hi) <==>
      && Fits(g, lo, hi)
      && (g.kind == B2K ==> !Fits(Block(g.Addr(), B32K), lo, hi))
      && (g.kind == B256 ==> !Fits(Block(g.Addr(), B2K), lo, hi))
  {
    var block, page := Block(g.Addr(), B32K), Block(g.Addr(), B2K);
    Nested(g, block, g.Addr());
    Nested(g, page, g.Addr());
    Nested(page, block, g.Addr());
    forall h | Fits(h, lo, hi) && Inside(g, h)
      ensures h == g || h == block || (h == page && g.kind == B256)
    {
      Nested(h, block, g.Addr());
      Nested(h, page, g.Addr());
      Nested(h, g, g.Addr());
    }
  }

  /** In a range of whole 256-byte granules each byte has its maximal granule. */
  lemma MaximalAt(lo: int, hi: int, a: int) returns (g: Granule)
    requires Boundary(lo, B256) && Boundary(hi, B256) && lo <= a < hi
    ensures Maximal(g, lo, hi) && Contains(g, a)
  {
    var big, middle, small := Block(a, B32K), Block(a, B2K), Block(a, B256);
    if Fits(big, lo, hi) {
      g := big;
    } else if Fits(middle, lo, hi) {
      g := middle;
      SameBlock(middle, big, a);
    } else {
      g := small;
      SameBlock(small, middle, a);
      if small.Addr() < lo {
        Step(B256, small.Addr(), lo);
      }
      Step(B256, small.Addr(), hi);
    }
    MaximalIff(g, lo, hi);
  }

  /** The granules of a maximal tiling are pairwise disjoint and their union is exactly [lo, hi). */
  lemma TilingIsExact(gs: seq<Granule>, lo: int, hi: int)
    requires Boundary(lo, B256) && Boundary(hi, B256)
    requires MaximalTiling(gs, lo, hi)
    ensures forall i, j, a :: 0 <= i < j < |gs| ==> !(Contains(gs[i], a) && Contains(gs[j], a))
    ensures forall a :: lo <= a < hi <==> Covered(Elements(gs), a)
  {
    forall i, j, a | 0 <= i < j < |gs| && Contains(gs[i], a) && Contains(gs[j], a)
      ensures false
    {
      assert gs[i] in gs && gs[j] in gs;
      MaximalDisjoint(gs[i], gs[j], lo, hi, a);
    }
    forall a
      ensures lo <= a < hi <==> Covered(Elements(gs), a)
    {
      if lo <= a < hi {
        var g := MaximalAt(lo, hi, a);
        assert g in gs;
      }
    }
  }

  /** A granule that meets two different maximal granules would lie inside both. */
  lemma MeetsOnlyOne(g: Granule, k: Granule, h: Granule, lo: int, hi: int)
    requires Maximal(g, lo, hi) && Maximal(k, lo, hi) && g != k
    requires Fits(h, lo, hi) && Contains(h, g.Addr())
    ensures !Contains(h, k.Addr())
  {
    if Contains(h, k.Addr()) {
      Nested(g, h, g.Addr());
      MaximalDisjoint(g, k, lo, hi, k.Addr());
    }
  }

  /** A cover spends a granule of its own on each of several maximal granules. */
  lemma {:induction false} AtLeastAsMany(gs: seq<Granule>, cover: set<Granule>, lo: int, hi: int)
    requires Distinct(gs) && forall g | g in gs :: Maximal(g, lo, hi)
    requires forall h | h in cover :: Fits(h, lo, hi)
    requires forall g | g in gs :: Covered(cover, g.Addr())
    ensures |gs| <= |cover|
  {
    if gs != [] {
      var g, rest := gs[0], gs[1..];
      assert g in gs && Covered(cover, g.Addr());
      var h :| h in cover && Contains(h, g.Addr());
      forall k | k in rest
        ensures Maximal(k, lo, hi) && Covered(cover - {h}, k.Addr())
      {
        assert k in gs && k != g && Covered(cover, k.Addr());
        MeetsOnlyOne(g, k, h, lo, hi);
        var h' :| h' in cover && Contains(h', k.Addr());
        assert h' in cover - {h};
      }
      AtLeastAsMany(rest, cover - {h}, lo, hi);
    }
  }

  /** A maximal tiling uses the fewest granules: no cover of [lo, hi) by granules lying in it, overlapping
      or not, is smaller, and the only cover of the same size is the tiling itself. */
  lemma FewestGranules(gs: seq<Granule>, cover: set<Granule>, lo: int, hi: int)
    requires MaximalTiling(gs, lo, hi)
    requires forall h | h in cover :: Fits(h, lo, hi)
    requires Covers(cover, lo, hi)
    ensures |gs| <= |cover|
    ensures |gs| == |cover| ==> cover == Elements(gs)
  {
    assert forall g | g in gs :: Maximal(g, lo, hi) && lo <= g.Addr() < hi && Covered(cover, g.Addr());
    AtLeastAsMany(gs, cover, lo, hi);
    if |gs| == |cover| {
      forall g | g in gs
        ensures g in cover
      {
        SoleCoverOfGranule(gs, cover, lo, hi, g);
      }
      SameSize(gs, cover);
    }
  }

  /** The step to uniqueness: a cover no larger than the tiling holds every granule of the tiling. */
  lemma SoleCoverOfGranule(gs: seq<Granule>, cover: set<Granule>, lo: int, hi: int, g: Granule)
    requires MaximalTiling(gs, lo, hi) && g in gs
    requires forall h | h in cover :: Fits(h, lo, hi)
    requires Covers(cover, lo, hi) && |gs| == |cover|
    ensures g in cover
  {
    assert Covered(cover, g.Addr());
    var first :| first in cover && Contains(first, g.Addr());
    Nested(g, first, g.Addr());
    if first != g {
      // The last byte of g then needs a second granule of the cover, leaving too few for the rest.
      var z := g.End() - 1;
      assert Covered(cover, z);
      var last :| last in cover && Contains(last, z);
      Nested(g, last, z);
      assert first != last;
      forall k | k in gs
        ensures Covered(cover - {last}, k.Addr())
      {
        assert Maximal(k, lo, hi) && Covered(cover, k.Addr());
        if k == g {
          assert first in cover - {last};
        } else {
          var h :| h in cover && Contains(h, k.Addr());
          if h == last {
            MaximalDisjoint(g, k, lo, hi, k.Addr());
          }
        }
      }
      AtLeastAsMany(gs, cover - {last}, lo, hi);
    }
  }

  lemma {:induction false} SameSize(gs: seq<Granule>, cover: set<Granule>)
    requires Distinct(gs) && |gs| == |cover| && forall g | g in gs :: g in cover
    ensures cover == Elements(gs)
  {
    if gs != [] {
      assert gs == [gs[0]] + gs[1..];
      assert gs[0] in gs && gs[0] !in gs[1..];
      SameSize(gs[1..], cover - {gs[0]});
      assert Elements(gs) == {gs[0]} + Elements(gs[1..]);
    }
  }

  // ----- the tiling the driver makes: 256-byte, 2 KB and 32 KB granules, from the ends inwards

  /** `n` granules of one size, one after another. */
  function Run(k: Kind, i: int, n: nat): seq<Granule> {
    seq(n, j requires 0 <= j < n => Granule(k, i + j))
  }

  /** `gs` lists the granules of one size lying in [lo, hi), once each. */
  ghost predicate Fills(gs: seq<Granule>, lo: int, hi: int, k: Kind) {
    Distinct(gs) && forall g: Granule :: g in gs <==> g.kind == k && Fits(g, lo, hi)
  }

  lemma RunFills(k: Kind, i: int, n: nat)
    ensures Fills(Run(k, i, n), At(k, i), At(k, i + n), k)
  {
    forall g: Granule | g.kind == k && Fits(g, At(k, i), At(k, i + n))
      ensures g in Run(k, i, n)
    {
      assert g == Run(k, i, n)[g.index - i];
    }
  }

  /** One size at both ends: the granules lying in [f, p) and in [q, b). */
  ghost predicate FillsBoth(gs: seq<Granule>, f: int, p: int, q: int, b: int, k: Kind) {
    Distinct(gs) && forall g: Granule :: g in gs <==> g.kind == k && (Fits(g, f, p) || Fits(g, q, b))
  }

  lemma JoinFills(xs: seq<Granule>, ys: seq<Granule>, f: int, p: int, q: int, b: int, k: Kind)
    requires Fills(xs, f, p, k) && Fills(ys, q, b, k) && p <= q
    ensures FillsBoth(xs + ys, f, p, q, b, k)
  {
  }

  lemma Join(xs: seq<Granule>, ys: seq<Granule>)
    requires Distinct(xs) && Distinct(ys) && forall g :: !(g in xs && g in ys)
    ensures Distinct(xs + ys)
  {
    forall i, j | 0 <= i < j < |xs + ys|
      ensures (xs + ys)[i] != (xs + ys)[j]
    {
      if i < |xs| <= j {
        assert xs[i] in xs && ys[j - |xs|] in ys;
      }
    }
  }

  /** The front [lo, m) cut at `f`, leaving less than a block before the cut. */
  ghost predicate FrontCutAt(lo: int, f: int, m: int, k: Kind) {
    if m - lo < Bytes(k) then lo <= f == m else lo <= f <= m && f - lo < Bytes(k) && Boundary(f, k) && Boundary(m, k)
  }

  /** The back [m, hi) cut at `b`, leaving less than a block behind the cut. */
  ghost predicate BackCutAt(m: int, b: int, hi: int, k: Kind) {
    if hi - m < Bytes(k) then m == b <= hi else m <= b <= hi && hi - b < Bytes(k) && Boundary(m, k) && Boundary(b, k)
  }

  /** The range split at `m`: on a 32 KB or a 2 KB boundary, or not at all if it is too short for one. */
  ghost predicate SplitAt(lo: int, m: int, hi: int) {
    && lo < m <= hi
    && if hi - lo >= SIZE_32KB then m - lo <= SIZE_32KB && Boundary(m, B32K)
       else if hi - lo >= SIZE_2KB then m - lo <= SIZE_2KB && Boundary(m, B2K)
       else m == hi
  }

  /** The cuts for a size leave less than a block at either end, or the range is shorter than a block and uncut. */
  ghost predicate Cuts(lo: int, f: int, b: int, hi: int, k: Kind) {
    || (lo <= f == b <= hi && hi - lo < Bytes(k))
    || (lo <= f <= b <= hi && Boundary(f, k) && Boundary(b, k) && f - lo < Bytes(k) && hi - b < Bytes(k))
  }

  /** A boundary is not inside a block. */
  lemma NotInside(g: Granule, p: int)
    requires Boundary(p, g.kind)
    ensures p <= g.Addr() || g.End() <= p
  {
    if g.Addr() < p {
      Step(g.kind, g.Addr(), p);
    }
  }

  /** A granule of [lo, hi) lies between the cuts for its size. */
  lemma BetweenCuts(g: Granule, lo: int, f: int, b: int, hi: int)
    requires Cuts(lo, f, b, hi, g.kind)
    ensures Fits(g, lo, hi) ==> Fits(g, f, b)
  {
    if Fits(g, lo, hi) {
      NotInside(g, f);
      NotInside(g, b);
    }
  }

  /** A block around `a` lies in the range just when `a` is between the cuts. */
  lemma BlockFits(block: Granule, a: int, lo: int, f: int, b: int, hi: int)
    requires Cuts(lo, f, b, hi, block.kind) && Contains(block, a)
    ensures Fits(block, lo, hi) <==> f <= a < b
  {
    BetweenCuts(block, lo, f, b, hi);
    if f <= a < b {
      NotInside(block, f);
      NotInside(block, b);
    }
  }

  /** With cuts f1, b1 for 32 KB and f2, b2 for 2 KB, the maximal granules are the 32 KB ones in [f1, b1), the
      2 KB ones in [f2, f1) and [b1, b2), and the 256-byte ones in [lo, f2) and [b2, hi). */
  lemma MaximalByCuts(g: Granule, lo: int, f2: int, f1: int, b1: int, b2: int, hi: int)
    requires Cuts(lo, f1, b1, hi, B32K) && Cuts(lo, f2, b2, hi, B2K) && f2 <= f1 && b1 <= b2
    requires (f2 == b2 || (Boundary(f1, B2K) && Boundary(b1, B2K))) && Boundary(f2, B256) && Boundary(b2, B256)
    ensures Maximal(g, lo, hi) <==>
      match g.kind
      case B32K => Fits(g, f1, b1)
      case B2K => Fits(g, f2, f1) || Fits(g, b1, b2)
      case B256 => Fits(g, lo, f2) || Fits(g, b2, hi)
  {
    MaximalIff(g, lo, hi);
    match g.kind
    case B32K =>
      BetweenCuts(g, lo, f1, b1, hi);
    case B2K =>
      BetweenCuts(g, lo, f2, b2, hi);
      BlockFits(Block(g.Addr(), B32K), g.Addr(), lo, f1, b1, hi);
      if f2 != b2 {
        NotInside(g, f1);
        NotInside(g, b1);
      }
    case B256 =>
      BlockFits(Block(g.Addr(), B2K), g.Addr(), lo, f2, b2, hi);
      NotInside(g, f2);
      NotInside(g, b2);
  }

  /** The range split at `m`, its two parts cut for 32 KB granules at f1 and b1 and what is left of them for 2 KB
      granules at f2 and b2. */
  ghost predicate DriverCut(lo: int, f2: int, f1: int, m: int, b1: int, b2: int, hi: int) {
    && SplitAt(lo, m, hi)
    && FrontCutAt(lo, f1, m, B32K) && BackCutAt(m, b1, hi, B32K)
    && FrontCutAt(lo, f2, f1, B2K) && BackCutAt(b1, b2, hi, B2K)
  }

  /** These cuts are where the maximal tiling has them. */
  lemma DriverCuts(lo: int, f2: int, f1: int, m: int, b1: int, b2: int, hi: int)
    requires Boundary(lo, B256) && Boundary(hi, B256) && DriverCut(lo, f2, f1, m, b1, b2, hi)
    ensures Cuts(lo, f1, b1, hi, B32K) && Cuts(lo, f2, b2, hi, B2K) && f2 <= f1 <= m <= b1 <= b2
    ensures (f2 == b2 || (Boundary(f1, B2K) && Boundary(b1, B2K))) && Boundary(f2, B256) && Boundary(b2, B256)
    ensures Boundary(m, B32K) || f1 == b1
  {
    Finer(m);
    Finer(f1);
    Finer(b1);
    Finer(f2);
    Finer(b2);
  }

  lemma DriverTiling(lo: int, f2: int, f1: int, m: int, b1: int, b2: int, hi: int,
                     big: seq<Granule>, middle: seq<Granule>, small: seq<Granule>)
    requires Boundary(lo, B256) && Boundary(hi, B256) && DriverCut(lo, f2, f1, m, b1, b2, hi)
    requires FillsBoth(big, f1, m, m, b1, B32K) && FillsBoth(middle, f2, f1, b1, b2, B2K) &&
        FillsBoth(small, lo, f2, b2, hi, B256)
    ensures MaximalTiling(big + (middle + small), lo, hi)
  {
    DriverCuts(lo, f2, f1, m, b1, b2, hi);
    Join(middle, small);
    Join(big, middle + small);
    forall g
      ensures g in big + (middle + small) <==> Maximal(g, lo, hi)
    {
      MaximalByCuts(g, lo, f2, f1, b1, b2, hi);
      if g.kind == B32K && f1 < b1 {
        NotInside(g, m);
      }
    }
  }
}
