/** Antennas on a grid, each tuned to a frequency, and the antinodes they cast. For an ordered
    pair of distinct antennas `a`, `o` of one frequency, the first antinode lies beyond `a` at
    the distance between them, `a - (o - a)`; with resonant harmonics the antinodes continue
    along that line, `a - k (o - a)` for k = 1, 2, ..., up to the grid's edge. */
module Antennas {
  import Text

  /** (row, column). */
  type Pos = (int, int)

  /** An antenna's frequency: the low byte of its character (`char as u8`). */
  type Byte = b: nat | b < 256

  function ByteOf(c: char): Byte
  {
    (c as int) % 256
  }

  /** Both coordinates inside the grid's dimensions. */
  predicate Inside(dims: (int, int), p: Pos)
  {
    0 <= p.0 < dims.0 && 0 <= p.1 < dims.1
  }

  function Sub(p: Pos, d: Pos): Pos
  {
    (p.0 - d.0, p.1 - d.1)
  }

  /** The vector from `a` to `o`. */
  function Delta(a: Pos, o: Pos): Pos
  {
    (o.0 - a.0, o.1 - a.1)
  }

  /** `a - k d`. */
  function Along(a: Pos, d: Pos, k: nat): Pos
  {
    (a.0 - k * d.0, a.1 - k * d.1)
  }

  /** A bound on how many more steps by `-d` stay inside the grid. */
  function Room(dims: (int, int), p: Pos, d: Pos): int
  {
    if d.0 > 0 then p.0 else if d.0 < 0 then dims.0 - p.0 else if d.1 > 0 then p.1 else dims.1 - p.1
  }

  /** The points `s`, `s - d`, `s - 2d`, ... before the first one outside the grid. */
  function Ray(dims: (int, int), s: Pos, d: Pos): set<Pos>
    requires d != (0, 0)
    decreases if Inside(dims, s) then Room(dims, s, d) + 1 else 0
  {
    if Inside(dims, s) then {s} + Ray(dims, Sub(s, d), d) else {}
  }

  /** Two distinct antennas of one frequency. */
  predicate Pair(points: map<Pos, Byte>, a: Pos, o: Pos)
  {
    a in points && o in points && a != o && points[a] == points[o]
  }

  /** What the pair `a`, `o` casts beyond `a`: the first point only, or the whole ray. */
  function Emitted(dims: (int, int), a: Pos, o: Pos, part2: bool): set<Pos>
    requires a != o
  {
    var d := Delta(a, o);
    var start := Sub(a, d);
    if part2 then Ray(dims, start, d) else if Inside(dims, start) then {start} else {}
  }

  /** The antinodes of the pairs whose first antenna is in `from` and second in `to`. */
  function Antinodes(points: map<Pos, Byte>, dims: (int, int), part2: bool, from: set<Pos>, to: set<Pos>): set<Pos>
  {
    set a, o, p | a in from && o in to && Pair(points, a, o) && p in Emitted(dims, a, o, part2) :: p
  }

  function AllAntinodes(points: map<Pos, Byte>, dims: (int, int), part2: bool): set<Pos>
  {
    Antinodes(points, dims, part2, points.Keys, points.Keys)
  }

  /** The count `n_antipodes` reports: the antinodes, with the antennas' own cells added in
      part 2. */
  function Count(antinodes: set<Pos>, points: map<Pos, Byte>, part2: bool): nat
  {
    if part2 then |antinodes + points.Keys| else |antinodes|
  }

  /** A line being read holds an antenna at `p`. */
  predicate Marked(lines: seq<string>, p: Pos)
  {
    0 <= p.0 < |lines| && 0 <= p.1 < |lines[p.0]| && lines[p.0][p.1] != '.'
  }

  class Antennas {
    var dimensions: (int, int)
    var antipodes: set<Pos>
    var points: map<Pos, Byte>

    /** `Antennas::new`: every character other than '.' is an antenna at its (line, character)
        position; the dimensions are the number of lines and the byte length of the first. */
    constructor (state: string)
      requires Text.Lines(state) != []
      ensures dimensions == (|Text.Lines(state)|, Text.Utf8Len(Text.Lines(state)[0]))
      ensures antipodes == {}
      ensures forall p :: p in points <==> Marked(Text.Lines(state), p)
      ensures forall p :: Marked(Text.Lines(state), p) ==> p in points && points[p] == ByteOf(Text.Lines(state)[p.0][p.1])
    {
      var lines := Text.Lines(state);
      var found: map<Pos, Byte> := map[];
      for x := 0 to |lines|
        invariant forall p :: p in found <==> p.0 < x && Marked(lines, p)
        invariant forall p :: p in found ==> Marked(lines, p) && found[p] == ByteOf(lines[p.0][p.1])
      {
        var row := lines[x];
        for y := 0 to |row|
          invariant forall p :: p in found <==> (p.0 < x || (p.0 == x && p.1 < y)) && Marked(lines, p)
          invariant forall p :: p in found ==> Marked(lines, p) && found[p] == ByteOf(lines[p.0][p.1])
        {
          var col := row[y];
          if col == '.' {
            continue;
          } else {
            found := found[(x, y) := ByteOf(col)];
          }
        }
      }
      dimensions := (|lines|, Text.Utf8Len(lines[0]));
      points := found;
      antipodes := {};
    }

    /** `Antennas::distances`: for every ordered pair of distinct antennas of one frequency,
        in the map's iteration order, insert what the pair casts. */
    method Distances(part2: bool)
      modifies this
      ensures dimensions == old(dimensions) && points == old(points)
      ensures antipodes == old(antipodes) + AllAntinodes(points, dimensions, part2)
    {
      var keys := points.Keys;
      var outer := keys;
      ghost var done: set<Pos> := {};
      while outer != {}
        invariant dimensions == old(dimensions) && points == old(points) && keys == points.Keys
        invariant outer <= keys && done == keys - outer
        invariant antipodes == old(antipodes) + Antinodes(points, dimensions, part2, done, keys)
        decreases |outer|
      {
        var ants :| ants in outer;
        ghost var prior := antipodes;
        CastFrom(ants, part2);
        AddFirst(points, dimensions, part2, done, ants, keys, old(antipodes), prior, antipodes);
        assert keys - (outer - {ants}) == done + {ants};
        outer := outer - {ants};
        done := done + {ants};
      }
    }

    /** The loop over the other antennas, for the antenna `ants`. */
    method CastFrom(ants: Pos, part2: bool)
      requires ants in points
      modifies this
      ensures dimensions == old(dimensions) && points == old(points)
      ensures antipodes == old(antipodes) + Antinodes(points, dimensions, part2, {ants}, points.Keys)
    {
      var antType := points[ants];
      var others := points.Keys;
      ghost var seen: set<Pos> := {};
      while others != {}
        invariant dimensions == old(dimensions) && points == old(points)
        invariant others <= points.Keys && seen == points.Keys - others
        invariant antipodes == old(antipodes) + Antinodes(points, dimensions, part2, {ants}, seen)
        decreases |others|
      {
        var o :| o in others;
        assert points.Keys - (others - {o}) == seen + {o};
        others := others - {o};
        ghost var prior := antipodes;
        if o != ants {
          var otherType := points[o];
          if otherType == antType {
            Cast(ants, o, part2);
          }
        }
        AddSecond(points, dimensions, part2, ants, seen, o, old(antipodes), prior, antipodes);
        seen := seen + {o};
      }
    }

    /** The stepping loop for one pair: insert `a - d`, `a - 2d`, ... while inside the grid,
        stopping after the first insertion unless `part2`. */
    method Cast(a: Pos, o: Pos, part2: bool)
      requires a != o
      modifies this
      ensures dimensions == old(dimensions) && points == old(points)
      ensures antipodes == old(antipodes) + Emitted(dimensions, a, o, part2)
    {
      var distance := Delta(a, o);
      var sub := Sub(a, distance);
      ghost var start := sub;
      while Inside(dimensions, sub)
        invariant dimensions == old(dimensions) && points == old(points)
        invariant antipodes + Ray(dimensions, sub, distance) == old(antipodes) + Ray(dimensions, start, distance)
        invariant !part2 ==> sub == start && antipodes == old(antipodes)
        decreases Room(dimensions, sub, distance) + 1
      {
        antipodes := antipodes + {sub};
        sub := Sub(sub, distance);
        if !part2 {
          break;
        }
      }
    }

    /** `Antennas::n_antipodes`: the antinodes counted once each (sort and dedup of the
        positions, in part 2 with the antennas' positions added). */
    function NAntipodes(part2: bool): (n: nat)
      reads this
      ensures n >= |antipodes|
      ensures part2 ==> |points.Keys| <= n <= |antipodes| + |points.Keys|
    {
      UnionCard(antipodes, points.Keys);
      Count(antipodes, points, part2)
    }
  }

  // ---------------------------------------------------------------------------------------
  // The loops' steps

  lemma {:induction false} UnionCard<T>(a: set<T>, b: set<T>)
    ensures |a| <= |a + b| <= |a| + |b| && |b| <= |a + b|
  {
    assert |a + b| == |a - b| + |b - a| + |a * b|;
    assert |a| == |a - b| + |a * b|;
    assert |b| == |b - a| + |a * b|;
  }

  lemma {:induction false} SubsetCard<T>(a: set<T>, b: set<T>)
    requires a <= b
    ensures |a| <= |b|
  {
    assert b * a == a;
    assert |b| == |b - a| + |b * a|;
  }

  lemma {:induction false} AddSecond(points: map<Pos, Byte>, dims: (int, int), part2: bool, a: Pos, seen: set<Pos>, o: Pos,
                                     base: set<Pos>, prior: set<Pos>, now: set<Pos>)
    requires prior == base + Antinodes(points, dims, part2, {a}, seen)
    requires now == prior + if Pair(points, a, o) then Emitted(dims, a, o, part2) else {}
    ensures now == base + Antinodes(points, dims, part2, {a}, seen + {o})
  {
    var l := Antinodes(points, dims, part2, {a}, seen + {o});
    var r := Antinodes(points, dims, part2, {a}, seen) + (if Pair(points, a, o) then Emitted(dims, a, o, part2) else {});
    forall p | p in l ensures p in r {
      var a', o' :| a' in {a} && o' in seen + {o} && Pair(points, a', o') && p in Emitted(dims, a', o', part2);
    }
  }

  lemma {:induction false} AddFirst(points: map<Pos, Byte>, dims: (int, int), part2: bool, done: set<Pos>, a: Pos, to: set<Pos>,
                                    base: set<Pos>, prior: set<Pos>, now: set<Pos>)
    requires prior == base + Antinodes(points, dims, part2, done, to)
    requires now == prior + Antinodes(points, dims, part2, {a}, to)
    ensures now == base + Antinodes(points, dims, part2, done + {a}, to)
  {
    var l := Antinodes(points, dims, part2, done + {a}, to);
    forall p | p in l ensures p in Antinodes(points, dims, part2, done, to) + Antinodes(points, dims, part2, {a}, to) {
      var a', o' :| a' in done + {a} && o' in to && Pair(points, a', o') && p in Emitted(dims, a', o', part2);
    }
  }

  // ---------------------------------------------------------------------------------------
  // What the antinodes are

  /** A part-1 antinode is inside the grid, the mirror image of an antenna through another
      of the same frequency. */
  lemma {:induction false} MirrorSound(points: map<Pos, Byte>, dims: (int, int), p: Pos) returns (a: Pos, o: Pos)
    requires p in AllAntinodes(points, dims, false)
    ensures Pair(points, a, o) && Inside(dims, p) && p == (2 * a.0 - o.0, 2 * a.1 - o.1)
  {
    a, o :| a in points.Keys && o in points.Keys && Pair(points, a, o) && p in Emitted(dims, a, o, false);
  }

  /** Every such mirror image inside the grid is a part-1 antinode. */
  lemma {:induction false} MirrorComplete(points: map<Pos, Byte>, dims: (int, int), a: Pos, o: Pos)
    requires Pair(points, a, o) && Inside(dims, (2 * a.0 - o.0, 2 * a.1 - o.1))
    ensures (2 * a.0 - o.0, 2 * a.1 - o.1) in AllAntinodes(points, dims, false)
  {
    assert (2 * a.0 - o.0, 2 * a.1 - o.1) in Emitted(dims, a, o, false);
  }

  /** Every point of a ray is inside the grid and a whole number of steps from its start. */
  lemma {:induction false} RaySound(dims: (int, int), s: Pos, d: Pos, p: Pos) returns (k: nat)
    requires d != (0, 0) && p in Ray(dims, s, d)
    ensures Inside(dims, p) && p == Along(s, d, k)
    decreases if Inside(dims, s) then Room(dims, s, d) + 1 else 0
  {
    if p == s {
      k := 0;
    } else {
      var j := RaySound(dims, Sub(s, d), d, p);
      k := j + 1;
      assert Along(Sub(s, d), d, j) == Along(s, d, k) by {
        assert j * d.0 + d.0 == k * d.0 && j * d.1 + d.1 == k * d.1;
      }
    }
  }

  /** A coordinate between two coordinates in range is in range. */
  lemma {:induction false} Between(n: int, a: int, dd: int, k: nat)
    requires k >= 1 && 0 <= a < n && 0 <= a - k * dd < n
    ensures 0 <= a - dd < n
  {
    assert k * dd - dd == (k - 1) * dd;
    if dd >= 0 {
      assert (k - 1) * dd >= 0;
    } else {
      assert (k - 1) * dd <= 0;
    }
  }

  /** From an antenna inside the grid, the ray reaches every point `a - k d` (k >= 1) that
      is inside the grid, since the grid is convex. */
  lemma {:induction false} RayComplete(dims: (int, int), a: Pos, d: Pos, k: nat)
    requires d != (0, 0) && k >= 1 && Inside(dims, a) && Inside(dims, Along(a, d, k))
    ensures Along(a, d, k) in Ray(dims, Sub(a, d), d)
    decreases k
  {
    Between(dims.0, a.0, d.0, k);
    Between(dims.1, a.1, d.1, k);
    if k > 1 {
      var b := Sub(a, d);
      assert Along(b, d, k - 1) == Along(a, d, k) by {
        assert (k - 1) * d.0 + d.0 == k * d.0 && (k - 1) * d.1 + d.1 == k * d.1;
      }
      RayComplete(dims, b, d, k - 1);
    }
  }

  /** A part-2 antinode is inside the grid, on the line through two antennas of one
      frequency, a whole number of their distances beyond the first. */
  lemma {:induction false} HarmonicSound(points: map<Pos, Byte>, dims: (int, int), p: Pos) returns (a: Pos, o: Pos, k: nat)
    requires p in AllAntinodes(points, dims, true)
    ensures Pair(points, a, o) && k >= 1 && Inside(dims, p) && p == Along(a, Delta(a, o), k)
  {
    a, o :| a in points.Keys && o in points.Keys && Pair(points, a, o) && p in Emitted(dims, a, o, true);
    var d := Delta(a, o);
    var j := RaySound(dims, Sub(a, d), d, p);
    k := j + 1;
    assert Along(Sub(a, d), d, j) == Along(a, d, k) by {
      assert j * d.0 + d.0 == k * d.0 && j * d.1 + d.1 == k * d.1;
    }
  }

  /** Every such point inside the grid is a part-2 antinode, when the first antenna is inside
      the grid. */
  lemma {:induction false} HarmonicComplete(points: map<Pos, Byte>, dims: (int, int), a: Pos, o: Pos, k: nat)
    requires Pair(points, a, o) && k >= 1 && Inside(dims, a) && Inside(dims, Along(a, Delta(a, o), k))
    ensures Along(a, Delta(a, o), k) in AllAntinodes(points, dims, true)
  {
    RayComplete(dims, a, Delta(a, o), k);
    assert Along(a, Delta(a, o), k) in Emitted(dims, a, o, true);
  }

  /** Every part-1 antinode is a part-2 antinode. */
  lemma {:induction false} MirrorIsHarmonic(points: map<Pos, Byte>, dims: (int, int))
    ensures AllAntinodes(points, dims, false) <= AllAntinodes(points, dims, true)
  {
    forall p | p in AllAntinodes(points, dims, false) ensures p in AllAntinodes(points, dims, true) {
      var a, o :| a in points.Keys && o in points.Keys && Pair(points, a, o) && p in Emitted(dims, a, o, false);
      assert p in Emitted(dims, a, o, true);
    }
  }

  // ---------------------------------------------------------------------------------------
  // An antenna alone on its frequency

  /** The antennas that share their frequency with another antenna. */
  function Paired(points: map<Pos, Byte>): set<Pos>
  {
    set a | a in points.Keys && exists o :: o in points.Keys && Pair(points, a, o)
  }

  /** The part-2 count the puzzle asks for: an antenna's cell counts only when some other
      antenna shares its frequency. */
  function PairedCount(antinodes: set<Pos>, points: map<Pos, Byte>): (n: nat)
    ensures n <= Count(antinodes, points, true)
  {
    SubsetCard(antinodes + Paired(points), antinodes + points.Keys);
    |antinodes + Paired(points)|
  }

  /** The two counts agree whenever no antenna is alone on its frequency. */
  lemma {:induction false} PairedCountAgrees(antinodes: set<Pos>, points: map<Pos, Byte>)
    requires forall a :: a in points ==> exists o :: o in points.Keys && Pair(points, a, o)
    ensures PairedCount(antinodes, points) == Count(antinodes, points, true)
  {
    assert Paired(points) == points.Keys;
  }

  const LONE: map<Pos, Byte> := map[(0, 0) := ByteOf('A')]

  /** The grid "A": one antenna, alone on its frequency, casts nothing, yet the part-2 count
      is 1. */
  lemma LoneAntennaCounted()
    ensures AllAntinodes(LONE, (1, 1), true) == {}
    ensures Count(AllAntinodes(LONE, (1, 1), true), LONE, true) == 1
  {
    assert forall a, o :: Pair(LONE, a, o) ==> false;
    assert LONE.Keys == {(0, 0)};
  }

  /** The corrected count is 0 for the same grid. */
  lemma LoneAntennaIgnored()
    ensures PairedCount(AllAntinodes(LONE, (1, 1), true), LONE) == 0
  {
    LoneAntennaCounted();
    assert Paired(LONE) == {};
  }
}
