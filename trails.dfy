/** Hiking trails on a topographic map of single-digit heights: a trail starts at a height-0
    trailhead, climbs by exactly one at every orthogonal step and ends on a 9. A trailhead's
    score is the number of distinct 9-cells its trails reach; its rating is the number of
    distinct trails. */
module Trails {
  import opened Wrappers
  import Text

  type Digit = d: nat | d <= 9

  /** (row, column). */
  type Pos = (int, int)

  /** The parsed map: `dimensions` are the number of lines and the length of the first line. */
  datatype TrailMap = TrailMap(dimensions: (int, int), heights: seq<seq<Digit>>, trailheads: seq<Pos>)

  /** What one call of the walk hands back: the path it ended on a 9, or the paths found. */
  datatype WalkResult = Intermediate(path: seq<Pos>) | Final(found: seq<seq<Pos>>)

  /** Every cell inside the dimensions exists: no row is shorter than the first. */
  predicate Fits(t: TrailMap)
  {
    && t.dimensions.0 == |t.heights|
    && 0 <= t.dimensions.1
    && forall r :: 0 <= r < |t.heights| ==> |t.heights[r]| >= t.dimensions.1
  }

  predicate OnMap(t: TrailMap, p: Pos)
  {
    0 <= p.0 < |t.heights| && 0 <= p.1 < |t.heights[p.0]|
  }

  predicate InDims(t: TrailMap, p: Pos)
  {
    0 <= p.0 < t.dimensions.0 && 0 <= p.1 < t.dimensions.1
  }

  function Height(t: TrailMap, p: Pos): Digit
    requires OnMap(t, p)
  {
    t.heights[p.0][p.1]
  }

  /** The four neighbours in the order the walk tries them: up, down, left, right. */
  function Steps(p: Pos): seq<Pos>
  {
    [(p.0 - 1, p.1), (p.0 + 1, p.1), (p.0, p.1 - 1), (p.0, p.1 + 1)]
  }

  /** The walk's test for stepping from a cell of height `level` to `s`. */
  predicate Climbs(t: TrailMap, s: Pos, level: nat, path: seq<Pos>)
    requires Fits(t)
  {
    InDims(t, s) && Height(t, s) == level + 1 && s !in path
  }

  // ---------------------------------------------------------------------------------------
  // The walk

  /** Folds `xs` into `acc`, appending each element `acc` does not hold yet. */
  function Merge<T(==)>(acc: seq<T>, xs: seq<T>): seq<T>
    decreases |xs|
  {
    if xs == [] then acc else Merge(if xs[0] in acc then acc else acc + [xs[0]], xs[1..])
  }

  /** How the walk takes a child's result into `found`: the paths of a finished search are
      merged, a path that ended on a 9 is appended. */
  function Absorb(found: seq<seq<Pos>>, r: WalkResult): seq<seq<Pos>>
  {
    match r
    case Final(list) => Merge(found, list)
    case Intermediate(loc) => found + [loc]
  }

  /** `TrailMap::walk`: extend the path by `pos`; on a 9 hand the path back, otherwise try the
      four neighbours in turn, each with the paths found so far. */
  function Walked(t: TrailMap, pos: Pos, level: nat, path: seq<Pos>, found: seq<seq<Pos>>): WalkResult
    requires Fits(t) && OnMap(t, pos) && level <= 9
    decreases 9 - level, 5
  {
    var p := path + [pos];
    if Height(t, pos) == 9 then Intermediate(p) else Final(Explore(t, pos, level, p, found, 0))
  }

  /** The walk's loop from the `k`-th neighbour on; `p` is the path including `pos`. */
  function Explore(t: TrailMap, pos: Pos, level: nat, p: seq<Pos>, found: seq<seq<Pos>>, k: nat): seq<seq<Pos>>
    requires Fits(t) && level <= 9 && k <= 4
    decreases 9 - level, 4 - k
  {
    if k == 4 then found
    else
      var s := Steps(pos)[k];
      var next := if Climbs(t, s, level, p) then Absorb(found, Walked(t, s, level + 1, p, found)) else found;
      Explore(t, pos, level, p, next, k + 1)
  }

  /** The walk, as the recursive procedure with its loop over the neighbours. */
  method Walk(t: TrailMap, pos: Pos, level: nat, path: seq<Pos>, found: seq<seq<Pos>>) returns (r: WalkResult)
    requires Fits(t) && OnMap(t, pos) && level <= 9
    ensures r == Walked(t, pos, level, path, found)
    decreases 9 - level
  {
    var p := path + [pos];
    if Height(t, pos) == 9 {
      return Intermediate(p);
    }
    var acc := found;
    var steps := Steps(pos);
    for k := 0 to 4
      invariant Explore(t, pos, level, p, acc, k) == Explore(t, pos, level, p, found, 0)
    {
      var s := steps[k];
      if InDims(t, s) && Height(t, s) == level + 1 && s !in p {
        var child := Walk(t, s, level + 1, p, acc);
        match child {
          case Final(list) => acc := Merge(acc, list);
          case Intermediate(loc) => acc := acc + [loc];
        }
      }
    }
    return Final(acc);
  }

  // ---------------------------------------------------------------------------------------
  // What the walk finds

  /** The paths the walk completes from `pos`, in the order it completes them. */
  function Hikes(t: TrailMap, pos: Pos, level: nat, path: seq<Pos>): seq<seq<Pos>>
    requires Fits(t) && OnMap(t, pos) && level <= 9
    decreases 9 - level, 5
  {
    var p := path + [pos];
    if Height(t, pos) == 9 then [p] else HikesFrom(t, pos, level, p, 0)
  }

  function HikesFrom(t: TrailMap, pos: Pos, level: nat, p: seq<Pos>, k: nat): seq<seq<Pos>>
    requires Fits(t) && level <= 9 && k <= 4
    decreases 9 - level, 4 - k
  {
    if k == 4 then []
    else
      var s := Steps(pos)[k];
      (if Climbs(t, s, level, p) then Hikes(t, s, level + 1, p) else []) + HikesFrom(t, pos, level, p, k + 1)
  }

  /** A hike: orthogonally adjacent cells inside the dimensions (the first may lie anywhere on
      the map), each one higher than the one before, ending on a 9. */
  predicate Hike(t: TrailMap, c: seq<Pos>)
    requires Fits(t)
  {
    |c| >= 1 && OnMap(t, c[0]) &&
    if |c| == 1 then Height(t, c[0]) == 9
    else InDims(t, c[1]) && c[1] in Steps(c[0]) && Height(t, c[1]) == Height(t, c[0]) + 1 && Hike(t, c[1..])
  }

  predicate Extends<T(==)>(x: seq<T>, q: seq<T>)
  {
    |q| <= |x| && x[..|q|] == q
  }

  /** No path in `found` goes through `q`. */
  predicate Fresh(found: seq<seq<Pos>>, q: seq<Pos>)
  {
    forall x :: x in found ==> !Extends(x, q)
  }

  function Ahead(p: seq<Pos>, pos: Pos, j: nat): seq<Pos>
    requires j < 4
  {
    p + [Steps(pos)[j]]
  }

  predicate NoDup<T(==)>(xs: seq<T>)
  {
    forall i, j :: 0 <= i < j < |xs| ==> xs[i] != xs[j]
  }

  /** Given paths none of which goes through the current path, the walk appends exactly the
      hikes from `pos`, none of them dropped by the merge. */
  lemma {:induction false} WalkHikes(t: TrailMap, pos: Pos, level: nat, path: seq<Pos>, found: seq<seq<Pos>>)
    requires Fits(t) && OnMap(t, pos) && level <= 9 && Fresh(found, path + [pos])
    ensures Walked(t, pos, level, path, found) ==
      if Height(t, pos) == 9 then Intermediate(path + [pos]) else Final(found + Hikes(t, pos, level, path))
    decreases 9 - level, 5
  {
    var p := path + [pos];
    if Height(t, pos) != 9 {
      forall x, j | x in found && 0 <= j < 4 ensures !Extends(x, Ahead(p, pos, j)) {
        if Extends(x, Ahead(p, pos, j)) {
          ExtendsPrefix(x, p, [Steps(pos)[j]]);
        }
      }
      ExploreHikes(t, pos, level, p, found, 0);
    }
  }

  lemma {:induction false} ExploreHikes(t: TrailMap, pos: Pos, level: nat, p: seq<Pos>, found: seq<seq<Pos>>, k: nat)
    requires Fits(t) && level <= 9 && k <= 4
    requires forall x, j :: x in found && k <= j < 4 ==> !Extends(x, Ahead(p, pos, j))
    ensures Explore(t, pos, level, p, found, k) == found + HikesFrom(t, pos, level, p, k)
    decreases 9 - level, 4 - k, 1
  {
    if k < 4 {
      if Climbs(t, Steps(pos)[k], level, p) {
        ExploreClimb(t, pos, level, p, found, k);
      } else {
        ExploreHikes(t, pos, level, p, found, k + 1);
      }
    }
  }

  /** The case of a neighbour the walk climbs to. */
  lemma {:induction false} ExploreClimb(t: TrailMap, pos: Pos, level: nat, p: seq<Pos>, found: seq<seq<Pos>>, k: nat)
    requires Fits(t) && level <= 9 && k < 4 && Climbs(t, Steps(pos)[k], level, p)
    requires forall x, j :: x in found && k <= j < 4 ==> !Extends(x, Ahead(p, pos, j))
    ensures Explore(t, pos, level, p, found, k) == found + HikesFrom(t, pos, level, p, k)
    decreases 9 - level, 4 - k, 0
  {
    var s := Steps(pos)[k];
    assert Ahead(p, pos, k) == p + [s];
    AbsorbHikes(t, s, level + 1, p, found);
    var block := Hikes(t, s, level + 1, p);
    HikesThrough(t, s, level + 1, p);
    KeepsAhead(p, pos, k, found, block);
    ExploreHikes(t, pos, level, p, found + block, k + 1);
    assert found + block + HikesFrom(t, pos, level, p, k + 1) == found + HikesFrom(t, pos, level, p, k);
  }

  /** Taking a child's result in appends the child's hikes, the merge dropping none. */
  lemma {:induction false} AbsorbHikes(t: TrailMap, s: Pos, level: nat, p: seq<Pos>, found: seq<seq<Pos>>)
    requires Fits(t) && OnMap(t, s) && level <= 9 && Fresh(found, p + [s])
    ensures Absorb(found, Walked(t, s, level, p, found)) == found + Hikes(t, s, level, p)
    decreases 9 - level, 6
  {
    WalkHikes(t, s, level, p, found);
    var block := Hikes(t, s, level, p);
    if Height(t, s) != 9 {
      forall z | z in block ensures z !in found {
        HikesExtend(t, s, level, p, z);
      }
      HikesNoDup(t, s, level, p);
      MergeSkip(found, found, block);
      MergeFresh(found, block);
    }
  }

  lemma {:induction false} HikesThrough(t: TrailMap, s: Pos, level: nat, p: seq<Pos>)
    requires Fits(t) && OnMap(t, s) && level <= 9
    ensures forall x :: x in Hikes(t, s, level, p) ==> Extends(x, p + [s])
  {
    forall x | x in Hikes(t, s, level, p) ensures Extends(x, p + [s]) {
      HikesExtend(t, s, level, p, x);
    }
  }

  /** Paths through the `k`-th neighbour do not go through a later one. */
  lemma {:induction false} KeepsAhead(p: seq<Pos>, pos: Pos, k: nat, found: seq<seq<Pos>>, block: seq<seq<Pos>>)
    requires k < 4
    requires forall x, j :: x in found && k <= j < 4 ==> !Extends(x, Ahead(p, pos, j))
    requires forall x :: x in block ==> Extends(x, Ahead(p, pos, k))
    ensures forall x, j :: x in found + block && k + 1 <= j < 4 ==> !Extends(x, Ahead(p, pos, j))
  {
    forall x, j | x in found + block && k + 1 <= j < 4 ensures !Extends(x, Ahead(p, pos, j)) {
      if x in block && Extends(x, Ahead(p, pos, j)) {
        ExtendsSame(x, p, Steps(pos)[k], Steps(pos)[j]);
      }
    }
  }

  /** Every hike from `pos` goes through the path up to and including `pos`. */
  lemma {:induction false} HikesExtend(t: TrailMap, pos: Pos, level: nat, path: seq<Pos>, x: seq<Pos>)
    requires Fits(t) && OnMap(t, pos) && level <= 9 && x in Hikes(t, pos, level, path)
    ensures Extends(x, path + [pos])
    decreases 9 - level, 5
  {
    var p := path + [pos];
    if Height(t, pos) != 9 {
      HikesFromExtend(t, pos, level, p, 0, x);
    }
  }

  /** A path found from the `k`-th neighbour on continues the path with one of those neighbours. */
  lemma {:induction false} HikesFromExtend(t: TrailMap, pos: Pos, level: nat, p: seq<Pos>, k: nat, x: seq<Pos>)
    requires Fits(t) && level <= 9 && k <= 4 && x in HikesFrom(t, pos, level, p, k)
    ensures Extends(x, p) && |x| > |p| && x[|p|] in Steps(pos)[k..]
    decreases 9 - level, 4 - k
  {
    var s := Steps(pos)[k];
    if Climbs(t, s, level, p) && x in Hikes(t, s, level + 1, p) {
      HikesExtend(t, s, level + 1, p, x);
      ExtendsPrefix(x, p, [s]);
      assert x[..|p| + 1][|p|] == s;
    } else {
      HikesFromExtend(t, pos, level, p, k + 1, x);
    }
  }

  /** The walk completes no path twice. */
  lemma {:induction false} HikesNoDup(t: TrailMap, pos: Pos, level: nat, path: seq<Pos>)
    requires Fits(t) && OnMap(t, pos) && level <= 9
    ensures NoDup(Hikes(t, pos, level, path))
    decreases 9 - level, 5
  {
    if Height(t, pos) != 9 {
      HikesFromNoDup(t, pos, level, path + [pos], 0);
    }
  }

  lemma {:induction false} HikesFromNoDup(t: TrailMap, pos: Pos, level: nat, p: seq<Pos>, k: nat)
    requires Fits(t) && level <= 9 && k <= 4
    ensures NoDup(HikesFrom(t, pos, level, p, k))
    decreases 9 - level, 4 - k
  {
    if k < 4 {
      var s := Steps(pos)[k];
      var block := if Climbs(t, s, level, p) then Hikes(t, s, level + 1, p) else [];
      var rest := HikesFrom(t, pos, level, p, k + 1);
      if Climbs(t, s, level, p) {
        HikesNoDup(t, s, level + 1, p);
      }
      HikesFromNoDup(t, pos, level, p, k + 1);
      forall x | x in block ensures x !in rest {
        HikesExtend(t, s, level + 1, p, x);
        ExtendsPrefix(x, p, [s]);
        assert x[..|p| + 1][|p|] == s;
        if x in rest {
          HikesFromExtend(t, pos, level, p, k + 1, x);
          StepsDistinct(pos, k);
        }
      }
      NoDupConcat(block, rest);
    }
  }

  /** Every path the walk completes is the path so far followed by a hike from `pos`. */
  lemma {:induction false} HikesSound(t: TrailMap, pos: Pos, level: nat, path: seq<Pos>, x: seq<Pos>)
    requires Fits(t) && OnMap(t, pos) && level <= 9 && Height(t, pos) == level
    requires x in Hikes(t, pos, level, path)
    ensures |x| > |path| && x[..|path|] == path && x[|path|] == pos && Hike(t, x[|path|..])
    decreases 9 - level
  {
    var p := path + [pos];
    if Height(t, pos) == 9 {
      assert x == p && x[|path|..] == [pos];
    } else {
      var j := HikesFromBlock(t, pos, level, p, 0, x);
      var s := Steps(pos)[j];
      HikesSound(t, s, level + 1, p, x);
      var c := x[|p|..];
      assert x[|path|..] == [pos] + c;
      assert ([pos] + c)[1..] == c;
    }
  }

  /** The neighbour whose search completed `x`. */
  lemma {:induction false} HikesFromBlock(t: TrailMap, pos: Pos, level: nat, p: seq<Pos>, k: nat, x: seq<Pos>)
    returns (j: nat)
    requires Fits(t) && level <= 9 && k <= 4 && x in HikesFrom(t, pos, level, p, k)
    ensures k <= j < 4 && Climbs(t, Steps(pos)[j], level, p) && x in Hikes(t, Steps(pos)[j], level + 1, p)
    decreases 4 - k
  {
    var s := Steps(pos)[k];
    if Climbs(t, s, level, p) && x in Hikes(t, s, level + 1, p) {
      j := k;
    } else {
      j := HikesFromBlock(t, pos, level, p, k + 1, x);
    }
  }

  /** Every hike from `pos` is completed by the walk, provided the path so far lies below it. */
  lemma {:induction false} HikesComplete(t: TrailMap, pos: Pos, level: nat, path: seq<Pos>, c: seq<Pos>)
    requires Fits(t) && OnMap(t, pos) && level <= 9 && Height(t, pos) == level
    requires forall q :: q in path ==> OnMap(t, q) && Height(t, q) <= level
    requires Hike(t, c) && c[0] == pos
    ensures path + c in Hikes(t, pos, level, path)
    decreases 9 - level
  {
    var p := path + [pos];
    if Height(t, pos) == 9 {
      assert c == [pos];
    } else {
      var s := c[1];
      var j :| 0 <= j < 4 && Steps(pos)[j] == s;
      assert Climbs(t, s, level, p);
      HikesComplete(t, s, level + 1, p, c[1..]);
      assert p + c[1..] == path + c;
      HikesFromHas(t, pos, level, p, 0, j, path + c);
    }
  }

  lemma {:induction false} HikesFromHas(t: TrailMap, pos: Pos, level: nat, p: seq<Pos>, k: nat, j: nat, x: seq<Pos>)
    requires Fits(t) && level <= 9 && k <= j < 4
    requires Climbs(t, Steps(pos)[j], level, p) && x in Hikes(t, Steps(pos)[j], level + 1, p)
    ensures x in HikesFrom(t, pos, level, p, k)
    decreases j - k
  {
    if k < j {
      HikesFromHas(t, pos, level, p, k + 1, j, x);
    }
  }

  // ---------------------------------------------------------------------------------------
  // Sequence facts

  lemma {:induction false} ExtendsPrefix<T>(x: seq<T>, q: seq<T>, r: seq<T>)
    requires Extends(x, q + r)
    ensures Extends(x, q)
  {
    assert x[..|q|] == x[..|q + r|][..|q|];
  }

  lemma {:induction false} ExtendsSame<T>(x: seq<T>, p: seq<T>, a: T, b: T)
    requires Extends(x, p + [a]) && Extends(x, p + [b])
    ensures a == b
  {
    assert x[..|p| + 1][|p|] == a;
  }

  lemma StepsDistinct(pos: Pos, k: nat)
    requires k < 4
    ensures Steps(pos)[k] !in Steps(pos)[k + 1..]
  {
  }

  lemma {:induction false} NoDupConcat<T>(a: seq<T>, b: seq<T>)
    requires NoDup(a) && NoDup(b) && forall x :: x in a ==> x !in b
    ensures NoDup(a + b)
  {
    forall i, j | 0 <= i < j < |a + b| ensures (a + b)[i] != (a + b)[j] {
      if i < |a| && j >= |a| {
        assert (a + b)[i] in a && (a + b)[j] == b[j - |a|];
      }
    }
  }

  /** Elements `acc` already holds are skipped by the merge. */
  lemma {:induction false} MergeSkip<T>(acc: seq<T>, ys: seq<T>, zs: seq<T>)
    requires forall y :: y in ys ==> y in acc
    ensures Merge(acc, ys + zs) == Merge(acc, zs)
    decreases |ys|
  {
    if ys == [] {
      assert ys + zs == zs;
    } else {
      assert (ys + zs)[0] == ys[0] && (ys + zs)[1..] == ys[1..] + zs;
      MergeSkip(acc, ys[1..], zs);
    }
  }

  /** Distinct new elements are all appended, in order. */
  lemma {:induction false} MergeFresh<T>(acc: seq<T>, zs: seq<T>)
    requires NoDup(zs) && forall z :: z in zs ==> z !in acc
    ensures Merge(acc, zs) == acc + zs
    decreases |zs|
  {
    if zs != [] {
      var rest := zs[1..];
      forall z | z in rest ensures z !in acc + [zs[0]] {
        var i :| 0 <= i < |rest| && rest[i] == z;
        assert zs[i + 1] == z;
      }
      MergeFresh(acc + [zs[0]], rest);
      assert acc + [zs[0]] + rest == acc + zs;
    }
  }

  /** The merge holds exactly the elements of both, none twice if `acc` held none twice. */
  lemma {:induction false} MergeProperties<T>(acc: seq<T>, xs: seq<T>)
    requires NoDup(acc)
    ensures NoDup(Merge(acc, xs))
    ensures forall e :: e in Merge(acc, xs) <==> e in acc || e in xs
    ensures |Merge(acc, xs)| <= |acc| + |xs|
    decreases |xs|
  {
    if xs != [] {
      var next := if xs[0] in acc then acc else acc + [xs[0]];
      assert forall e :: e in xs <==> e == xs[0] || e in xs[1..];
      MergeProperties(next, xs[1..]);
    }
  }

  // ---------------------------------------------------------------------------------------
  // Scores

  function Last<T>(s: seq<T>): T
    requires |s| > 0
  {
    s[|s| - 1]
  }

  /** The last cell of each non-empty path. */
  function Lasts(paths: seq<seq<Pos>>): (ends: seq<Pos>)
    ensures |ends| <= |paths|
    ensures forall e :: e in ends <==> exists x :: x in paths && |x| > 0 && Last(x) == e
  {
    if paths == [] then []
    else
      assert forall x :: x in paths <==> x == paths[0] || x in paths[1..];
      (if |paths[0]| > 0 then [Last(paths[0])] else []) + Lasts(paths[1..])
  }

  /** The paths the walk from a trailhead completes: it starts with the path holding the head. */
  function Recorded(t: TrailMap, head: Pos): seq<seq<Pos>>
    requires Fits(t) && OnMap(t, head) && Height(t, head) != 9
  {
    Walked(t, head, 0, [head], []).found
  }

  /** `TrailMap::score`: with `rating` the number of paths completed, otherwise the number of
      distinct cells they end on. */
  function Score(t: TrailMap, head: Pos, rating: bool): nat
    requires Fits(t) && OnMap(t, head) && Height(t, head) != 9
  {
    var list := Recorded(t, head);
    if rating then |list| else |Merge([], Lasts(list))|
  }

  /** From a trailhead the walk records the hikes the reference search completes, none twice. */
  lemma {:induction false} RecordedHikes(t: TrailMap, head: Pos)
    requires Fits(t) && OnMap(t, head) && Height(t, head) == 0
    ensures Recorded(t, head) == Hikes(t, head, 0, [head])
    ensures NoDup(Recorded(t, head))
  {
    WalkHikes(t, head, 0, [head], []);
    HikesNoDup(t, head, 0, [head]);
  }

  /** Every recorded path is the head followed by a hike from the head (the path starts with
      the head and the walk pushes it again). */
  lemma {:induction false} RecordedSound(t: TrailMap, head: Pos, x: seq<Pos>)
    requires Fits(t) && OnMap(t, head) && Height(t, head) == 0 && x in Recorded(t, head)
    ensures |x| >= 2 && x[0] == head && x[1] == head && Hike(t, x[1..])
  {
    var path := [head];
    RecordedHikes(t, head);
    assert x in Hikes(t, head, 0, path);
    HikesSound(t, head, 0, path, x);
    assert x[0] == x[..|path|][0] == head;
  }

  /** Every hike from the head is recorded. */
  lemma {:induction false} RecordedComplete(t: TrailMap, head: Pos, c: seq<Pos>)
    requires Fits(t) && OnMap(t, head) && Height(t, head) == 0 && Hike(t, c) && c[0] == head
    ensures [head] + c in Recorded(t, head)
  {
    RecordedHikes(t, head);
    HikesComplete(t, head, 0, [head], c);
  }

  /** The score counts distinct cells, each the end of some hike from the trailhead. */
  lemma {:induction false} ScoreEndpoints(t: TrailMap, head: Pos, e: Pos)
    requires Fits(t) && OnMap(t, head) && Height(t, head) == 0
    ensures NoDup(Merge([], Lasts(Recorded(t, head))))
    ensures e in Merge([], Lasts(Recorded(t, head))) <==> exists c :: Hike(t, c) && c[0] == head && Last(c) == e
  {
    var list := Recorded(t, head);
    MergeProperties([], Lasts(list));
    if e in Lasts(list) {
      forall x | x in list ensures |x| >= 2 && x[1] == head && Hike(t, x[1..]) {
        RecordedSound(t, head, x);
      }
      EndSound(t, head, list, e);
    }
    if c :| Hike(t, c) && c[0] == head && Last(c) == e {
      RecordedComplete(t, head, c);
      EndComplete(head, list, c);
    }
  }

  /** A cell some recorded path ends on ends a hike from the head. */
  lemma {:induction false} EndSound(t: TrailMap, head: Pos, list: seq<seq<Pos>>, e: Pos)
    requires Fits(t) && e in Lasts(list)
    requires forall x :: x in list ==> |x| >= 2 && x[1] == head && Hike(t, x[1..])
    ensures exists c :: Hike(t, c) && c[0] == head && Last(c) == e
  {
    var x :| x in list && |x| > 0 && Last(x) == e;
    var c := x[1..];
    assert c[0] == head && Last(c) == e;
  }

  /** The end of every recorded path is among the ends. */
  lemma {:induction false} EndComplete(head: Pos, list: seq<seq<Pos>>, c: seq<Pos>)
    requires |c| > 0 && [head] + c in list
    ensures Last(c) in Lasts(list)
  {
    assert Last([head] + c) == Last(c);
  }

  /** A trailhead's score is at most its rating. */
  lemma {:induction false} ScoreBound(t: TrailMap, head: Pos)
    requires Fits(t) && OnMap(t, head) && Height(t, head) != 9
    ensures Score(t, head, false) <= Score(t, head, true)
  {
    MergeProperties([], Lasts(Recorded(t, head)));
  }

  // ---------------------------------------------------------------------------------------
  // Totals over the trailheads

  predicate Walkable(t: TrailMap, heads: seq<Pos>)
  {
    Fits(t) && forall h :: h in heads ==> OnMap(t, h) && Height(t, h) != 9
  }

  function ScoreSum(t: TrailMap, heads: seq<Pos>, rating: bool): nat
    requires Walkable(t, heads)
  {
    if heads == [] then 0 else ScoreSum(t, heads[..|heads| - 1], rating) + Score(t, Last(heads), rating)
  }

  /** The two totals of the program: scores and ratings summed over every trailhead. */
  method TotalScore(t: TrailMap, rating: bool) returns (total: nat)
    requires Walkable(t, t.trailheads)
    ensures total == ScoreSum(t, t.trailheads, rating)
  {
    total := 0;
    for i := 0 to |t.trailheads|
      invariant total == ScoreSum(t, t.trailheads[..i], rating)
    {
      var head := t.trailheads[i];
      var res := Walk(t, head, 0, [head], []);
      var list := res.found;
      var score := if rating then |list| else |Merge([], Lasts(list))|;
      assert t.trailheads[..i + 1][..i] == t.trailheads[..i];
      total := total + score;
    }
    assert t.trailheads[..|t.trailheads|] == t.trailheads;
  }

  /** The total score never exceeds the total rating. */
  lemma {:induction false} ScoreSumBound(t: TrailMap, heads: seq<Pos>)
    requires Walkable(t, heads)
    ensures ScoreSum(t, heads, false) <= ScoreSum(t, heads, true)
    decreases |heads|
  {
    if heads != [] {
      ScoreSumBound(t, heads[..|heads| - 1]);
      ScoreBound(t, Last(heads));
    }
  }

  // ---------------------------------------------------------------------------------------
  // Reading the map

  /** Row-major order of cells. */
  predicate Before(a: Pos, b: Pos)
  {
    a.0 < b.0 || (a.0 == b.0 && a.1 < b.1)
  }

  predicate RowMajor(s: seq<Pos>)
  {
    forall i, j :: 0 <= i < j < |s| ==> Before(s[i], s[j])
  }

  /** The height-0 cells of row `x`, left to right. */
  function RowZeros(row: seq<Digit>, x: int): seq<Pos>
  {
    if row == [] then [] else RowZeros(row[..|row| - 1], x) + (if Last(row) == 0 then [(x, |row| - 1)] else [])
  }

  /** The height-0 cells of the map, in row-major order. */
  function Zeros(m: seq<seq<Digit>>): seq<Pos>
  {
    if m == [] then [] else Zeros(m[..|m| - 1]) + RowZeros(Last(m), |m| - 1)
  }

  lemma {:induction false} RowZerosMeans(row: seq<Digit>, x: int)
    ensures RowMajor(RowZeros(row, x))
    ensures forall p :: p in RowZeros(row, x) <==> p.0 == x && 0 <= p.1 < |row| && row[p.1] == 0
  {
    if row != [] {
      RowZerosMeans(row[..|row| - 1], x);
    }
  }

  /** The trailheads are exactly the height-0 cells of the map, in row-major order. */
  lemma {:induction false} ZerosMeans(m: seq<seq<Digit>>)
    ensures RowMajor(Zeros(m))
    ensures forall p :: p in Zeros(m) <==> 0 <= p.0 < |m| && 0 <= p.1 < |m[p.0]| && m[p.0][p.1] == 0
  {
    if m != [] {
      var init := m[..|m| - 1];
      ZerosMeans(init);
      RowZerosMeans(Last(m), |m| - 1);
      var a, b := Zeros(init), RowZeros(Last(m), |m| - 1);
      forall i, j | 0 <= i < j < |a + b| ensures Before((a + b)[i], (a + b)[j]) {
        if i < |a| && j >= |a| {
          assert (a + b)[i] in a && (a + b)[j] in b;
        }
      }
    }
  }

  /** The digits of a line of digits. */
  function Heights(line: string): (hs: seq<Digit>)
    requires Text.AllDigits(line)
    ensures |hs| == |line|
    ensures forall y :: 0 <= y < |line| ==> Text.DigitChar(hs[y]) == line[y]
  {
    seq(|line|, y requires 0 <= y < |line| => Text.ToDigit(line[y]).value)
  }

  /** `TrailMap::new`: every character must be a decimal digit; an input without lines has no
      first line to take the width from. */
  method NewTrailMap(state: string) returns (r: Result<TrailMap, string>)
    ensures r.Ok? <==> Text.Lines(state) != [] && forall x :: 0 <= x < |Text.Lines(state)| ==> Text.AllDigits(Text.Lines(state)[x])
    ensures r.Ok? ==>
      var lines := Text.Lines(state);
      && r.value.dimensions == (|lines|, |lines[0]|)
      && |r.value.heights| == |lines|
      && (forall x :: 0 <= x < |lines| ==> r.value.heights[x] == Heights(lines[x]))
      && r.value.trailheads == Zeros(r.value.heights)
  {
    var lines := Text.Lines(state);
    if lines == [] {
      return Err("Invalid input");
    }
    var dimensions := (|lines|, |lines[0]|);
    var heights: seq<seq<Digit>> := [];
    var trailheads: seq<Pos> := [];
    for x := 0 to |lines|
      invariant |heights| == x
      invariant forall i :: 0 <= i < x ==> Text.AllDigits(lines[i]) && heights[i] == Heights(lines[i])
      invariant trailheads == Zeros(heights)
    {
      var line := lines[x];
      var row: seq<Digit> := [];
      for y := 0 to |line|
        invariant |row| == y
        invariant forall k :: 0 <= k < y ==> Text.IsDigit(line[k]) && row[k] == Text.ToDigit(line[k]).value
        invariant trailheads == Zeros(heights) + RowZeros(row, x)
      {
        var digit := Text.ToDigit(line[y]);
        if digit.None? {
          return Err("Invalid input");
        }
        assert (row + [digit.value])[..y] == row;
        row := row + [digit.value];
        if digit.value == 0 {
          trailheads := trailheads + [(x, y)];
        }
      }
      assert row == Heights(line);
      assert (heights + [row])[..x] == heights;
      heights := heights + [row];
    }
    return Ok(TrailMap(dimensions, heights, trailheads));
  }
}
