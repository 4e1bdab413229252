/** Historian location lists. Each input line holds two location ids; the ids form a left
    and a right list. The total distance pairs the lists in sorted order and adds up the gaps
    between partners. The similarity score weighs each id of the left list by the number of
    times it occurs in the right list. */
module LocationLists {
  import opened Wrappers
  import Text

  // ---------------------------------------------------------------------------------------
  // Building the lists

  /** The ids of one line: its whitespace-separated tokens that parse as a `usize`, others
      dropped. */
  function Numbers(line: string): seq<nat>
  {
    Parsed(Text.SplitWhitespace(line))
  }

  function Parsed(tokens: seq<string>): (r: seq<nat>)
    ensures |r| <= |tokens|
  {
    if tokens == [] then []
    else
      var rest := Parsed(tokens[..|tokens| - 1]);
      match Text.ParseU64(tokens[|tokens| - 1])
      case Some(n) => rest + [n]
      case None => rest
  }

  /** Tokens that parse are kept in order; a line of two plain ids gives exactly those ids. */
  lemma {:induction false} ParsedMeans(tokens: seq<string>)
    requires forall k :: 0 <= k < |tokens| ==> Text.ParseU64(tokens[k]).Some?
    ensures |Parsed(tokens)| == |tokens|
    ensures forall k :: 0 <= k < |tokens| ==> Parsed(tokens)[k] == Text.ParseU64(tokens[k]).value
  {
    if tokens != [] {
      var init := tokens[..|tokens| - 1];
      assert forall k :: 0 <= k < |init| ==> init[k] == tokens[k];
      ParsedMeans(init);
      ParsedLast(tokens);
    }
  }

  lemma {:induction false} ParsedLast(tokens: seq<string>)
    requires tokens != [] && Text.ParseU64(tokens[|tokens| - 1]).Some?
    ensures Parsed(tokens) == Parsed(tokens[..|tokens| - 1]) + [Text.ParseU64(tokens[|tokens| - 1]).value]
  {
  }

  /** The ids of every line. */
  function Rows(lines: seq<string>): (rows: seq<seq<nat>>)
    ensures |rows| == |lines|
  {
    seq(|lines|, k requires 0 <= k < |lines| => Numbers(lines[k]))
  }

  /** The first `n` rows hold exactly two ids each. */
  predicate Pairs(rows: seq<seq<nat>>, n: nat)
  {
    n <= |rows| && (n == 0 || (Pairs(rows, n - 1) && |rows[n - 1]| == 2))
  }

  lemma {:induction false} PairsMeans(rows: seq<seq<nat>>, n: nat)
    ensures Pairs(rows, n) <==> n <= |rows| && forall k :: 0 <= k < n ==> |rows[k]| == 2
  {
    if n > 0 {
      PairsMeans(rows, n - 1);
    }
  }

  /** The left (`c == 0`) or right (`c == 1`) list of the first `n` rows. */
  function Column(rows: seq<seq<nat>>, c: nat, n: nat): (col: seq<nat>)
    requires c < 2 && Pairs(rows, n)
    ensures |col| == n
  {
    if n == 0 then [] else Column(rows, c, n - 1) + [rows[n - 1][c]]
  }

  /** Entry `k` of a list is the `c`-th id of row `k`. */
  lemma {:induction false} ColumnMeans(rows: seq<seq<nat>>, c: nat, n: nat, k: nat)
    requires c < 2 && Pairs(rows, n) && k < n
    ensures |rows[k]| == 2 && Column(rows, c, n)[k] == rows[k][c]
  {
    if k < n - 1 {
      ColumnMeans(rows, c, n - 1, k);
    }
  }

  datatype Error = Malformed(line: nat)

  /** The list-building loop: push the two ids of each line, giving up at the first line
      that does not hold exactly two. */
  method BuildLists(lines: seq<string>) returns (r: Result<(seq<nat>, seq<nat>), Error>)
    ensures var rows := Rows(lines);
      (r.Ok? <==> Pairs(rows, |rows|))
      && (r.Ok? ==> r.value == (Column(rows, 0, |rows|), Column(rows, 1, |rows|)))
      && (r.Err? ==> r.error.line < |rows| && |rows[r.error.line]| != 2 && Pairs(rows, r.error.line))
  {
    ghost var rows := Rows(lines);
    var listOne: seq<nat> := [];
    var listTwo: seq<nat> := [];
    for k := 0 to |lines|
      invariant Pairs(rows, k)
      invariant listOne == Column(rows, 0, k) && listTwo == Column(rows, 1, k)
    {
      var numbers := Numbers(lines[k]);
      assert numbers == rows[k];
      if |numbers| != 2 {
        PairsMeans(rows, |rows|);
        return Err(Malformed(k));
      }
      listOne := listOne + [numbers[0]];
      listTwo := listTwo + [numbers[1]];
    }
    return Ok((listOne, listTwo));
  }

  // ---------------------------------------------------------------------------------------
  // Sorting

  predicate Sorted(s: seq<nat>)
  {
    forall i, j :: 0 <= i < j < |s| ==> s[i] <= s[j]
  }

  /** `x` put in front of the first element of `s` that is not smaller. */
  function Insert(x: nat, s: seq<nat>): (r: seq<nat>)
    ensures multiset(r) == multiset(s) + multiset{x}
  {
    if s == [] || x <= s[0] then
      [x] + s
    else
      assert s == [s[0]] + s[1..];
      [s[0]] + Insert(x, s[1..])
  }

  /** Inserting into a sorted list keeps it sorted. */
  lemma {:induction false} InsertSorted(x: nat, s: seq<nat>)
    requires Sorted(s)
    ensures Sorted(Insert(x, s))
  {
    if s == [] || x <= s[0] {
      ConsSorted(x, s);
    } else {
      InsertSorted(x, s[1..]);
      InsertAbove(x, s[1..], s[0]);
      ConsSorted(s[0], Insert(x, s[1..]));
    }
  }

  /** Inserting a value no smaller than a bound of the list keeps the bound. */
  lemma {:induction false} InsertAbove(x: nat, s: seq<nat>, lo: nat)
    requires lo <= x && forall k :: 0 <= k < |s| ==> lo <= s[k]
    ensures forall k :: 0 <= k < |Insert(x, s)| ==> lo <= Insert(x, s)[k]
  {
    var r := Insert(x, s);
    forall k | 0 <= k < |r|
      ensures lo <= r[k]
    {
      assert r[k] in multiset(r);
      assert r[k] == x || r[k] in s;
    }
  }

  lemma {:induction false} ConsSorted(h: nat, t: seq<nat>)
    requires Sorted(t) && forall k :: 0 <= k < |t| ==> h <= t[k]
    ensures Sorted([h] + t)
  {
    var r := [h] + t;
    forall i, j | 0 <= i < j < |r|
      ensures r[i] <= r[j]
    {
      assert r[j] == t[j - 1];
      if i > 0 {
        assert r[i] == t[i - 1];
      }
    }
  }

  /** A reference for `Vec::sort`: insertion sort, ascending, keeping duplicates. */
  function Sort(s: seq<nat>): (r: seq<nat>)
    ensures multiset(r) == multiset(s)
  {
    if s == [] then []
    else
      assert s == s[..|s| - 1] + [s[|s| - 1]];
      Insert(s[|s| - 1], Sort(s[..|s| - 1]))
  }

  lemma {:induction false} SortSorted(s: seq<nat>)
    ensures Sorted(Sort(s))
  {
    if s != [] {
      SortSorted(s[..|s| - 1]);
      InsertSorted(s[|s| - 1], Sort(s[..|s| - 1]));
    }
  }

  /** The first element of a sorted list is its least. */
  lemma {:induction false} SortedHead(a: seq<nat>, x: nat)
    requires Sorted(a) && x in multiset(a)
    ensures a != [] && a[0] <= x
  {
    assert x in a;
    var i :| 0 <= i < |a| && a[i] == x;
    assert a[0] <= a[i];
  }

  /** A sorted permutation is unique, so every correct sort agrees with `Sort`. */
  lemma {:induction false} SortedUnique(a: seq<nat>, b: seq<nat>)
    requires Sorted(a) && Sorted(b) && multiset(a) == multiset(b)
    ensures a == b
  {
    if a == [] {
      assert |multiset(b)| == 0;
    } else {
      assert a[0] in multiset(a);
      SortedHead(b, a[0]);
      assert b[0] in multiset(b);
      SortedHead(a, b[0]);
      var a', b' := a[1..], b[1..];
      assert a[0] == b[0];
      assert a == [a[0]] + a' && b == [b[0]] + b';
      assert multiset(a) == multiset{a[0]} + multiset(a');
      assert multiset(b) == multiset{a[0]} + multiset(b');
      forall y
        ensures multiset(a')[y] == multiset(b')[y]
      {
        assert multiset(a)[y] == multiset{a[0]}[y] + multiset(a')[y];
        assert multiset(b)[y] == multiset{a[0]}[y] + multiset(b')[y];
      }
      assert multiset(a') == multiset(b');
      assert Sorted(a') && Sorted(b');
      SortedUnique(a', b');
    }
  }

  /** Any sorted permutation of a list is its `Sort`. */
  lemma {:induction false} SortIsTheSort(s: seq<nat>, t: seq<nat>)
    requires Sorted(t) && multiset(t) == multiset(s)
    ensures t == Sort(s)
  {
    SortSorted(s);
    SortedUnique(t, Sort(s));
  }

  // ---------------------------------------------------------------------------------------
  // Total distance

  /** The gap between two ids, computed by subtracting the smaller from the larger. */
  function Gap(x: nat, y: nat): (d: nat)
    ensures d == 0 <==> x == y
    ensures x <= y ==> x + d == y
    ensures y <= x ==> y + d == x
  {
    if x > y then x - y else y - x
  }

  function Min(a: nat, b: nat): nat
  {
    if a <= b then a else b
  }

  /** The sum of the gaps of the first `n` partners. */
  function DistanceUpTo(xs: seq<nat>, ys: seq<nat>, n: nat): nat
    requires n <= |xs| && n <= |ys|
  {
    if n == 0 then 0 else DistanceUpTo(xs, ys, n - 1) + Gap(xs[n - 1], ys[n - 1])
  }

  /** `zip`: partners up to the shorter list. */
  function Distance(xs: seq<nat>, ys: seq<nat>): nat
  {
    DistanceUpTo(xs, ys, Min(|xs|, |ys|))
  }

  /** The distance-summing loop over the zipped lists. */
  method TotalDistance(xs: seq<nat>, ys: seq<nat>) returns (total: nat)
    ensures total == Distance(xs, ys)
  {
    total := 0;
    var n := Min(|xs|, |ys|);
    for i := 0 to n
      invariant total == DistanceUpTo(xs, ys, i)
    {
      var x, y := xs[i], ys[i];
      if x > y {
        var d: nat := x - y;
        total := total + d;
      } else {
        var d: nat := y - x;
        total := total + d;
      }
    }
  }

  /** The distance does not care which list is on the left. */
  lemma {:induction false} DistanceSymmetric(xs: seq<nat>, ys: seq<nat>, n: nat)
    requires n <= |xs| && n <= |ys|
    ensures DistanceUpTo(xs, ys, n) == DistanceUpTo(ys, xs, n)
  {
    if n > 0 {
      DistanceSymmetric(xs, ys, n - 1);
    }
  }

  /** Lists of equal length are at distance 0 exactly when they are equal. */
  lemma {:induction false} DistanceZero(xs: seq<nat>, ys: seq<nat>, n: nat)
    requires n <= |xs| && n <= |ys|
    ensures DistanceUpTo(xs, ys, n) == 0 <==> xs[..n] == ys[..n]
  {
    if n > 0 {
      DistanceZero(xs, ys, n - 1);
      assert xs[..n] == xs[..n - 1] + [xs[n - 1]];
      assert ys[..n] == ys[..n - 1] + [ys[n - 1]];
      if xs[..n] == ys[..n] {
        assert xs[..n - 1] == xs[..n][..n - 1];
        assert ys[..n - 1] == ys[..n][..n - 1];
        assert xs[n - 1] == xs[..n][n - 1];
        assert ys[n - 1] == ys[..n][n - 1];
      }
    }
  }

  function Sum(s: seq<nat>, n: nat): nat
    requires n <= |s|
  {
    if n == 0 then 0 else Sum(s, n - 1) + s[n - 1]
  }

  /** The distance is at least the difference of the two lists' sums. */
  lemma {:induction false} DistanceBound(xs: seq<nat>, ys: seq<nat>, n: nat)
    requires n <= |xs| && n <= |ys|
    ensures Sum(xs, n) <= Sum(ys, n) + DistanceUpTo(xs, ys, n)
    ensures Sum(ys, n) <= Sum(xs, n) + DistanceUpTo(xs, ys, n)
  {
    if n > 0 {
      DistanceBound(xs, ys, n - 1);
      var g := Gap(xs[n - 1], ys[n - 1]);
      assert xs[n - 1] <= ys[n - 1] + g && ys[n - 1] <= xs[n - 1] + g;
    }
  }

  // ---------------------------------------------------------------------------------------
  // Similarity score

  /** The number of times `x` occurs in `ys`. */
  function Count(ys: seq<nat>, x: nat): nat
  {
    if ys == [] then 0 else Count(ys[..|ys| - 1], x) + if ys[|ys| - 1] == x then 1 else 0
  }

  /** Counting is the multiplicity of the list's multiset. */
  lemma {:induction false} CountMultiset(ys: seq<nat>, x: nat)
    ensures Count(ys, x) == multiset(ys)[x]
  {
    if ys != [] {
      var init := ys[..|ys| - 1];
      assert ys == init + [ys[|ys| - 1]];
      CountMultiset(init, x);
    }
  }

  lemma {:induction false} CountNext(ys: seq<nat>, x: nat, j: nat, next: nat)
    requires next == j + 1 <= |ys|
    ensures Count(ys[..next], x) == Count(ys[..j], x) + if ys[j] == x then 1 else 0
  {
    assert ys[..next][..j] == ys[..j];
  }

  /** The sum over the left list of each id times its count in the right list. */
  function Similarity(xs: seq<nat>, ys: seq<nat>): nat
  {
    if xs == [] then 0
    else Similarity(xs[..|xs| - 1], ys) + xs[|xs| - 1] * Count(ys, xs[|xs| - 1])
  }

  lemma {:induction false} SimilarityNext(xs: seq<nat>, ys: seq<nat>, i: nat, next: nat)
    requires next == i + 1 <= |xs|
    ensures Similarity(xs[..next], ys) == Similarity(xs[..i], ys) + xs[i] * Count(ys, xs[i])
  {
    assert xs[..next][..i] == xs[..i];
  }

  /** The occurrence-counting loop over the right list. */
  method Occurrences(ys: seq<nat>, x: nat) returns (k: nat)
    ensures k == Count(ys, x)
  {
    k := 0;
    for j := 0 to |ys|
      invariant k == Count(ys[..j], x)
    {
      CountNext(ys, x, j, j + 1);
      if ys[j] == x {
        k := k + 1;
      }
    }
    assert ys[..|ys|] == ys;
  }

  /** The similarity loop: for each left id, count it in the right list and add the product. */
  method SimilarityScore(xs: seq<nat>, ys: seq<nat>) returns (similarity: nat)
    ensures similarity == Similarity(xs, ys)
  {
    similarity := 0;
    for i := 0 to |xs|
      invariant similarity == Similarity(xs[..i], ys)
    {
      SimilarityNext(xs, ys, i, i + 1);
      var k := Occurrences(ys, xs[i]);
      similarity := similarity + xs[i] * k;
    }
    assert xs[..|xs|] == xs;
  }

  /** The score of a concatenation is the sum of the scores. */
  lemma {:induction false} SimilarityAppend(a: seq<nat>, b: seq<nat>, ys: seq<nat>)
    ensures Similarity(a + b, ys) == Similarity(a, ys) + Similarity(b, ys)
    decreases |b|
  {
    if b == [] {
      assert a + b == a;
    } else {
      var init := b[..|b| - 1];
      assert (a + b)[..|a + b| - 1] == a + init;
      SimilarityAppend(a, init, ys);
    }
  }

  /** Reordering the right list leaves the score unchanged. */
  lemma {:induction false} SimilarityRight(xs: seq<nat>, ys: seq<nat>, zs: seq<nat>)
    requires multiset(ys) == multiset(zs)
    ensures Similarity(xs, ys) == Similarity(xs, zs)
  {
    if xs != [] {
      SimilarityRight(xs[..|xs| - 1], ys, zs);
      CountMultiset(ys, xs[|xs| - 1]);
      CountMultiset(zs, xs[|xs| - 1]);
    }
  }

  /** Reordering the left list leaves the score unchanged. */
  lemma {:induction false} SimilarityLeft(xs: seq<nat>, zs: seq<nat>, ys: seq<nat>)
    requires multiset(xs) == multiset(zs)
    ensures Similarity(xs, ys) == Similarity(zs, ys)
    decreases |xs|
  {
    if xs == [] {
      assert |multiset(zs)| == 0;
      assert zs == [];
    } else {
      var x := xs[|xs| - 1];
      var init := xs[..|xs| - 1];
      assert xs == init + [x];
      assert x in multiset(zs);
      var i :| 0 <= i < |zs| && zs[i] == x;
      var rest := zs[..i] + zs[i + 1..];
      RemoveAt(zs, i);
      assert multiset(xs) == multiset(init) + multiset{x};
      forall y
        ensures multiset(init)[y] == multiset(rest)[y]
      {
        assert multiset(xs)[y] == multiset(init)[y] + multiset{x}[y];
        assert multiset(zs)[y] == multiset(rest)[y] + multiset{x}[y];
      }
      assert multiset(init) == multiset(rest);
      SimilarityLeft(init, rest, ys);
      SimilarityRemove(zs, i, ys);
    }
  }

  lemma {:induction false} RemoveAt(zs: seq<nat>, i: nat)
    requires i < |zs|
    ensures multiset(zs) == multiset(zs[..i] + zs[i + 1..]) + multiset{zs[i]}
  {
    assert zs == zs[..i] + [zs[i]] + zs[i + 1..];
  }

  /** Taking one id out of the left list takes its product out of the score. */
  lemma {:induction false} SimilarityRemove(zs: seq<nat>, i: nat, ys: seq<nat>)
    requires i < |zs|
    ensures Similarity(zs, ys) == Similarity(zs[..i] + zs[i + 1..], ys) + zs[i] * Count(ys, zs[i])
  {
    var x := zs[i];
    assert zs == zs[..i] + [x] + zs[i + 1..];
    SimilarityAppend(zs[..i] + [x], zs[i + 1..], ys);
    SimilarityAppend(zs[..i], [x], ys);
    SimilarityAppend(zs[..i], zs[i + 1..], ys);
    assert [x][..0] == [];
  }

  /** The score depends only on which ids the lists hold, not on their order. */
  lemma {:induction false} SimilarityOrderFree(xs: seq<nat>, ys: seq<nat>, xs': seq<nat>, ys': seq<nat>)
    requires multiset(xs) == multiset(xs') && multiset(ys) == multiset(ys')
    ensures Similarity(xs, ys) == Similarity(xs', ys')
  {
    SimilarityLeft(xs, xs', ys);
    SimilarityRight(xs', ys, ys');
  }

  // ---------------------------------------------------------------------------------------
  // The whole program

  /** Both answers: the distance between the sorted lists and the similarity score. The
      score is that of the lists as read, since sorting does not change it. */
  method Totals(contents: string) returns (r: Result<(nat, nat), Error>)
    ensures var rows := Rows(Text.Lines(contents));
      (r.Ok? <==> Pairs(rows, |rows|))
      && (r.Ok? ==> r.value == (Distance(Sort(Column(rows, 0, |rows|)), Sort(Column(rows, 1, |rows|))),
                                Similarity(Column(rows, 0, |rows|), Column(rows, 1, |rows|))))
      && (r.Err? ==> r.error.line < |rows| && |rows[r.error.line]| != 2 && Pairs(rows, r.error.line))
  {
    var lines := Text.Lines(contents);
    var lists := BuildLists(lines);
    if lists.Err? {
      return Err(lists.error);
    }
    var (listOne, listTwo) := lists.value;
    var sortedOne := Sort(listOne);
    var sortedTwo := Sort(listTwo);
    var distance := TotalDistance(sortedOne, sortedTwo);
    var similarity := SimilarityScore(sortedOne, sortedTwo);
    SimilarityOrderFree(sortedOne, sortedTwo, listOne, listTwo);
    return Ok((distance, similarity));
  }
}
