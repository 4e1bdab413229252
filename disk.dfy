/** The disk of day 9: a dense disk map decoded into a row of blocks, each free or holding a
    block of the file with some id; compacted block by block (`defrag`) or whole file by whole
    file (`defrag_pt2`); and summarised by a checksum. The scans over the blocks are methods
    proved against the functions on `seq<Block>` defined first. */
module Disk {
  import opened Wrappers
  import Text

  datatype Block = Free | Used(id: nat)

  // ---------------------------------------------------------------------------------------
  // Decoding the disk map

  /** The digit values of `s`, or None when some character is not a decimal digit (where
      `to_digit(10).unwrap()` panics). */
  function DigitValues(s: string): (ds: Option<seq<nat>>)
    ensures ds.Some? <==> Text.AllDigits(s)
    ensures ds.Some? ==> |ds.value| == |s|
    ensures ds.Some? ==> forall k :: 0 <= k < |s| ==> Text.ToDigit(s[k]) == Some(ds.value[k])
  {
    if s == [] then Some([])
    else
      match (Text.ToDigit(s[0]), DigitValues(s[1..]))
      case (Some(d), Some(rest)) =>
        assert forall k :: 1 <= k < |s| ==> s[k] == s[1..][k - 1];
        Some([d] + rest)
      case (None, _) => None
      case (_, None) =>
        assert forall k :: 0 <= k < |s| - 1 ==> s[1..][k] == s[k + 1];
        None
  }

  /** `n` copies of `b`. */
  function Repeat(b: Block, n: nat): (r: seq<Block>)
    ensures |r| == n && forall k :: 0 <= k < n ==> r[k] == b
  {
    if n == 0 then [] else Repeat(b, n - 1) + [b]
  }

  /** The blocks a disk map describes: digit pairs (file length, free length), the files
      numbered up from `id`; a last file without a free digit is followed by no free block. */
  function Layout(ds: seq<nat>, id: nat): seq<Block>
    decreases |ds|
  {
    if ds == [] then []
    else
      var free := if |ds| > 1 then ds[1] else 0;
      var rest := if |ds| > 1 then ds[2..] else [];
      Repeat(Used(id), ds[0]) + Repeat(Free, free) + Layout(rest, id + 1)
  }

  function DigitSum(ds: seq<nat>): nat
  {
    if ds == [] then 0 else ds[0] + DigitSum(ds[1..])
  }

  /** The length of file `id`: the digit at position 2·(id − first) of the map, 0 past its end. */
  function FileLength(ds: seq<nat>, first: nat, id: nat): nat
  {
    if id < first || 2 * (id - first) >= |ds| then 0 else ds[2 * (id - first)]
  }

  /** The disk is as long as the digits add up to. */
  lemma {:induction false} LayoutLength(ds: seq<nat>, id: nat)
    ensures |Layout(ds, id)| == DigitSum(ds)
    decreases |ds|
  {
    if |ds| > 1 {
      LayoutLength(ds[2..], id + 1);
      assert ds[1..][1..] == ds[2..];
    } else if |ds| == 1 {
      assert ds[1..] == [];
    }
  }

  /** File `k` takes as many blocks as its digit says. */
  lemma {:induction false} LayoutCount(ds: seq<nat>, first: nat, k: nat)
    ensures Count(Layout(ds, first), k) == FileLength(ds, first, k)
    decreases |ds|
  {
    if ds == [] {
      CountZero([], k);
    } else {
      var rest := if |ds| > 1 then ds[2..] else [];
      var c := Layout(rest, first + 1);
      LayoutCountStep(ds, first, k);
      if k > first {
        LayoutCount(rest, first + 1, k);
        FileLengthRest(ds, first, k);
      } else {
        LayoutAbove(rest, first + 1);
        assert Used(k) !in c;
        CountZero(c, k);
      }
    }
  }

  /** File `k`'s blocks in a layout: those of the first digit's file, then those further on. */
  lemma {:induction false} LayoutCountStep(ds: seq<nat>, first: nat, k: nat)
    requires ds != []
    ensures Count(Layout(ds, first), k) ==
      (if k == first then ds[0] else 0) + Count(Layout(if |ds| > 1 then ds[2..] else [], first + 1), k)
  {
    var free := if |ds| > 1 then ds[1] else 0;
    var rest := if |ds| > 1 then ds[2..] else [];
    var a, b, c := Repeat(Used(first), ds[0]), Repeat(Free, free), Layout(rest, first + 1);
    assert Layout(ds, first) == a + b + c;
    CountMultiset(a + b + c, k);
    CountMultiset(c, k);
    RepeatMultiset(Used(first), ds[0], Used(k));
    RepeatMultiset(Free, free, Used(k));
    assert multiset(a + b + c) == multiset(a) + multiset(b) + multiset(c);
  }

  lemma {:induction false} FileLengthRest(ds: seq<nat>, first: nat, k: nat)
    requires ds != [] && k > first
    ensures FileLength(if |ds| > 1 then ds[2..] else [], first + 1, k) == FileLength(ds, first, k)
  {
    var rest := if |ds| > 1 then ds[2..] else [];
    var idx := 2 * (k - first);
    assert 2 * (k - (first + 1)) == idx - 2;
    if idx < |ds| {
      assert rest == ds[2..];
      assert rest[idx - 2] == ds[idx];
    } else {
      assert idx - 2 >= |rest|;
    }
  }

  /** Every block of a layout numbered from `first` holds a file id of at least `first`. */
  lemma {:induction false} LayoutAbove(ds: seq<nat>, first: nat)
    ensures forall b :: b in Layout(ds, first) && b.Used? ==> b.id >= first
    decreases |ds|
  {
    if ds != [] {
      var rest := if |ds| > 1 then ds[2..] else [];
      LayoutAbove(rest, first + 1);
    }
  }

  /** The files lie in id order: a block of file `i` never comes after a block of a file
      numbered above `i`. */
  lemma {:induction false} LayoutOrdered(ds: seq<nat>, first: nat)
    ensures Ordered(Layout(ds, first))
    decreases |ds|
  {
    if ds != [] {
      var free := if |ds| > 1 then ds[1] else 0;
      var rest := if |ds| > 1 then ds[2..] else [];
      var a, b, c := Repeat(Used(first), ds[0]), Repeat(Free, free), Layout(rest, first + 1);
      LayoutOrdered(rest, first + 1);
      LayoutAbove(rest, first + 1);
      var bs := a + b + c;
      forall i, j | 0 <= i < j < |bs| && bs[i].Used? && bs[j].Used?
        ensures bs[i].id <= bs[j].id
      {
        if j >= |a| + |b| {
          assert bs[j] == c[j - |a| - |b|];
          assert bs[j] in c;
          if i >= |a| + |b| {
            assert bs[i] == c[i - |a| - |b|];
          }
        }
      }
    }
  }

  predicate Ordered(bs: seq<Block>)
  {
    forall i, j :: 0 <= i < j < |bs| && bs[i].Used? && bs[j].Used? ==> bs[i].id <= bs[j].id
  }

  /** An ordered disk keeps each file in one piece: between two blocks of a file there are
      only blocks of that file or free blocks, and with the files laid out by `Layout` there are
      no free blocks in between either. */
  lemma {:induction false} LayoutContiguous(ds: seq<nat>, first: nat)
    ensures Contiguous(Layout(ds, first))
    decreases |ds|
  {
    if ds != [] {
      var free := if |ds| > 1 then ds[1] else 0;
      var rest := if |ds| > 1 then ds[2..] else [];
      var a, b, c := Repeat(Used(first), ds[0]), Repeat(Free, free), Layout(rest, first + 1);
      LayoutContiguous(rest, first + 1);
      LayoutAbove(rest, first + 1);
      var bs := a + b + c;
      forall i, k, j | 0 <= i < k < j < |bs| && bs[i].Used? && bs[j] == bs[i]
        ensures bs[k] == bs[i]
      {
        if i >= |a| + |b| {
          assert bs[i] == c[i - |a| - |b|] && bs[j] == c[j - |a| - |b|] && bs[k] == c[k - |a| - |b|];
        } else {
          assert bs[i] == Used(first);
          if j >= |a| + |b| {
            assert false;
          }
        }
      }
    }
  }

  // ---------------------------------------------------------------------------------------
  // What the scans compute

  /** `block_len`: the number of blocks of file `id`. */
  function Count(bs: seq<Block>, id: nat): (n: nat)
    ensures n <= |bs|
  {
    if bs == [] then 0 else Count(bs[..|bs| - 1], id) + (if bs[|bs| - 1] == Used(id) then 1 else 0)
  }

  /** The number of blocks of a file is its multiplicity in the multiset of blocks. */
  lemma {:induction false} CountMultiset(bs: seq<Block>, id: nat)
    ensures Count(bs, id) == multiset(bs)[Used(id)]
    decreases |bs|
  {
    if bs != [] {
      var n := |bs| - 1;
      CountMultiset(bs[..n], id);
      assert bs == bs[..n] + [bs[n]];
    }
  }

  lemma {:induction false} CountZero(bs: seq<Block>, id: nat)
    requires Used(id) !in bs
    ensures Count(bs, id) == 0
  {
    CountMultiset(bs, id);
  }

  lemma {:induction false} RepeatMultiset(b: Block, n: nat, c: Block)
    ensures multiset(Repeat(b, n))[c] == if c == b then n else 0
  {
    if n > 0 {
      RepeatMultiset(b, n - 1, c);
    }
  }

  /** Some free block comes before some file block. */
  predicate Fragmented(bs: seq<Block>)
  {
    exists i, j :: 0 <= i < j < |bs| && bs[i].Free? && bs[j].Used?
  }

  /** The first `k` blocks are file blocks and the rest free. */
  predicate SplitAt(bs: seq<Block>, k: nat)
  {
    k <= |bs| && (forall i :: 0 <= i < k ==> bs[i].Used?) && (forall i :: k <= i < |bs| ==> bs[i].Free?)
  }

  /** A disk that is not fragmented is its file blocks followed by its free blocks. */
  lemma {:induction false} Unfragmented(bs: seq<Block>)
    ensures !Fragmented(bs) <==> exists k: nat :: SplitAt(bs, k)
  {
    if !Fragmented(bs) {
      var k := FirstFreeOr(bs);
      forall i | k <= i < |bs|
        ensures bs[i].Free?
      {
        if k < i {
          assert bs[k].Free?;
        }
      }
      assert SplitAt(bs, k);
    } else {
      var i, j :| 0 <= i < j < |bs| && bs[i].Free? && bs[j].Used?;
      forall k: nat
        ensures !SplitAt(bs, k)
      {
        assert bs[i].Free? && bs[j].Used?;
      }
    }
  }

  /** The index of the first free block, or `|bs|` when there is none. */
  function FirstFreeOr(bs: seq<Block>): (f: nat)
    ensures f <= |bs| && (f < |bs| ==> bs[f].Free?)
    ensures forall k :: 0 <= k < f ==> bs[k].Used?
  {
    if bs == [] then 0 else if bs[0].Free? then 0 else 1 + FirstFreeOr(bs[1..])
  }

  /** `block_range`: the first and the last index of a block of file `id`, None if there is no
      such block (`RangeSound`). */
  function Range(bs: seq<Block>, id: nat): (r: Option<(nat, nat)>)
    ensures r.Some? ==> r.value.0 <= r.value.1 < |bs|
  {
    if bs == [] then None
    else
      var n := |bs| - 1;
      var r := Range(bs[..n], id);
      if bs[n] != Used(id) then r
      else if r.None? then Some((n, n))
      else Some((r.value.0, n))
  }

  /** The range is None exactly when the file has no block, and otherwise runs from the
      file's first block to its last. */
  lemma {:induction false} RangeSound(bs: seq<Block>, id: nat)
    ensures var r := Range(bs, id);
      && (r.None? <==> Used(id) !in bs)
      && (r.Some? ==> bs[r.value.0] == Used(id) && bs[r.value.1] == Used(id))
      && (r.Some? ==> forall k :: 0 <= k < r.value.0 ==> bs[k] != Used(id))
      && (r.Some? ==> forall k :: r.value.1 < k < |bs| ==> bs[k] != Used(id))
    decreases |bs|
  {
    if bs != [] {
      var n := |bs| - 1;
      RangeSound(bs[..n], id);
      assert forall k :: 0 <= k < n ==> bs[..n][k] == bs[k];
      assert bs == bs[..n] + [bs[n]];
    }
  }

  /** The `len` blocks from `start` on are all free. */
  predicate FreeRun(bs: seq<Block>, start: nat, len: nat)
  {
    start + len <= |bs| && forall k :: start <= k < start + len ==> bs[k].Free?
  }

  /** `first_free_range`: the leftmost run of `len` free blocks, as its first and last index;
      None when there is none, and always None for `len` = 0 (`FreeRangeSound`). */
  function FreeRange(bs: seq<Block>, len: nat): (r: Option<(nat, nat)>)
    ensures r.Some? ==> r.value.0 <= r.value.1 < |bs|
  {
    if len == 0 then None else FirstRunFrom(bs, len, 0)
  }

  function FirstRunFrom(bs: seq<Block>, len: nat, from: nat): (r: Option<(nat, nat)>)
    requires len > 0
    ensures r.Some? ==> r.value.0 <= r.value.1 < |bs| && r.value.1 == r.value.0 + len - 1
    decreases |bs| - from
  {
    if from + len > |bs| then None
    else if FreeRun(bs, from, len) then Some((from, from + len - 1))
    else FirstRunFrom(bs, len, from + 1)
  }

  lemma {:induction false} FirstRunFromSound(bs: seq<Block>, len: nat, from: nat)
    requires len > 0
    ensures var r := FirstRunFrom(bs, len, from);
      && (r.None? ==> forall s: nat :: from <= s ==> !FreeRun(bs, s, len))
      && (r.Some? ==> from <= r.value.0 && FreeRun(bs, r.value.0, len))
      && (r.Some? ==> forall s: nat :: from <= s < r.value.0 ==> !FreeRun(bs, s, len))
    decreases |bs| - from
  {
    if from + len <= |bs| && !FreeRun(bs, from, len) {
      FirstRunFromSound(bs, len, from + 1);
    }
  }

  /** The free range is a run of `len` free blocks with no such run further left, and there
      is none at all when the answer is None. */
  lemma {:induction false} FreeRangeSound(bs: seq<Block>, len: nat)
    ensures var r := FreeRange(bs, len);
      && (len == 0 ==> r.None?)
      && (len > 0 && r.None? ==> forall s: nat :: !FreeRun(bs, s, len))
      && (r.Some? ==> len > 0 && FreeRun(bs, r.value.0, len) && r.value.1 == r.value.0 + len - 1)
      && (r.Some? ==> forall s: nat :: s < r.value.0 ==> !FreeRun(bs, s, len))
  {
    if len > 0 {
      FirstRunFromSound(bs, len, 0);
    }
  }

  /** There is one leftmost free run: any answer with the properties `FreeRange` promises is
      `FreeRange`'s. */
  lemma {:induction false} FreeRangeUnique(bs: seq<Block>, len: nat, r: Option<(nat, nat)>)
    requires len == 0 ==> r.None?
    requires len > 0 && r.None? ==> forall s: nat :: !FreeRun(bs, s, len)
    requires r.Some? ==> len > 0 && FreeRun(bs, r.value.0, len) && r.value.1 == r.value.0 + len - 1
    requires r.Some? ==> forall s: nat :: s < r.value.0 ==> !FreeRun(bs, s, len)
    ensures r == FreeRange(bs, len)
  {
    var q := FreeRange(bs, len);
    FreeRangeSound(bs, len);
    if r.Some? && q.Some? {
      assert !(r.value.0 < q.value.0) && !(q.value.0 < r.value.0);
    }
  }

  /** The number of free blocks that end just before index `x`. */
  function TrailingFree(bs: seq<Block>, x: nat): (n: nat)
    requires x <= |bs|
    ensures n <= x
  {
    if x == 0 || bs[x - 1].Used? then 0 else TrailingFree(bs, x - 1) + 1
  }

  /** The trailing free blocks form a run, and every run that ends at `x` is among them. */
  lemma {:induction false} TrailingFreeRun(bs: seq<Block>, x: nat)
    requires x <= |bs|
    ensures FreeRun(bs, x - TrailingFree(bs, x), TrailingFree(bs, x))
    ensures forall s: nat, len: nat :: s + len == x && FreeRun(bs, s, len) ==> len <= TrailingFree(bs, x)
    decreases x
  {
    if x > 0 {
      TrailingFreeRun(bs, x - 1);
      var n := TrailingFree(bs, x - 1);
      if bs[x - 1].Free? {
        assert TrailingFree(bs, x) == n + 1;
        assert forall k :: x - 1 - n <= k < x - 1 ==> bs[k].Free?;
      }
      forall s: nat, len: nat | s + len == x && FreeRun(bs, s, len)
        ensures len <= TrailingFree(bs, x)
      {
        if len > 0 {
          assert bs[x - 1].Free?;
          assert FreeRun(bs, s, len - 1);
        }
      }
    }
  }

  /** Block `b` at index `i` weighs its index times its id (`byId`) or its index alone. */
  function Weight(b: Block, i: nat, byId: bool): nat
  {
    match b
    case Free => 0
    case Used(id) => (if byId then id else 1) * i
  }

  /** The sum of the blocks' weights: the checksum when `byId`, the sum of the indices of the
      file blocks otherwise. */
  function WeightedSum(bs: seq<Block>, byId: bool): nat
  {
    if bs == [] then 0 else WeightedSum(bs[..|bs| - 1], byId) + Weight(bs[|bs| - 1], |bs| - 1, byId)
  }

  /** `checksum`: the sum of index × id over the file blocks. */
  function ChecksumOf(bs: seq<Block>): nat
  {
    WeightedSum(bs, true)
  }

  /** Overwriting one block changes the sum by exactly the two blocks' weights; in particular a
      free block contributes nothing. */
  lemma {:induction false} WeightedUpdate(bs: seq<Block>, i: nat, b: Block, byId: bool)
    requires i < |bs|
    ensures WeightedSum(bs[i := b], byId) + Weight(bs[i], i, byId) == WeightedSum(bs, byId) + Weight(b, i, byId)
    decreases |bs|
  {
    var n := |bs| - 1;
    var t := bs[i := b];
    if i == n {
      assert t[..n] == bs[..n];
    } else {
      assert t[..n] == bs[..n][i := b];
      WeightedUpdate(bs[..n], i, b, byId);
    }
  }

  /** Freeing a block of file `id` at index `i` lowers the checksum by `id · i`. */
  lemma {:induction false} FreeingLowersChecksum(bs: seq<Block>, i: nat)
    requires i < |bs| && bs[i].Used?
    ensures ChecksumOf(bs[i := Free]) + bs[i].id * i == ChecksumOf(bs)
  {
    WeightedUpdate(bs, i, Free, true);
  }

  // ---------------------------------------------------------------------------------------
  // Block-wise compaction

  /** The index of the last file block. */
  function LastUsed(bs: seq<Block>): (x: nat)
    requires HasUsed(bs)
    ensures x < |bs| && bs[x].Used? && forall k :: x < k < |bs| ==> bs[k].Free?
  {
    if bs[|bs| - 1].Used? then |bs| - 1
    else
      var n := |bs| - 1;
      UsedBefore(bs);
      LastUsed(bs[..n])
  }

  /** Some block holds a file. */
  predicate HasUsed(bs: seq<Block>)
  {
    exists k :: 0 <= k < |bs| && bs[k].Used?
  }

  lemma {:induction false} UsedBefore(bs: seq<Block>)
    requires HasUsed(bs) && bs[|bs| - 1].Free?
    ensures HasUsed(bs[..|bs| - 1])
  {
    var k :| 0 <= k < |bs| && bs[k].Used?;
    assert bs[..|bs| - 1][k].Used?;
  }

  /** One pass of `defrag`'s loop: the last file block is freed and its id written into the
      first free block. */
  function MoveLast(bs: seq<Block>): seq<Block>
    requires Fragmented(bs)
  {
    var x := LastUsed(bs);
    var cleared := bs[x := Free];
    FreeBeforeLast(bs);
    cleared[FirstFreeOr(cleared) := bs[x]]
  }

  /** On a fragmented disk the first free block, once the last file block is freed, lies
      before that file block. */
  lemma {:induction false} FreeBeforeLast(bs: seq<Block>)
    requires Fragmented(bs)
    ensures FirstFreeOr(bs[LastUsed(bs) := Free]) < LastUsed(bs)
  {
    var i, j :| 0 <= i < j < |bs| && bs[i].Free? && bs[j].Used?;
    var x := LastUsed(bs);
    assert j <= x;
    assert bs[x := Free][i].Free?;
  }

  /** A pass keeps the length and the blocks, and moves one file block strictly to the left. */
  lemma {:induction false} MoveLastEffect(bs: seq<Block>)
    requires Fragmented(bs)
    ensures var x, f := LastUsed(bs), FirstFreeOr(bs[LastUsed(bs) := Free]);
      && f < x && bs[f].Free?
      && MoveLast(bs) == bs[x := Free][f := bs[x]]
      && |MoveLast(bs)| == |bs| && multiset(MoveLast(bs)) == multiset(bs)
      && WeightedSum(MoveLast(bs), false) < WeightedSum(bs, false)
  {
    FreeBeforeLast(bs);
    MoveLastKeeps(bs);
    MoveLastLowers(bs);
  }

  lemma {:induction false} MoveLastKeeps(bs: seq<Block>)
    requires Fragmented(bs)
    ensures multiset(MoveLast(bs)) == multiset(bs)
  {
    var x := LastUsed(bs);
    var cleared := bs[x := Free];
    FreeBeforeLast(bs);
    UpdateMultiset(bs, x, Free);
    UpdateMultiset(cleared, FirstFreeOr(cleared), bs[x]);
  }

  lemma {:induction false} MoveLastLowers(bs: seq<Block>)
    requires Fragmented(bs)
    ensures WeightedSum(MoveLast(bs), false) < WeightedSum(bs, false)
  {
    var x := LastUsed(bs);
    var cleared := bs[x := Free];
    var f := FirstFreeOr(cleared);
    FreeBeforeLast(bs);
    WeightedUpdate(bs, x, Free, false);
    WeightedUpdate(cleared, f, bs[x], false);
  }

  /** Overwriting one block swaps it for the new one in the multiset of blocks. */
  lemma {:induction false} UpdateMultiset(bs: seq<Block>, i: nat, v: Block)
    requires i < |bs|
    ensures multiset(bs[i := v]) == multiset(bs) - multiset{bs[i]} + multiset{v}
  {
  }

  /** What `defrag` leaves: passes until the disk is no longer fragmented. */
  function Defragged(bs: seq<Block>): seq<Block>
    decreases WeightedSum(bs, false)
  {
    if Fragmented(bs) then
      MoveLastEffect(bs);
      Defragged(MoveLast(bs))
    else bs
  }

  /** `defrag` ends with the file blocks first and the free blocks last, on a disk of the same
      length holding the same blocks. */
  lemma {:induction false} DefraggedSound(bs: seq<Block>)
    ensures !Fragmented(Defragged(bs))
    ensures |Defragged(bs)| == |bs| && multiset(Defragged(bs)) == multiset(bs)
    decreases WeightedSum(bs, false)
  {
    if Fragmented(bs) {
      MoveLastEffect(bs);
      DefraggedSound(MoveLast(bs));
    }
  }

  // ---------------------------------------------------------------------------------------
  // Whole-file compaction

  /** Adds the block's id to `ids` unless it is free or already there. */
  function AddId(ids: seq<nat>, b: Block): seq<nat>
  {
    if b.Used? && b.id !in ids then ids + [b.id] else ids
  }

  /** The ids in the order `defrag_pt2` meets them scanning from the end, each once. */
  function IdsFromEnd(bs: seq<Block>): (ids: seq<nat>)
  {
    if bs == [] then [] else AddId(IdsFromEnd(bs[1..]), bs[0])
  }

  /** The scan lists every file of the disk exactly once. */
  lemma {:induction false} IdsFromEndSound(bs: seq<Block>)
    ensures forall i, j :: 0 <= i < j < |IdsFromEnd(bs)| ==> IdsFromEnd(bs)[i] != IdsFromEnd(bs)[j]
    ensures forall id :: id in IdsFromEnd(bs) <==> Used(id) in bs
  {
    if bs != [] {
      IdsFromEndSound(bs[1..]);
      assert bs == [bs[0]] + bs[1..];
    }
  }

  /** File `id` moves: it has blocks, there is a free run as long as the file, and that run
      starts before the file does. */
  predicate Moves(bs: seq<Block>, id: nat)
  {
    var file := Range(bs, id);
    var free := FreeRange(bs, Count(bs, id));
    file.Some? && free.Some? && file.value.0 > free.value.0
  }

  /** `bs` with the blocks `file.0` to `file.1` freed and then the blocks `free.0` to
      `free.1` given to file `id`. */
  function Relocate(bs: seq<Block>, id: nat, file: (nat, nat), free: (nat, nat)): (r: seq<Block>)
    ensures |r| == |bs|
  {
    seq(|bs|, k requires 0 <= k < |bs| =>
      if free.0 <= k <= free.1 then Used(id) else if file.0 <= k <= file.1 then Free else bs[k])
  }

  /** One iteration of `defrag_pt2`'s loop: a file that moves is freed and written into the
      leftmost free run as long as it. */
  function MoveFile(bs: seq<Block>, id: nat): seq<Block>
  {
    if Moves(bs, id) then Relocate(bs, id, Range(bs, id).value, FreeRange(bs, Count(bs, id)).value)
    else bs
  }

  function MoveFiles(bs: seq<Block>, ids: seq<nat>): seq<Block>
    decreases |ids|
  {
    if ids == [] then bs else MoveFiles(MoveFile(bs, ids[0]), ids[1..])
  }

  /** `defrag_pt2`'s loop from position `i` on: move file `ids[i]`, then go on from `i + 1`. */
  lemma {:induction false} MoveFilesStep(bs: seq<Block>, ids: seq<nat>, i: nat)
    requires i < |ids|
    ensures MoveFiles(bs, ids[i..]) == MoveFiles(MoveFile(bs, ids[i]), ids[i + 1..])
  {
    assert ids[i..][1..] == ids[i + 1..];
  }

  /** Each file's blocks form one run of consecutive blocks. */
  predicate Contiguous(bs: seq<Block>)
  {
    forall i, k, j :: 0 <= i < k < j < |bs| && bs[i].Used? && bs[j] == bs[i] ==> bs[k] == bs[i]
  }

  /** On a contiguous disk a file's range holds exactly its blocks. */
  lemma {:induction false} RangeCount(bs: seq<Block>, id: nat)
    requires Contiguous(bs) && Range(bs, id).Some?
    ensures var a, b := Range(bs, id).value.0, Range(bs, id).value.1;
      && Count(bs, id) == b - a + 1
      && forall k :: a <= k <= b ==> bs[k] == Used(id)
  {
    RangeSound(bs, id);
    var a, b := Range(bs, id).value.0, Range(bs, id).value.1;
    forall k | a <= k <= b
      ensures bs[k] == Used(id)
    {
      if a < k < b {
        assert bs[a].Used? && bs[b] == bs[a];
      }
    }
    CountRun(bs, id, a, b + 1, b - a + 1);
  }

  /** A file whose blocks are exactly the `n` indices `lo` to `hi - 1` has `n` blocks. */
  lemma {:induction false} CountRun(bs: seq<Block>, id: nat, lo: nat, hi: nat, n: nat)
    requires hi == lo + n <= |bs|
    requires forall k :: 0 <= k < |bs| ==> (bs[k] == Used(id) <==> lo <= k < hi)
    ensures Count(bs, id) == n
  {
    var p, u, s := bs[..lo], bs[lo..hi], bs[hi..];
    RunIs(bs, lo, hi, n, Used(id));
    assert Used(id) !in p by {
      forall k | 0 <= k < |p|
        ensures p[k] != Used(id)
      {
        assert p[k] == bs[k];
      }
    }
    assert Used(id) !in s by {
      forall k | 0 <= k < |s|
        ensures s[k] != Used(id)
      {
        assert s[k] == bs[hi + k];
      }
    }
    assert bs == p + u + s;
    CountMultiset(bs, id);
    RepeatMultiset(Used(id), n, Used(id));
    assert multiset(bs) == multiset(p) + multiset(u) + multiset(s);
    assert multiset(p)[Used(id)] == 0 && multiset(s)[Used(id)] == 0;
  }

  /** The facts a move relies on: the file's blocks are exactly `file.0` to `file.1`, and
      `free.0` to `free.1` is a free run as long as the file that ends before it. */
  predicate Movable(bs: seq<Block>, id: nat, file: (nat, nat), free: (nat, nat))
  {
    && file.0 <= file.1 < |bs| && free.0 <= free.1 < file.0
    && free.1 - free.0 == file.1 - file.0
    && (forall k :: file.0 <= k <= file.1 ==> bs[k] == Used(id))
    && (forall k :: 0 <= k < file.0 ==> bs[k] != Used(id))
    && (forall k :: file.1 < k < |bs| ==> bs[k] != Used(id))
    && (forall k :: free.0 <= k <= free.1 ==> bs[k].Free?)
  }

  /** A file that moves on a contiguous disk and the free run it moves to are `Movable`. */
  lemma {:induction false} MovesRanges(bs: seq<Block>, id: nat)
    requires Contiguous(bs) && Moves(bs, id)
    ensures Movable(bs, id, Range(bs, id).value, FreeRange(bs, Count(bs, id)).value)
  {
    var a, b := Range(bs, id).value.0, Range(bs, id).value.1;
    var f0, f1 := FreeRange(bs, Count(bs, id)).value.0, FreeRange(bs, Count(bs, id)).value.1;
    RangeSound(bs, id);
    FreeRangeSound(bs, Count(bs, id));
    RangeCount(bs, id);
    assert FreeRun(bs, f0, Count(bs, id));
    assert f1 < a;
  }

  /** Relocating a movable file keeps the blocks and the disk contiguous, puts the file
      exactly on the free run and changes nothing else. */
  lemma {:induction false} RelocateSound(bs: seq<Block>, id: nat, file: (nat, nat), free: (nat, nat))
    requires Contiguous(bs) && Movable(bs, id, file, free)
    ensures var r := Relocate(bs, id, file, free);
      && multiset(r) == multiset(bs) && Contiguous(r)
      && Range(r, id) == Some(free)
      && forall k :: 0 <= k < |bs| && !(file.0 <= k <= file.1) && !(free.0 <= k <= free.1) ==> r[k] == bs[k]
  {
    var r := Relocate(bs, id, file, free);
    var n := file.1 - file.0 + 1;
    SwapMultiset(bs, r, free.0, free.1 + 1, file.0, file.1 + 1, n, Free, Used(id));
    forall k | 0 <= k < |r|
      ensures r[k] == Used(id) <==> free.0 <= k <= free.1
    {
    }
    forall i, k, j | 0 <= i < k < j < |r| && r[i].Used? && r[j] == r[i]
      ensures r[k] == r[i]
    {
      if r[i] != Used(id) {
        assert r[i] == bs[i] && r[j] == bs[j];
        assert bs[k] == bs[i];
      }
    }
    RangeExact(r, id, free.0, free.1);
  }

  /** On a contiguous disk, a move keeps the blocks and keeps the disk contiguous; a file
      that moves lands exactly on the leftmost free run as long as it, which is to the left of
      where it was, and nothing outside its old blocks and that run changes. */
  lemma {:induction false} MoveFileSound(bs: seq<Block>, id: nat)
    requires Contiguous(bs)
    ensures var r := MoveFile(bs, id);
      && |r| == |bs| && multiset(r) == multiset(bs) && Contiguous(r)
      && (!Moves(bs, id) ==> r == bs)
      && (Moves(bs, id) ==>
            var file, free := Range(bs, id).value, FreeRange(bs, Count(bs, id)).value;
            && free.1 < file.0 && Range(r, id) == Some(free)
            && forall k :: 0 <= k < |bs| && !(file.0 <= k <= file.1) && !(free.0 <= k <= free.1) ==> r[k] == bs[k])
  {
    if Moves(bs, id) {
      var file, free := Range(bs, id).value, FreeRange(bs, Count(bs, id)).value;
      MovesRanges(bs, id);
      RelocateSound(bs, id, file, free);
    }
  }

  /** `bs[lo..hi]` is `n` copies of `v` when every block there is `v`. */
  lemma {:induction false} RunIs(bs: seq<Block>, lo: nat, hi: nat, n: nat, v: Block)
    requires hi == lo + n <= |bs|
    requires forall k :: lo <= k < hi ==> bs[k] == v
    ensures bs[lo..hi] == Repeat(v, n)
  {
    assert forall k :: 0 <= k < n ==> bs[lo..hi][k] == bs[lo + k];
  }

  /** Exchanging a run of `n` copies of `u` with a later run of `n` copies of `v` keeps the
      multiset of blocks. */
  lemma {:induction false} SwapMultiset(bs: seq<Block>, r: seq<Block>, lo1: nat, hi1: nat, lo2: nat, hi2: nat, n: nat, u: Block, v: Block)
    requires |r| == |bs| && hi1 == lo1 + n <= lo2 && hi2 == lo2 + n <= |bs|
    requires forall k :: lo1 <= k < hi1 ==> bs[k] == u && r[k] == v
    requires forall k :: lo2 <= k < hi2 ==> bs[k] == v && r[k] == u
    requires forall k :: 0 <= k < |bs| && !(lo1 <= k < hi1) && !(lo2 <= k < hi2) ==> r[k] == bs[k]
    ensures multiset(r) == multiset(bs)
  {
    RunIs(bs, lo1, hi1, n, u);
    RunIs(r, lo1, hi1, n, v);
    RunIs(bs, lo2, hi2, n, v);
    RunIs(r, lo2, hi2, n, u);
    SameSlice(bs, r, 0, lo1);
    SameSlice(bs, r, hi1, lo2);
    SameSlice(bs, r, hi2, |bs|);
    Split5(bs, lo1, hi1, lo2, hi2);
    Split5(r, lo1, hi1, lo2, hi2);
  }

  /** Two disks that agree on the indices `lo` to `hi - 1` have the same slice there. */
  lemma {:induction false} SameSlice(bs: seq<Block>, r: seq<Block>, lo: nat, hi: nat)
    requires lo <= hi <= |bs| == |r|
    requires forall k :: lo <= k < hi ==> r[k] == bs[k]
    ensures r[lo..hi] == bs[lo..hi]
  {
  }

  /** The multiset of `s` is the sum of the multisets of five consecutive slices. */
  lemma {:induction false} Split5(s: seq<Block>, i: nat, j: nat, k: nat, l: nat)
    requires i <= j <= k <= l <= |s|
    ensures multiset(s) == multiset(s[0..i]) + multiset(s[i..j]) + multiset(s[j..k]) + multiset(s[k..l]) + multiset(s[l..|s|])
  {
    assert s == s[0..i] + s[i..j] + s[j..k] + s[k..l] + s[l..|s|];
  }

  /** A file whose blocks are exactly `lo` to `hi` has that range. */
  lemma {:induction false} RangeExact(bs: seq<Block>, id: nat, lo: nat, hi: nat)
    requires lo <= hi < |bs|
    requires forall k :: 0 <= k < |bs| ==> (bs[k] == Used(id) <==> lo <= k <= hi)
    ensures Range(bs, id) == Some((lo, hi))
  {
    RangeSound(bs, id);
    assert bs[lo] == Used(id);
    var c, d := Range(bs, id).value.0, Range(bs, id).value.1;
    assert bs[c] == Used(id) && bs[d] == Used(id);
    assert !(lo < c) && !(d < hi) by {
      assert bs[lo] == Used(id) && bs[hi] == Used(id);
    }
  }

  /** `defrag_pt2` on a contiguous disk keeps its blocks and keeps it contiguous. */
  lemma {:induction false} MoveFilesSound(bs: seq<Block>, ids: seq<nat>)
    requires Contiguous(bs)
    ensures |MoveFiles(bs, ids)| == |bs| && multiset(MoveFiles(bs, ids)) == multiset(bs)
    ensures Contiguous(MoveFiles(bs, ids))
    decreases |ids|
  {
    if ids != [] {
      MoveFileSound(bs, ids[0]);
      MoveFilesSound(MoveFile(bs, ids[0]), ids[1..]);
    }
  }

  /** Both compactions of a decoded disk keep every file's number of blocks. */
  lemma {:induction false} CompactionsKeepFiles(ds: seq<nat>, id: nat)
    ensures var bs := Layout(ds, 0);
      && Count(Defragged(bs), id) == FileLength(ds, 0, id)
      && Count(MoveFiles(bs, IdsFromEnd(bs)), id) == FileLength(ds, 0, id)
  {
    var bs := Layout(ds, 0);
    LayoutCount(ds, 0, id);
    LayoutContiguous(ds, 0);
    DefraggedSound(bs);
    MoveFilesSound(bs, IdsFromEnd(bs));
    CountMultiset(bs, id);
    CountMultiset(Defragged(bs), id);
    CountMultiset(MoveFiles(bs, IdsFromEnd(bs)), id);
  }

  /** The layout from digit `i` on: the file's `len` blocks, its `free` free blocks, then the
      layout from digit `next` on. */
  lemma {:induction false} LayoutFrom(ds: seq<nat>, i: nat, id: nat, len: nat, free: nat, next: nat)
    requires i < |ds| && len == ds[i]
    requires free == (if i + 1 < |ds| then ds[i + 1] else 0)
    requires next == (if i + 1 < |ds| then i + 2 else |ds|)
    ensures Layout(ds[i..], id) == Repeat(Used(id), len) + (Repeat(Free, free) + Layout(ds[next..], id + 1))
  {
    var t := ds[i..];
    assert t[0] == ds[i];
    if i + 1 < |ds| {
      assert |t| > 1 && t[1] == ds[i + 1];
      assert t[2..] == ds[i + 2..];
    } else {
      assert |t| == 1;
      assert ds[|ds|..] == [];
    }
  }

  /** The loop invariant of `Disk::new` carried over one file: the blocks pushed so far and the
      layout still to come make up the whole layout. */
  lemma {:induction false} Regroup(x: seq<Block>, a: seq<Block>, b: seq<Block>, c: seq<Block>, tail: seq<Block>, whole: seq<Block>)
    requires x + tail == whole && tail == a + (b + c)
    ensures x + a + b + c == whole
  {
    assert x + a + b + c == x + (a + (b + c));
  }

  /** The main loop of `Disk::new`: each file's blocks, then its free blocks, with ids counting
      up from 0. */
  method Expand(ds: seq<nat>) returns (space: seq<Block>)
    ensures space == Layout(ds, 0)
  {
    space := [];
    var i, id := 0, 0;
    while i < |ds|
      invariant i <= |ds| && space + Layout(ds[i..], id) == Layout(ds, 0)
      decreases |ds| - i
    {
      var len := ds[i];
      var free := if i + 1 < |ds| then ds[i + 1] else 0;
      var next := if i + 1 < |ds| then i + 2 else |ds|;
      LayoutFrom(ds, i, id, len, free, next);
      ghost var before := space;
      space := Push(space, Used(id), len);
      space := Push(space, Free, free);
      Regroup(before, Repeat(Used(id), len), Repeat(Free, free), Layout(ds[next..], id + 1), Layout(ds[i..], id), Layout(ds, 0));
      i, id := next, id + 1;
    }
    assert ds[i..] == [];
  }

  /** A fresh array holding `s`. */
  method ToArray(s: seq<Block>) returns (a: array<Block>)
    ensures fresh(a) && a[..] == s
  {
    a := new Block[|s|](k requires 0 <= k < |s| => s[k]);
  }

  /** The `for _ in 0..n { space.push(b) }` loops of `Disk::new`. */
  method Push(space: seq<Block>, b: Block, n: nat) returns (r: seq<Block>)
    ensures r == space + Repeat(b, n)
  {
    r := space;
    var k := 0;
    while k < n
      invariant k <= n && r == space + Repeat(b, k)
    {
      r := r + [b];
      k := k + 1;
    }
  }

  // ---------------------------------------------------------------------------------------
  // The disk

  class Disk {
    var blocks: array<Block>

    /** `Disk::new`: the digits of the trimmed text, decoded; a non-digit panics. */
    constructor (state: string)
      requires DigitValues(Text.Trim(state)).Some?
      ensures blocks[..] == Layout(DigitValues(Text.Trim(state)).value, 0)
      ensures fresh(blocks)
    {
      var ds := DigitValues(Text.Trim(state)).value;
      var space := Expand(ds);
      var a := ToArray(space);
      blocks := a;
    }

    /** `defrag`: block-wise compaction. */
    method Defrag()
      modifies blocks
      ensures blocks[..] == Defragged(old(blocks[..]))
    {
      while true
        invariant Defragged(blocks[..]) == Defragged(old(blocks[..]))
        decreases WeightedSum(blocks[..], false)
      {
        var fragmented := IsFragmented();
        if !fragmented {
          break;
        }
        ghost var before := blocks[..];
        MoveLastEffect(before);
        var nextId := FreeLast();
        FillFirstFree(nextId);
        assert blocks[..] == MoveLast(before);
      }
    }

    /** The first loop of a `defrag` pass: the last file block is freed, its id returned. */
    method FreeLast() returns (nextId: nat)
      requires HasUsed(blocks[..])
      modifies blocks
      ensures var x := LastUsed(old(blocks[..]));
        nextId == old(blocks[x]).id && blocks[..] == old(blocks[..])[x := Free]
    {
      ghost var x0 := LastUsed(blocks[..]);
      var x := blocks.Length;
      while x > 0
        invariant x0 < x <= blocks.Length && blocks[..] == old(blocks[..])
        decreases x
      {
        x := x - 1;
        if blocks[x].Used? {
          nextId := blocks[x].id;
          blocks[x] := Free;
          return;
        }
      }
    }

    /** The second loop of a `defrag` pass: the first free block gets file `id`. */
    method FillFirstFree(id: nat)
      requires exists k :: 0 <= k < blocks.Length && blocks[k].Free?
      modifies blocks
      ensures blocks[..] == old(blocks[..])[FirstFreeOr(old(blocks[..])) := Used(id)]
    {
      ghost var f := FirstFreeOr(blocks[..]);
      var x := 0;
      while x < blocks.Length
        invariant x <= f && blocks[..] == old(blocks[..])
        decreases blocks.Length - x
      {
        if blocks[x].Free? {
          blocks[x] := Used(id);
          return;
        }
        x := x + 1;
      }
    }

    /** `defrag_pt2`: whole-file compaction, the files taken in the order met from the end. */
    method DefragPt2()
      modifies blocks
      ensures blocks[..] == MoveFiles(old(blocks[..]), IdsFromEnd(old(blocks[..])))
    {
      var ids := CollectIds();
      var i := 0;
      while i < |ids|
        invariant i <= |ids| && MoveFiles(blocks[..], ids[i..]) == MoveFiles(old(blocks[..]), ids)
      {
        var id := ids[i];
        ghost var before := blocks[..];
        var len := BlockLen(id);
        var blockRange := BlockRange(id);
        var freeRange := FirstFreeRange(len);
        if blockRange.Some? && freeRange.Some? && blockRange.value.0 > freeRange.value.0 {
          MoveBlocks(id, blockRange.value, freeRange.value);
        }
        MoveFilesStep(before, ids, i);
        i := i + 1;
      }
    }

    /** The body of a move in `defrag_pt2`: the file's blocks are freed, then the free run
        is given to the file. */
    method MoveBlocks(id: nat, file: (nat, nat), free: (nat, nat))
      requires file.0 <= file.1 < blocks.Length && free.0 <= free.1 < blocks.Length
      modifies blocks
      ensures blocks[..] == Relocate(old(blocks[..]), id, file, free)
    {
      var i := file.0;
      while i <= file.1
        invariant file.0 <= i <= file.1 + 1
        invariant forall k :: 0 <= k < blocks.Length ==>
          blocks[k] == if file.0 <= k < i then Free else old(blocks[k])
      {
        blocks[i] := Free;
        i := i + 1;
      }
      i := free.0;
      while i <= free.1
        invariant free.0 <= i <= free.1 + 1
        invariant forall k :: 0 <= k < blocks.Length ==>
          blocks[k] == if free.0 <= k < i then Used(id) else if file.0 <= k <= file.1 then Free else old(blocks[k])
      {
        blocks[i] := Used(id);
        i := i + 1;
      }
    }

    /** The first loop of `defrag_pt2`: the distinct ids, scanning from the end. */
    method CollectIds() returns (ids: seq<nat>)
      ensures ids == IdsFromEnd(blocks[..])
    {
      ids := [];
      var x := blocks.Length;
      while x > 0
        invariant 0 <= x <= blocks.Length && ids == IdsFromEnd(blocks[x..])
        decreases x
      {
        x := x - 1;
        assert blocks[x..][1..] == blocks[x + 1..];
        if blocks[x].Used? && blocks[x].id !in ids {
          ids := ids + [blocks[x].id];
        }
      }
      assert blocks[x..] == blocks[..];
    }

    /** `block_len`. */
    method BlockLen(id: nat) returns (len: nat)
      ensures len == Count(blocks[..], id)
    {
      len := 0;
      var x := 0;
      while x < blocks.Length
        invariant x <= blocks.Length && len == Count(blocks[..x], id)
      {
        assert blocks[..x + 1][..x] == blocks[..x];
        if blocks[x] == Used(id) {
          len := len + 1;
        }
        x := x + 1;
      }
      assert blocks[..x] == blocks[..];
    }

    /** `block_range`. */
    method BlockRange(id: nat) returns (r: Option<(nat, nat)>)
      ensures r == Range(blocks[..], id)
    {
      var start := false;
      var range: (nat, nat) := (0, 0);
      var x := 0;
      while x < blocks.Length
        invariant x <= blocks.Length
        invariant start <==> Range(blocks[..x], id).Some?
        invariant start ==> range == Range(blocks[..x], id).value
      {
        assert blocks[..x + 1][..x] == blocks[..x];
        if blocks[x].Used? {
          if !start && blocks[x].id == id {
            start := true;
            range := (x, x);
          } else if blocks[x].id == id {
            range := (range.0, x);
          }
        }
        x := x + 1;
      }
      assert blocks[..x] == blocks[..];
      r := if start then Some(range) else None;
    }

    /** `first_free_range`. */
    method FirstFreeRange(len: nat) returns (r: Option<(nat, nat)>)
      ensures r == FreeRange(blocks[..], len)
    {
      ghost var bs := blocks[..];
      var foundFree := false;
      var found := 0;
      var start := 0;
      var x := 0;
      while x < blocks.Length
        invariant x <= blocks.Length
        invariant found == TrailingFree(bs, x) && (foundFree <==> found > 0)
        invariant found > 0 ==> start == x - found
        invariant len > 0 ==> found < len
        invariant len > 0 ==> forall s: nat :: s + len <= x ==> !FreeRun(bs, s, len)
      {
        TrailingFreeRun(bs, x + 1);
        if blocks[x].Free? {
          if !foundFree {
            foundFree := true;
            start := x;
          }
          found := found + 1;
          if found == len {
            r := Some((start, x));
            FreeRangeUnique(bs, len, r);
            return;
          }
        }
        if blocks[x].Used? {
          if foundFree {
            foundFree := false;
            found := 0;
          }
        }
        x := x + 1;
      }
      r := None;
      FreeRangeUnique(bs, len, r);
    }

    /** `is_fragmented`. */
    method IsFragmented() returns (b: bool)
      ensures b <==> Fragmented(blocks[..])
    {
      var sawFree := false;
      ghost var freeAt := 0;
      var x := 0;
      while x < blocks.Length
        invariant x <= blocks.Length
        invariant sawFree ==> freeAt < x && blocks[freeAt].Free?
        invariant !sawFree ==> forall k :: 0 <= k < x ==> blocks[k].Used?
        invariant forall i, j :: 0 <= i < j < x ==> !(blocks[i].Free? && blocks[j].Used?)
      {
        if blocks[x].Free? {
          sawFree, freeAt := true, x;
        } else if sawFree {
          return true;
        }
        x := x + 1;
      }
      return false;
    }

    /** `checksum`. */
    method Checksum() returns (sum: nat)
      ensures sum == ChecksumOf(blocks[..])
    {
      sum := 0;
      var i := 0;
      while i < blocks.Length
        invariant i <= blocks.Length && sum == WeightedSum(blocks[..i], true)
      {
        assert blocks[..i + 1][..i] == blocks[..i];
        if blocks[i].Used? {
          sum := sum + blocks[i].id * i;
        }
        i := i + 1;
      }
      assert blocks[..i] == blocks[..];
    }
  }
}
