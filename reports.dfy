/** Reactor safety reports. A report is a line of integer levels; it is safe when the levels
    strictly rise or strictly fall throughout, by at most 3 per step. The problem dampener
    tolerates an unsafe report if removing one level makes it safe. */
module Reports {
  import Text

  // ---------------------------------------------------------------------------------------
  // Safety

  function Abs(x: int): nat
  {
    if x < 0 then -x else x
  }

  /** Every step goes up by 1, 2 or 3. */
  predicate Rising(levels: seq<int>)
  {
    forall j :: 1 <= j < |levels| ==> 1 <= levels[j] - levels[j - 1] <= 3
  }

  /** Every step goes down by 1, 2 or 3. */
  predicate Falling(levels: seq<int>)
  {
    forall j :: 1 <= j < |levels| ==> 1 <= levels[j - 1] - levels[j] <= 3
  }

  /** A safe report: at least one step, every step non-zero, all steps of one sign, none
      larger than 3. */
  predicate Safe(levels: seq<int>)
  {
    |levels| >= 2 && (Rising(levels) || Falling(levels))
  }

  /** Some step from 1 up to `i` goes up, goes down, stays level or moves by more than 3. */
  predicate AnyUp(numbers: seq<int>, i: nat)
  {
    exists j :: 1 <= j < i && j < |numbers| && numbers[j] > numbers[j - 1]
  }

  predicate AnyDown(numbers: seq<int>, i: nat)
  {
    exists j :: 1 <= j < i && j < |numbers| && numbers[j] < numbers[j - 1]
  }

  predicate AnyLevel(numbers: seq<int>, i: nat)
  {
    exists j :: 1 <= j < i && j < |numbers| && numbers[j] == numbers[j - 1]
  }

  predicate AnyJump(numbers: seq<int>, i: nat)
  {
    exists j :: 1 <= j < i && j < |numbers| && Abs(numbers[j] - numbers[j - 1]) > 3
  }

  /** `is_safe`: one pass over the steps recording whether any went up, any went down, any
      stayed level and any moved by more than 3. The report is safe when exactly one of
      "up" and "down" was seen and neither of the others. */
  method IsSafe(numbers: seq<int>) returns (safe: bool)
    ensures safe == Safe(numbers)
  {
    var inc, dec, same, tooMuch := false, false, false, false;
    var i := 1;
    while i < |numbers|
      invariant 1 <= i && (i <= |numbers| || i == 1)
      invariant inc == AnyUp(numbers, i) && dec == AnyDown(numbers, i)
      invariant same == AnyLevel(numbers, i) && tooMuch == AnyJump(numbers, i)
    {
      var next := i + 1;
      FlagsNext(numbers, i, next);
      if numbers[i] > numbers[i - 1] {
        inc := true;
      } else if numbers[i] < numbers[i - 1] {
        dec := true;
      } else {
        same := true;
      }
      if Abs(numbers[i] - numbers[i - 1]) > 3 {
        tooMuch := true;
      }
      i := next;
    }
    safe := (inc && !dec && !same && !tooMuch) || (!inc && dec && !same && !tooMuch);
    FlagsMean(numbers, i);
  }

  lemma {:induction false} FlagsNext(numbers: seq<int>, i: nat, next: nat)
    requires 1 <= i < |numbers| && next == i + 1
    ensures AnyUp(numbers, next) == (AnyUp(numbers, i) || numbers[i] > numbers[i - 1])
    ensures AnyDown(numbers, next) == (AnyDown(numbers, i) || numbers[i] < numbers[i - 1])
    ensures AnyLevel(numbers, next) == (AnyLevel(numbers, i) || numbers[i] == numbers[i - 1])
    ensures AnyJump(numbers, next) == (AnyJump(numbers, i) || Abs(numbers[i] - numbers[i - 1]) > 3)
  {
  }

  /** The flags after the whole pass decide safety. */
  lemma {:induction false} FlagsMean(numbers: seq<int>, i: nat)
    requires i >= |numbers| && (i <= |numbers| || i == 1)
    ensures Safe(numbers) <==>
      (AnyUp(numbers, i) && !AnyDown(numbers, i) && !AnyLevel(numbers, i) && !AnyJump(numbers, i)) ||
      (!AnyUp(numbers, i) && AnyDown(numbers, i) && !AnyLevel(numbers, i) && !AnyJump(numbers, i))
  {
    if |numbers| >= 2 {
      if Rising(numbers) {
        assert numbers[1] > numbers[0];
      } else if Falling(numbers) {
        assert numbers[1] < numbers[0];
      }
    }
  }

  // ---------------------------------------------------------------------------------------
  // The dampener

  /** The report without its `i`-th level (`Vec::remove`). */
  function Remove(levels: seq<int>, i: nat): (r: seq<int>)
    requires i < |levels|
    ensures |r| == |levels| - 1
    ensures forall j :: 0 <= j < i ==> r[j] == levels[j]
    ensures forall j :: i <= j < |r| ==> r[j] == levels[j + 1]
  {
    levels[..i] + levels[i + 1..]
  }

  /** Some single removal makes the report safe. */
  predicate Dampenable(levels: seq<int>)
  {
    exists i :: 0 <= i < |levels| && Safe(Remove(levels, i))
  }

  /** The dampener loop: try removing each level in turn, stopping at the first that works. */
  method Dampen(numbers: seq<int>) returns (fixed: bool)
    ensures fixed == Dampenable(numbers)
  {
    for i := 0 to |numbers|
      invariant forall j :: 0 <= j < i ==> !Safe(Remove(numbers, j))
    {
      var tmp := numbers[..i] + numbers[i + 1..];
      var ok := IsSafe(tmp);
      if ok {
        assert Safe(Remove(numbers, i));
        return true;
      }
    }
    return false;
  }

  /** Dropping the first level of a safe report of three or more keeps it safe. */
  lemma {:induction false} SafeDropFirst(levels: seq<int>)
    requires Safe(levels) && |levels| >= 3
    ensures Safe(Remove(levels, 0))
  {
    var r := Remove(levels, 0);
    forall j | 1 <= j < |r|
      ensures r[j] == levels[j + 1] && r[j - 1] == levels[j]
    {
    }
    if Rising(levels) {
      assert Rising(r);
    } else {
      assert Falling(r);
    }
  }

  /** Dropping the last level of a safe report of three or more keeps it safe. */
  lemma {:induction false} SafeDropLast(levels: seq<int>)
    requires Safe(levels) && |levels| >= 3
    ensures Safe(Remove(levels, |levels| - 1))
  {
    var r := Remove(levels, |levels| - 1);
    assert forall j :: 0 <= j < |r| ==> r[j] == levels[j];
  }

  /** A report the dampener would fix is safe anyway or has a level that can go. */
  predicate Tolerated(levels: seq<int>)
  {
    Safe(levels) || Dampenable(levels)
  }

  /** The dampener never turns a safe report away: safe reports of three or more levels are
      dampenable too. */
  lemma {:induction false} SafeDampenable(levels: seq<int>)
    requires Safe(levels) && |levels| >= 3
    ensures Dampenable(levels)
  {
    SafeDropFirst(levels);
  }

  // ---------------------------------------------------------------------------------------
  // Parsing and counting

  /** The levels of one line: its whitespace-separated tokens that parse as an i32, others
      dropped. */
  function Numbers(line: string): seq<int>
  {
    Parsed(Text.SplitWhitespace(line))
  }

  function Parsed(tokens: seq<string>): (r: seq<int>)
    ensures |r| <= |tokens|
    ensures forall x :: x in r ==> Text.I32_MIN <= x <= Text.I32_MAX
  {
    if tokens == [] then []
    else
      var rest := Parsed(tokens[..|tokens| - 1]);
      match Text.ParseI32(tokens[|tokens| - 1])
      case Some(n) => rest + [n]
      case None => rest
  }

  /** When every token parses, the levels are the tokens' values in order. */
  lemma {:induction false} ParsedMeans(tokens: seq<string>)
    requires forall k :: 0 <= k < |tokens| ==> Text.ParseI32(tokens[k]).Some?
    ensures |Parsed(tokens)| == |tokens|
    ensures forall k :: 0 <= k < |tokens| ==> Parsed(tokens)[k] == Text.ParseI32(tokens[k]).value
  {
    if tokens != [] {
      var init := tokens[..|tokens| - 1];
      assert forall k :: 0 <= k < |init| ==> init[k] == tokens[k];
      ParsedMeans(init);
      ParsedLast(tokens);
    }
  }

  lemma {:induction false} ParsedLast(tokens: seq<string>)
    requires tokens != [] && Text.ParseI32(tokens[|tokens| - 1]).Some?
    ensures Parsed(tokens) == Parsed(tokens[..|tokens| - 1]) + [Text.ParseI32(tokens[|tokens| - 1]).value]
  {
  }

  /** Tokens that do not parse are dropped: a line of none gives no levels. */
  lemma {:induction false} ParsedNone(tokens: seq<string>)
    requires forall k :: 0 <= k < |tokens| ==> Text.ParseI32(tokens[k]).None?
    ensures Parsed(tokens) == []
  {
    if tokens != [] {
      var init := tokens[..|tokens| - 1];
      assert forall k :: 0 <= k < |init| ==> init[k] == tokens[k];
      ParsedNone(init);
    }
  }

  function Reports(lines: seq<string>): (rs: seq<seq<int>>)
    ensures |rs| == |lines|
  {
    seq(|lines|, k requires 0 <= k < |lines| => Numbers(lines[k]))
  }

  /** The verdicts the program counts: safe, rescued by the dampener (unsafe but
      dampenable), and accepted under the dampener (either). */
  datatype Verdict = Clean | Rescued | Accepted

  predicate Holds(levels: seq<int>, v: Verdict)
  {
    match v
    case Clean => Safe(levels)
    case Rescued => !Safe(levels) && Dampenable(levels)
    case Accepted => Tolerated(levels)
  }

  /** The number of reports with verdict `v`. */
  function Count(reports: seq<seq<int>>, v: Verdict): (n: nat)
    ensures n <= |reports|
  {
    if reports == [] then 0
    else Count(reports[..|reports| - 1], v) + if Holds(reports[|reports| - 1], v) then 1 else 0
  }

  /** Safe and dampened reports add up to the tolerated ones, each report counted once. */
  lemma {:induction false} CountsAdd(reports: seq<seq<int>>)
    ensures Count(reports, Clean) + Count(reports, Rescued) == Count(reports, Accepted)
    ensures Count(reports, Clean) <= Count(reports, Accepted)
  {
    if reports != [] {
      CountsAdd(reports[..|reports| - 1]);
    }
  }

  lemma {:induction false} CountNext(reports: seq<seq<int>>, v: Verdict, k: nat, next: nat)
    requires next == k + 1 <= |reports|
    ensures Count(reports[..next], v) == Count(reports[..k], v) + if Holds(reports[k], v) then 1 else 0
  {
    assert reports[..next][..k] == reports[..k];
  }

  /** The main loop over the input: the number of safe reports and the dampened total. */
  method Tally(contents: string) returns (safeLevels: nat, dampenedTotal: nat)
    ensures safeLevels == Count(Reports(Text.Lines(contents)), Clean)
    ensures dampenedTotal == Count(Reports(Text.Lines(contents)), Accepted)
  {
    var lines := Text.Lines(contents);
    ghost var reports := Reports(lines);
    var dampenerLevels := 0;
    safeLevels := 0;
    for k := 0 to |lines|
      invariant safeLevels == Count(reports[..k], Clean)
      invariant dampenerLevels == Count(reports[..k], Rescued)
    {
      var numbers := Numbers(lines[k]);
      assert numbers == reports[k];
      var next := k + 1;
      CountNext(reports, Clean, k, next);
      CountNext(reports, Rescued, k, next);
      var safe := IsSafe(numbers);
      if safe {
        safeLevels := safeLevels + 1;
      } else {
        var fixed := Dampen(numbers);
        if fixed {
          dampenerLevels := dampenerLevels + 1;
        }
      }
    }
    assert reports[..|lines|] == reports;
    CountsAdd(reports);
    dampenedTotal := safeLevels + dampenerLevels;
  }
}
