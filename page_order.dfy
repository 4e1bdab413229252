/** Print-queue page ordering. A rule "X|Y" says that page X must come before page Y when an
    update holds both. Correctly ordered updates contribute their middle page number; the
    others are repaired by swapping the pages of a violated rule, pass after pass over the
    rules, until enough passes in a row find nothing to swap. Pages are compared as text. */
module PageOrder {
  import opened Wrappers
  import Text

  datatype Rule = Rule(before: string, after: string)

  datatype Error =
    | MissingUpdates     // the input has no blank line separating rules from updates
    | BadRule(line: nat) // a rule line without '|'
    | BadPage            // a middle page that is not a u32
    | Unsettled          // repair did not settle within the pass budget

  /** `find`: the index of the first page equal to `needle`. */
  function Find(pages: seq<string>, needle: string): (r: Option<nat>)
    ensures r.Some? ==> r.value < |pages|
  {
    if pages == [] then None
    else if pages[0] == needle then Some(0)
    else
      match Find(pages[1..], needle)
      case None => None
      case Some(i) => Some(i + 1)
  }

  /** `find` answers the first occurrence, and nothing when there is none. */
  lemma {:induction false} FindMeans(pages: seq<string>, needle: string)
    ensures Find(pages, needle).None? <==> needle !in pages
    ensures Find(pages, needle).Some? ==> pages[Find(pages, needle).value] == needle
    ensures Find(pages, needle).Some? ==> forall j :: 0 <= j < Find(pages, needle).value ==> pages[j] != needle
    decreases |pages|
  {
    if pages != [] && pages[0] != needle {
      FindMeans(pages[1..], needle);
      assert pages == [pages[0]] + pages[1..];
    }
  }

  /** `x` occurs among the first `n` pages exactly when its first occurrence does. */
  lemma {:induction false} PrefixHas(pages: seq<string>, x: string, n: nat)
    requires n <= |pages|
    ensures x in pages[..n] <==> Find(pages, x).Some? && Find(pages, x).value < n
  {
    FindMeans(pages, x);
    if x in pages[..n] {
      var j :| 0 <= j < n && pages[..n][j] == x;
      assert pages[j] == x;
    }
    var f := Find(pages, x);
    if f.Some? && f.value < n {
      assert pages[..n][f.value] == x;
    }
  }

  /** A rule is broken when both its pages occur and the first `after` comes before the
      first `before`. */
  predicate Violates(pages: seq<string>, rule: Rule)
  {
    match Find(pages, rule.after)
    case None => false
    case Some(ai) =>
      match Find(pages, rule.before)
      case None => false
      case Some(bi) => ai < bi
  }

  /** The test the ordering check and the repair make: `after` occurs, `before` occurs, and
      `before` is missing from the pages up to and including the first `after`. */
  lemma {:induction false} ViolatesMeans(pages: seq<string>, rule: Rule)
    ensures Violates(pages, rule) <==>
      Find(pages, rule.after).Some? && Find(pages, rule.before).Some? &&
      rule.before !in pages[..Find(pages, rule.after).value + 1]
  {
    var a := Find(pages, rule.after);
    if a.Some? {
      PrefixHas(pages, rule.before, a.value + 1);
    }
  }

  /** An update is correct when it breaks none of the rules. */
  predicate Correct(pages: seq<string>, rules: seq<Rule>)
    decreases |rules|
  {
    rules == [] || (Correct(pages, rules[..|rules| - 1]) && !Violates(pages, rules[|rules| - 1]))
  }

  lemma {:induction false} CorrectMeans(pages: seq<string>, rules: seq<Rule>)
    ensures Correct(pages, rules) <==> forall i :: 0 <= i < |rules| ==> !Violates(pages, rules[i])
    decreases |rules|
  {
    if rules != [] {
      var init := rules[..|rules| - 1];
      CorrectMeans(pages, init);
      assert forall i :: 0 <= i < |init| ==> init[i] == rules[i];
    }
  }

  /** The ordering check of one update: the update is correct when it violates no rule. */
  method CheckUpdate(pages: seq<string>, rules: seq<Rule>) returns (correct: bool)
    ensures correct == Correct(pages, rules)
  {
    correct := true;
    for i := 0 to |rules|
      invariant correct == Correct(pages, rules[..i])
    {
      var before, after := rules[i].before, rules[i].after;
      var index := Find(pages, after);
      assert rules[..i + 1][..i] == rules[..i];
      if index.Some? {
        var found := Find(pages, before);
        PrefixHas(pages, before, index.value + 1);
        if found.Some? && before !in pages[..index.value + 1] {
          correct := false;
        }
      }
    }
    assert rules[..|rules|] == rules;
  }

  // ---------------------------------------------------------------------------------------
  // Repair

  function Swap(pages: seq<string>, i: nat, j: nat): (q: seq<string>)
    requires i < |pages| && j < |pages|
    ensures |q| == |pages| && multiset(q) == multiset(pages)
  {
    pages[i := pages[j]][j := pages[i]]
  }

  /** One rule's turn in a repair pass: a violated rule swaps the first `before` with the
      first `after`. */
  function Apply(pages: seq<string>, rule: Rule): (r: (seq<string>, bool))
    ensures |r.0| == |pages|
  {
    match Find(pages, rule.after)
    case None => (pages, false)
    case Some(ai) =>
      match Find(pages, rule.before)
      case None => (pages, false)
      case Some(bi) => if ai < bi then (Swap(pages, bi, ai), true) else (pages, false)
  }

  /** A turn swaps exactly when the rule is broken, and only rearranges the pages. */
  lemma {:induction false} ApplyMeans(pages: seq<string>, rule: Rule)
    ensures multiset(Apply(pages, rule).0) == multiset(pages)
    ensures Apply(pages, rule).1 == Violates(pages, rule)
    ensures !Apply(pages, rule).1 ==> Apply(pages, rule).0 == pages
  {
  }

  /** The swap mends the rule it was made for. */
  lemma {:induction false} SwapMends(pages: seq<string>, rule: Rule)
    requires Violates(pages, rule)
    ensures !Violates(Apply(pages, rule).0, rule)
  {
    var ai, bi := Find(pages, rule.after).value, Find(pages, rule.before).value;
    FindMeans(pages, rule.after);
    FindMeans(pages, rule.before);
    var q := Apply(pages, rule).0;
    assert q == pages[bi := pages[ai]][ai := pages[bi]];
    assert q[ai] == rule.before && q[bi] == rule.after;
    FindMeans(q, rule.after);
    FindMeans(q, rule.before);
    assert forall j :: 0 <= j <= ai ==> q[j] != rule.after by {
      forall j | 0 <= j <= ai
        ensures q[j] != rule.after
      {
        if j < ai {
          assert q[j] == pages[j];
        }
      }
    }
  }

  /** A pass from the `k`-th rule on; `swapped` says whether an earlier turn swapped. */
  function PassFrom(pages: seq<string>, rules: seq<Rule>, k: nat, swapped: bool): (r: (seq<string>, bool))
    requires k <= |rules|
    ensures |r.0| == |pages|
    decreases |rules| - k
  {
    if k == |rules| then (pages, swapped)
    else
      var (q, s) := Apply(pages, rules[k]);
      PassFrom(q, rules, k + 1, swapped || s)
  }

  /** A pass only rearranges the pages; it reports a swap exactly when an earlier turn
      swapped or one of its rules is broken, and without a swap it changes nothing. */
  lemma {:induction false} PassMeans(pages: seq<string>, rules: seq<Rule>, k: nat, swapped: bool)
    requires k <= |rules|
    ensures multiset(PassFrom(pages, rules, k, swapped).0) == multiset(pages)
    ensures !PassFrom(pages, rules, k, swapped).1 <==>
      !swapped && forall j :: k <= j < |rules| ==> !Violates(pages, rules[j])
    ensures !PassFrom(pages, rules, k, swapped).1 ==> PassFrom(pages, rules, k, swapped).0 == pages
    ensures PassFrom(pages, rules, k, swapped).1 && !swapped ==> |pages| > 0
    decreases |rules| - k
  {
    if k < |rules| {
      ApplyMeans(pages, rules[k]);
      var (q, s) := Apply(pages, rules[k]);
      PassMeans(q, rules, k + 1, swapped || s);
    }
  }

  /** One pass over all rules: the pages afterwards, and whether any turn swapped. */
  function Pass(pages: seq<string>, rules: seq<Rule>): (seq<string>, bool)
  {
    PassFrom(pages, rules, 0, false)
  }

  /** One pass of the repair loop over all rules. */
  method RepairPass(pages: seq<string>, rules: seq<Rule>) returns (p: seq<string>, swapped: bool)
    ensures (p, swapped) == Pass(pages, rules)
  {
    p, swapped := pages, false;
    for k := 0 to |rules|
      invariant PassFrom(p, rules, k, swapped) == Pass(pages, rules)
    {
      var before, after := rules[k].before, rules[k].after;
      var afterIndex := Find(p, after);
      if afterIndex.None? {
        continue;
      }
      var beforeIndex := Find(p, before);
      if beforeIndex.None? {
        continue;
      }
      PrefixHas(p, before, afterIndex.value + 1);
      if before !in p[..afterIndex.value + 1] {
        p := p[beforeIndex.value := p[afterIndex.value]][afterIndex.value := p[beforeIndex.value]];
        swapped := true;
      }
    }
  }

  /** The repair loop with `i` counting the passes since the last swap (any swap resets it),
      stopping when it reaches the number of pages; `fuel` bounds the number of passes. */
  function Repaired(pages: seq<string>, rules: seq<Rule>, i: nat, fuel: nat): (r: Option<seq<string>>)
    ensures r.Some? ==> |r.value| == |pages|
    decreases fuel
  {
    if fuel == 0 then None
    else
      var (q, swapped) := Pass(pages, rules);
      var i' := if swapped then 0 else i;
      if i' == |q| then Some(q) else Repaired(q, rules, i' + 1, fuel - 1)
  }

  /** A settled repair is correctly ordered and holds the same pages. */
  lemma {:induction false} RepairedSound(pages: seq<string>, rules: seq<Rule>, i: nat, fuel: nat)
    ensures Repaired(pages, rules, i, fuel).Some? ==>
      Correct(Repaired(pages, rules, i, fuel).value, rules) &&
      multiset(Repaired(pages, rules, i, fuel).value) == multiset(pages)
    decreases fuel
  {
    if fuel > 0 {
      PassMeans(pages, rules, 0, false);
      var (q, swapped) := Pass(pages, rules);
      var i' := if swapped then 0 else i;
      CorrectMeans(q, rules);
      if i' != |q| {
        RepairedSound(q, rules, i' + 1, fuel - 1);
      }
    }
  }

  /** The repair loop of one update. */
  method Repair(pages: seq<string>, rules: seq<Rule>, fuel: nat) returns (r: Option<seq<string>>)
    ensures r == Repaired(pages, rules, 0, fuel)
  {
    var p := pages;
    var i := 0;
    var left := fuel;
    while left > 0
      invariant Repaired(p, rules, i, left) == Repaired(pages, rules, 0, fuel)
      decreases left
    {
      var swapped;
      p, swapped := RepairPass(p, rules);
      if swapped {
        i := 0;
      }
      if i == |p| {
        return Some(p);
      }
      i := i + 1;
      left := left - 1;
    }
    return None;
  }

  /** A correct update is left as it is, once the loop has counted its passes. */
  lemma {:induction false} RepairKeepsCorrect(pages: seq<string>, rules: seq<Rule>, i: nat, fuel: nat)
    requires Correct(pages, rules) && i <= |pages| && fuel > |pages| - i
    ensures Repaired(pages, rules, i, fuel) == Some(pages)
    decreases |pages| - i
  {
    PassMeans(pages, rules, 0, false);
    CorrectMeans(pages, rules);
    var (q, swapped) := Pass(pages, rules);
    assert !swapped && q == pages;
    if i < |pages| {
      RepairKeepsCorrect(pages, rules, i + 1, fuel - 1);
    }
  }

  // ---------------------------------------------------------------------------------------
  // The input and the totals

  /** A rule line: the text before the first '|' and the text after it up to the next. */
  function RuleOf(line: string): Option<Rule>
  {
    var fields := Text.Split(line, '|');
    if |fields| < 2 then None else Some(Rule(fields[0], fields[1]))
  }

  /** Line `n` is the first line of the rules section that holds no rule. */
  predicate FirstBadRule(lines: seq<string>, n: nat)
  {
    n < |lines| && RuleOf(lines[n]).None? && forall k :: 0 <= k < n ==> RuleOf(lines[k]).Some?
  }

  /** The rules of a rules section whose every line holds one. */
  function RulesOf(lines: seq<string>): (rules: seq<Rule>)
    requires forall k :: 0 <= k < |lines| ==> RuleOf(lines[k]).Some?
    ensures |rules| == |lines| && forall k :: 0 <= k < |lines| ==> RuleOf(lines[k]) == Some(rules[k])
  {
    seq(|lines|, k requires 0 <= k < |lines| => RuleOf(lines[k]).value)
  }

  /** The rules section, one rule per line. */
  method ParseRules(lines: seq<string>) returns (r: Result<seq<Rule>, Error>)
    ensures r.Ok? <==> forall k :: 0 <= k < |lines| ==> RuleOf(lines[k]).Some?
    ensures r.Ok? ==> |r.value| == |lines| && forall k :: 0 <= k < |lines| ==> RuleOf(lines[k]) == Some(r.value[k])
    ensures r.Err? ==> r.error.BadRule? && FirstBadRule(lines, r.error.line)
  {
    var rules := [];
    for k := 0 to |lines|
      invariant |rules| == k
      invariant forall j :: 0 <= j < k ==> RuleOf(lines[j]) == Some(rules[j])
    {
      var fields := Text.Split(lines[k], '|');
      if |fields| < 2 {
        return Err(BadRule(k));
      }
      rules := rules + [Rule(fields[0], fields[1])];
    }
    return Ok(rules);
  }

  /** An update line: its pages, separated by commas. */
  function Pages(update: string): seq<string>
  {
    Text.Split(update, ',')
  }

  /** The number of the middle page. */
  function Middle(pages: seq<string>): Option<nat>
    requires |pages| > 0
  {
    Text.ParseU32(pages[|pages| / 2])
  }

  /** The updates whose verdict is `correct`, in input order. */
  function Filter(updates: seq<string>, rules: seq<Rule>, correct: bool): seq<string>
  {
    if updates == [] then []
    else
      var u := Last(updates);
      if Correct(Pages(u), rules) == correct then Filter(updates[..|updates| - 1], rules, correct) + [u]
      else Filter(updates[..|updates| - 1], rules, correct)
  }

  /** Every update is either correct or incorrect. */
  lemma {:induction false} FilterPartition(updates: seq<string>, rules: seq<Rule>)
    ensures multiset(Filter(updates, rules, true)) + multiset(Filter(updates, rules, false)) == multiset(updates)
  {
    if updates != [] {
      var init := updates[..|updates| - 1];
      FilterPartition(init, rules);
      assert updates == init + [updates[|updates| - 1]];
    }
  }

  /** The updates kept are updates of the input with the verdict asked for. */
  lemma {:induction false} FilterMember(updates: seq<string>, rules: seq<Rule>, correct: bool, u: string)
    requires u in Filter(updates, rules, correct)
    ensures u in updates && Correct(Pages(u), rules) == correct
  {
    var init := updates[..|updates| - 1];
    if u != Last(updates) || Correct(Pages(u), rules) != correct {
      assert u in Filter(init, rules, correct);
      FilterMember(init, rules, correct, u);
      assert u in updates by {
        var j :| 0 <= j < |init| && init[j] == u;
        assert updates[j] == u;
      }
    }
  }

  function Last<T>(s: seq<T>): T
    requires |s| > 0
  {
    s[|s| - 1]
  }

  /** The sum of the middle pages, or None when one does not parse. */
  function MiddleSum(updates: seq<string>): Option<nat>
  {
    if updates == [] then Some(0)
    else
      match (MiddleSum(updates[..|updates| - 1]), Middle(Pages(Last(updates))))
      case (Some(s), Some(m)) => Some(s + m)
      case _ => None
  }

  /** The middle page of one repaired update. */
  function RepairedMiddle(update: string, rules: seq<Rule>, fuel: nat): (r: Result<nat, Error>)
    ensures r.Err? ==> r.error == BadPage || r.error == Unsettled
  {
    var pages := Pages(update);
    match Repaired(pages, rules, 0, fuel)
    case None => Err(Unsettled)
    case Some(q) =>
      match Middle(q)
      case None => Err(BadPage)
      case Some(m) => Ok(m)
  }

  /** The sum of the middle pages of the repaired updates, or the first error. */
  function RepairedSum(updates: seq<string>, rules: seq<Rule>, fuel: nat): (r: Result<nat, Error>)
    ensures r.Err? ==> r.error == BadPage || r.error == Unsettled
  {
    if updates == [] then Ok(0)
    else
      match RepairedSum(updates[..|updates| - 1], rules, fuel)
      case Err(e) => Err(e)
      case Ok(s) =>
        match RepairedMiddle(Last(updates), rules, fuel)
        case Err(e) => Err(e)
        case Ok(m) => Ok(s + m)
  }

  /** What the ordering loop answers: the sum of the middle pages of the correct updates and
      the incorrect updates in input order, or an error at the first correct update whose
      middle page does not parse. */
  function Sorted(updates: seq<string>, rules: seq<Rule>): (r: Result<(nat, seq<string>), Error>)
    ensures r.Err? ==> r.error == BadPage
  {
    if updates == [] then Ok((0, []))
    else
      match Sorted(updates[..|updates| - 1], rules)
      case Err(e) => Err(e)
      case Ok((total, incorrect)) =>
        var u := Last(updates);
        if !Correct(Pages(u), rules) then Ok((total, incorrect + [u]))
        else if Middle(Pages(u)).None? then Err(BadPage)
        else Ok((total + Middle(Pages(u)).value, incorrect))
  }

  lemma {:induction false} MiddleSumNext(xs: seq<string>, u: string)
    ensures MiddleSum(xs + [u]) ==
      if MiddleSum(xs).Some? && Middle(Pages(u)).Some? then Some(MiddleSum(xs).value + Middle(Pages(u)).value) else None
  {
    assert (xs + [u])[..|xs|] == xs;
  }

  /** The loop's answer is the sum over the correct updates and the list of the others. */
  lemma {:induction false} SortedMeans(updates: seq<string>, rules: seq<Rule>)
    ensures Sorted(updates, rules).Ok? <==> MiddleSum(Filter(updates, rules, true)).Some?
    ensures Sorted(updates, rules).Ok? ==>
      Sorted(updates, rules).value == (MiddleSum(Filter(updates, rules, true)).value, Filter(updates, rules, false))
  {
    if updates != [] {
      var init, u := updates[..|updates| - 1], Last(updates);
      SortedMeans(init, rules);
      if Correct(Pages(u), rules) {
        assert Filter(updates, rules, true) == Filter(init, rules, true) + [u];
        assert Filter(updates, rules, false) == Filter(init, rules, false);
        MiddleSumNext(Filter(init, rules, true), u);
      } else {
        assert Filter(updates, rules, true) == Filter(init, rules, true);
        assert Filter(updates, rules, false) == Filter(init, rules, false) + [u];
      }
    }
  }

  lemma {:induction false} SortedNext(updates: seq<string>, rules: seq<Rule>, k: nat, next: nat)
    requires next == k + 1 <= |updates|
    ensures Sorted(updates[..k], rules).Err? ==> Sorted(updates[..next], rules) == Sorted(updates[..k], rules)
    ensures Sorted(updates[..k], rules).Ok? && !Correct(Pages(updates[k]), rules) ==>
      Sorted(updates[..next], rules) ==
        Ok((Sorted(updates[..k], rules).value.0, Sorted(updates[..k], rules).value.1 + [updates[k]]))
    ensures Sorted(updates[..k], rules).Ok? && Correct(Pages(updates[k]), rules) && Middle(Pages(updates[k])).None? ==>
      Sorted(updates[..next], rules) == Err(BadPage)
    ensures Sorted(updates[..k], rules).Ok? && Correct(Pages(updates[k]), rules) && Middle(Pages(updates[k])).Some? ==>
      Sorted(updates[..next], rules) ==
        Ok((Sorted(updates[..k], rules).value.0 + Middle(Pages(updates[k])).value, Sorted(updates[..k], rules).value.1))
  {
    assert updates[..next][..k] == updates[..k];
  }

  /** An error in a prefix is the answer for the whole. */
  lemma {:induction false} SortedSpoiled(updates: seq<string>, rules: seq<Rule>, k: nat)
    requires k <= |updates| && Sorted(updates[..k], rules).Err?
    ensures Sorted(updates, rules) == Sorted(updates[..k], rules)
    decreases |updates| - k
  {
    if k < |updates| {
      var next := k + 1;
      SortedNext(updates, rules, k, next);
      SortedSpoiled(updates, rules, next);
    } else {
      assert updates[..k] == updates;
    }
  }

  lemma {:induction false} RepairedSumNext(updates: seq<string>, rules: seq<Rule>, fuel: nat, k: nat, next: nat)
    requires next == k + 1 <= |updates|
    ensures RepairedSum(updates[..k], rules, fuel).Err? ==>
      RepairedSum(updates[..next], rules, fuel) == RepairedSum(updates[..k], rules, fuel)
    ensures RepairedSum(updates[..k], rules, fuel).Ok? && RepairedMiddle(updates[k], rules, fuel).Err? ==>
      RepairedSum(updates[..next], rules, fuel) == RepairedMiddle(updates[k], rules, fuel)
    ensures RepairedSum(updates[..k], rules, fuel).Ok? && RepairedMiddle(updates[k], rules, fuel).Ok? ==>
      RepairedSum(updates[..next], rules, fuel) ==
        Ok(RepairedSum(updates[..k], rules, fuel).value + RepairedMiddle(updates[k], rules, fuel).value)
  {
    assert updates[..next][..k] == updates[..k];
  }

  /** The ordering check over all updates. */
  method Sort(updates: seq<string>, rules: seq<Rule>) returns (r: Result<(nat, seq<string>), Error>)
    ensures r == Sorted(updates, rules)
  {
    var midTotal := 0;
    var incorrect := [];
    for k := 0 to |updates|
      invariant Sorted(updates[..k], rules) == Ok((midTotal, incorrect))
    {
      var update := updates[k];
      var pages := Pages(update);
      var correct := CheckUpdate(pages, rules);
      var next := k + 1;
      SortedNext(updates, rules, k, next);
      if correct {
        var mid := Middle(pages);
        if mid.None? {
          SortedSpoiled(updates, rules, next);
          return Err(BadPage);
        }
        midTotal := midTotal + mid.value;
      } else {
        incorrect := incorrect + [update];
      }
    }
    assert updates[..|updates|] == updates;
    return Ok((midTotal, incorrect));
  }

  /** One more update repaired: its middle is added, or its error ends the sum. */
  lemma {:induction false} RepairedSumStep(updates: seq<string>, rules: seq<Rule>, fuel: nat, k: nat, next: nat,
                                           total: nat, m: Result<nat, Error>)
    requires next == k + 1 <= |updates|
    requires RepairedSum(updates[..k], rules, fuel) == Ok(total) && m == RepairedMiddle(updates[k], rules, fuel)
    ensures m.Ok? ==> RepairedSum(updates[..next], rules, fuel) == Ok(total + m.value)
    ensures m.Err? ==> RepairedSum(updates[..next], rules, fuel) == m
  {
    RepairedSumNext(updates, rules, fuel, k, next);
  }

  /** The repair of one update and its middle page. */
  method RepairOne(update: string, rules: seq<Rule>, fuel: nat) returns (r: Result<nat, Error>)
    ensures r == RepairedMiddle(update, rules, fuel)
  {
    var pages := Pages(update);
    var repaired := Repair(pages, rules, fuel);
    if repaired.None? {
      return Err(Unsettled);
    }
    var q := repaired.value;
    var mid := Middle(q);
    if mid.None? {
      return Err(BadPage);
    }
    return Ok(mid.value);
  }

  /** The repair of every incorrect update, summing the repaired middle pages. */
  method RepairAll(incorrect: seq<string>, rules: seq<Rule>, fuel: nat) returns (r: Result<nat, Error>)
    ensures r == RepairedSum(incorrect, rules, fuel)
  {
    var total := 0;
    var k := 0;
    while k < |incorrect|
      invariant k <= |incorrect|
      invariant RepairedSum(incorrect[..k], rules, fuel) == Ok(total)
    {
      var next := k + 1;
      var mid := RepairOne(incorrect[k], rules, fuel);
      RepairedSumStep(incorrect, rules, fuel, k, next, total, mid);
      if mid.Err? {
        SumSpoiled(incorrect, rules, fuel, next, mid);
        return mid;
      }
      total := total + mid.value;
      k := next;
    }
    assert incorrect[..|incorrect|] == incorrect;
    return Ok(total);
  }

  /** The first error of a prefix is the error of the whole. */
  lemma {:induction false} SumSpoiled(updates: seq<string>, rules: seq<Rule>, fuel: nat, k: nat, e: Result<nat, Error>)
    requires k <= |updates| && e.Err? && RepairedSum(updates[..k], rules, fuel) == e
    ensures RepairedSum(updates, rules, fuel) == e
    decreases |updates| - k
  {
    if k < |updates| {
      var next := k + 1;
      RepairedSumNext(updates, rules, fuel, k, next);
      SumSpoiled(updates, rules, fuel, next, e);
    } else {
      assert updates[..k] == updates;
    }
  }

  /** Both answers for the updates under the rules: the middle pages of the correct updates
      summed, then those of the repaired incorrect ones; or the first error, part 1 first. */
  function Answers(updates: seq<string>, rules: seq<Rule>, fuel: nat): Result<(nat, nat), Error>
  {
    match MiddleSum(Filter(updates, rules, true))
    case None => Err(BadPage)
    case Some(part1) =>
      match RepairedSum(Filter(updates, rules, false), rules, fuel)
      case Err(e) => Err(e)
      case Ok(part2) => Ok((part1, part2))
  }

  /** The only error the ordering check can end with is a bad middle page. */
  lemma {:induction false} SortedFails(updates: seq<string>, rules: seq<Rule>)
    requires Sorted(updates, rules).Err?
    ensures Sorted(updates, rules).error == BadPage
  {
    var init := updates[..|updates| - 1];
    if Sorted(init, rules).Err? {
      SortedFails(init, rules);
    }
  }

  /** The whole program over the input text: rules, a blank line, updates. */
  method Totals(contents: string, fuel: nat) returns (r: Result<(nat, nat), Error>)
    ensures r == Err(MissingUpdates) <==> |Text.SplitOn(contents, "\n\n")| < 2
    ensures
      var sections := Text.SplitOn(contents, "\n\n");
      |sections| >= 2 && !(forall k :: 0 <= k < |Text.Lines(sections[0])| ==> RuleOf(Text.Lines(sections[0])[k]).Some?) ==>
        r.Err? && r.error.BadRule? && FirstBadRule(Text.Lines(sections[0]), r.error.line)
    ensures
      var sections := Text.SplitOn(contents, "\n\n");
      |sections| >= 2 && (forall k :: 0 <= k < |Text.Lines(sections[0])| ==> RuleOf(Text.Lines(sections[0])[k]).Some?) ==>
        r == Answers(Text.Lines(sections[1]), RulesOf(Text.Lines(sections[0])), fuel)
  {
    var sections := Text.SplitOn(contents, "\n\n");
    if |sections| < 2 {
      return Err(MissingUpdates);
    }
    var parsed := ParseRules(Text.Lines(sections[0]));
    if parsed.Err? {
      return Err(parsed.error);
    }
    var rules := parsed.value;
    assert rules == RulesOf(Text.Lines(sections[0]));
    var updates := Text.Lines(sections[1]);
    var sorted := Sort(updates, rules);
    SortedMeans(updates, rules);
    if sorted.Err? {
      SortedFails(updates, rules);
      return Err(sorted.error);
    }
    var (midTotal, incorrect) := sorted.value;
    var corrected := RepairAll(incorrect, rules, fuel);
    if corrected.Err? {
      return Err(corrected.error);
    }
    return Ok((midTotal, corrected.value));
  }
}
