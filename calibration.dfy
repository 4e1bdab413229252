/** The calibration equations of day 7: each line holds an answer and a list of numbers, and an
    equation is accepted when some assignment of operators, applied strictly left to right,
    turns the numbers into the answer. `oper_table` enumerates the assignments by reading the
    row index in base 4; `valid` runs every row with checked u64 arithmetic. */
module Calibration {
  import opened Wrappers
  import Text

  datatype Operator = Plus | Multiply | Concat | Stub

  datatype Equation = Equation(answer: nat, numbers: seq<nat>)

  // ---------------------------------------------------------------------------------------
  // Parsing (`Equations::new`)

  /** The tokens that parse as u64, in order; the others are dropped. */
  function ParseNumbers(tokens: seq<string>): (ns: seq<nat>)
    ensures |ns| <= |tokens|
    ensures forall n :: n in ns ==> n <= Text.U64_MAX
  {
    if tokens == [] then []
    else
      (match Text.ParseU64(tokens[0]) case Some(n) => [n] case None => [])
      + ParseNumbers(tokens[1..])
  }

  /** One line: exactly two ':'-separated fields, the first a u64 (else `unwrap` panics), the
      second split at every ' '. */
  function ParseEquation(line: string): (r: Result<Equation, string>)
    ensures r.Ok? <==> |Text.Split(line, ':')| == 2 && Text.ParseU64(Text.Split(line, ':')[0]).Some?
    ensures r.Ok? ==> r.value.answer <= Text.U64_MAX && InRange(r.value)
  {
    var fields := Text.Split(line, ':');
    if |fields| != 2 then Err("Malformed input line")
    else match Text.ParseU64(fields[0])
      case None => Err("answer is not a number")
      case Some(answer) => Ok(Equation(answer, ParseNumbers(Text.Split(fields[1], ' '))))
  }

  /** Every number of `e` fits in a u64, as the parser guarantees. */
  predicate InRange(e: Equation)
  {
    forall n :: n in e.numbers ==> n <= Text.U64_MAX
  }

  /** `Equations::new`: one equation per line, or the error of the first malformed line. */
  method NewEquations(state: string) returns (r: Result<seq<Equation>, string>)
    ensures r.Ok? <==> forall l :: l in Text.Lines(state) ==> ParseEquation(l).Ok?
    ensures r.Ok? ==> |r.value| == |Text.Lines(state)|
    ensures r.Ok? ==> forall k :: 0 <= k < |r.value| ==> ParseEquation(Text.Lines(state)[k]) == Ok(r.value[k])
  {
    var lines := Text.Lines(state);
    var list: seq<Equation> := [];
    var k := 0;
    while k < |lines|
      invariant 0 <= k <= |lines| && |list| == k
      invariant forall q :: 0 <= q < k ==> ParseEquation(lines[q]) == Ok(list[q])
    {
      var parsed := ParseEquation(lines[k]);
      if parsed.Err? {
        assert lines[k] in lines;
        return Err(parsed.error);
      }
      list := list + [parsed.value];
      k := k + 1;
    }
    r := Ok(list);
    assert forall l :: l in lines ==> exists q :: 0 <= q < |lines| && lines[q] == l;
  }

  /** The line an equation is written as: "answer: n1 n2 …". */
  function Render(e: Equation): string
  {
    Text.Show(e.answer) + ":" + Text.Join([""] + Shows(e.numbers), ' ')
  }

  function Shows(ns: seq<nat>): (ss: seq<string>)
    ensures |ss| == |ns| && forall k :: 0 <= k < |ns| ==> ss[k] == Text.Show(ns[k])
  {
    if ns == [] then [] else [Text.Show(ns[0])] + Shows(ns[1..])
  }

  lemma {:induction false} ParseShows(ns: seq<nat>)
    requires forall n :: n in ns ==> n <= Text.U64_MAX
    ensures ParseNumbers(Shows(ns)) == ns
  {
    if ns != [] {
      assert ns[0] in ns;
      Text.ParseShow(ns[0], Text.U64_MAX);
      assert Shows(ns)[1..] == Shows(ns[1..]);
      assert forall n :: n in ns[1..] ==> n in ns;
      ParseShows(ns[1..]);
    }
  }

  lemma ShowHasNo(n: nat, c: char)
    requires !Text.IsDigit(c)
    ensures c !in Text.Show(n)
  {
    var s := Text.Show(n);
    assert forall k :: 0 <= k < |s| ==> Text.IsDigit(s[k]);
  }

  /** Parsing the rendered line of an equation whose values fit in a u64 gives it back. */
  lemma {:induction false} ParseRender(e: Equation)
    requires e.answer <= Text.U64_MAX && InRange(e)
    ensures ParseEquation(Render(e)) == Ok(e)
  {
    var parts := [""] + Shows(e.numbers);
    var tail := Text.Join(parts, ' ');
    var head := Text.Show(e.answer);
    var fields := Text.Split(Render(e), ':');
    assert fields == [head, tail] by {
      NoSeparators(e.numbers, parts);
      JoinHasNo(parts, ' ', ':');
      ShowHasNo(e.answer, ':');
      assert Text.Join([head, tail], ':') == Render(e);
      Text.SplitJoin([head, tail], ':');
    }
    assert Text.Split(tail, ' ') == parts by {
      NoSeparators(e.numbers, parts);
      Text.SplitJoin(parts, ' ');
    }
    assert Text.ParseU64(head) == Some(e.answer) by {
      Text.ParseShow(e.answer, Text.U64_MAX);
    }
    assert ParseNumbers(parts) == e.numbers by {
      assert parts[1..] == Shows(e.numbers);
      assert Text.ParseU64(parts[0]).None?;
      ParseShows(e.numbers);
    }
  }

  /** The pieces of a rendered line hold no separator. */
  lemma NoSeparators(ns: seq<nat>, parts: seq<string>)
    requires parts == [""] + Shows(ns)
    ensures forall p :: p in parts ==> ' ' !in p && ':' !in p && '\n' !in p && '\r' !in p
  {
    forall p | p in parts ensures ' ' !in p && ':' !in p && '\n' !in p && '\r' !in p {
      if p != "" {
        var k :| 0 <= k < |parts| && parts[k] == p;
        var s := Text.Show(ns[k - 1]);
        assert p == s;
        assert forall q :: 0 <= q < |s| ==> Text.IsDigit(s[q]);
      }
    }
  }

  lemma {:induction false} JoinHasNo(parts: seq<string>, c: char, d: char)
    requires |parts| >= 1 && c != d
    requires forall p :: p in parts ==> d !in p
    ensures d !in Text.Join(parts, c)
  {
    if |parts| > 1 {
      assert parts[0] in parts;
      assert forall p :: p in parts[1..] ==> p in parts;
      JoinHasNo(parts[1..], c, d);
    } else {
      assert parts[0] in parts;
    }
  }

  /** Equations written one per line are read back as they were. */
  lemma {:induction false} RenderedFile(eqs: seq<Equation>)
    requires forall e :: e in eqs ==> e.answer <= Text.U64_MAX && InRange(e)
    ensures Text.Lines(Text.Unlines(RenderAll(eqs))) == RenderAll(eqs)
    ensures forall k :: 0 <= k < |eqs| ==> ParseEquation(RenderAll(eqs)[k]) == Ok(eqs[k])
  {
    var ls := RenderAll(eqs);
    forall k | 0 <= k < |ls| ensures Text.PlainLine(ls[k]) {
      RenderPlain(eqs[k]);
    }
    Text.LinesUnlines(ls);
    forall k | 0 <= k < |eqs| ensures ParseEquation(ls[k]) == Ok(eqs[k]) {
      assert eqs[k] in eqs;
      ParseRender(eqs[k]);
    }
  }

  /** A rendered line holds no line break and does not end in '\r'. */
  lemma RenderPlain(e: Equation)
    ensures Text.PlainLine(Render(e))
  {
    var parts := [""] + Shows(e.numbers);
    var tail := Text.Join(parts, ' ');
    NoSeparators(e.numbers, parts);
    JoinHasNo(parts, ' ', '\n');
    JoinHasNo(parts, ' ', '\r');
    ShowHasNo(e.answer, '\n');
    var l := Render(e);
    assert l == Text.Show(e.answer) + (":" + tail);
    if tail == [] {
      assert l[|l| - 1] == ':';
    } else {
      assert l[|l| - 1] == tail[|tail| - 1];
    }
  }

  function RenderAll(eqs: seq<Equation>): (ls: seq<string>)
    ensures |ls| == |eqs| && forall k :: 0 <= k < |eqs| ==> ls[k] == Render(eqs[k])
  {
    if eqs == [] then [] else [Render(eqs[0])] + RenderAll(eqs[1..])
  }

  // ---------------------------------------------------------------------------------------
  // The operator table (`oper_table`)

  function Pow4(k: nat): (p: nat)
    ensures p >= 1
  {
    if k == 0 then 1 else 4 * Pow4(k - 1)
  }

  /** The operator a 2-bit code stands for. */
  function OpOf(d: nat): Operator
    requires d < 4
  {
    match d
    case 0 => Plus
    case 1 => Multiply
    case 2 => Concat
    case _ => Stub
  }

  function Code(op: Operator): (d: nat)
    ensures d < 4 && OpOf(d) == op
  {
    match op
    case Plus => 0
    case Multiply => 1
    case Concat => 2
    case Stub => 3
  }

  /** The `n` operators row `i` stands for: its base-4 digits, lowest first. */
  function Decode(i: nat, n: nat): (row: seq<Operator>)
    ensures |row| == n
  {
    if n == 0 then [] else [OpOf(i % 4)] + Decode(i / 4, n - 1)
  }

  /** The row index of an assignment: its codes read as base-4 digits, lowest first. */
  function Encode(row: seq<Operator>): nat
  {
    if row == [] then 0 else Code(row[0]) + 4 * Encode(row[1..])
  }

  lemma {:induction false} EncodeDecode(row: seq<Operator>)
    ensures Encode(row) < Pow4(|row|)
    ensures Decode(Encode(row), |row|) == row
  {
    if row != [] {
      EncodeDecode(row[1..]);
      var c, e := Code(row[0]), Encode(row[1..]);
      assert (c + 4 * e) % 4 == c && (c + 4 * e) / 4 == e;
    }
  }

  lemma {:induction false} DecodeEncode(i: nat, n: nat)
    requires i < Pow4(n)
    ensures Encode(Decode(i, n)) == i
  {
    if n > 0 {
      DecodeEncode(i / 4, n - 1);
      var row := Decode(i, n);
      assert row[1..] == Decode(i / 4, n - 1);
      assert Code(row[0]) == i % 4;
    }
  }

  /** `i >> bits` for a non-negative `i`: `bits` halvings. */
  function Shr(i: nat, bits: nat): nat
  {
    if bits == 0 then i else Shr(i / 2, bits - 1)
  }

  /** Digit `j` of row `i` is `(i >> 2j) & 3`; `& 3` keeps the remainder modulo 4. */
  lemma {:induction false} DecodeAt(i: nat, n: nat, j: nat)
    requires j < n
    ensures Decode(i, n)[j] == OpOf(Shr(i, 2 * j) % 4)
  {
    if j > 0 {
      DecodeAt(i / 4, n - 1, j - 1);
      assert (i / 2) / 2 == i / 4;
      assert Shr(i, 2 * j) == Shr((i / 2) / 2, 2 * (j - 1));
    }
  }

  predicate AllIn(row: seq<Operator>, ops: seq<Operator>)
  {
    forall op :: op in row ==> op in ops
  }

  /** The rows decoded from the indices below `k` that use only `ops`, in index order. */
  function Rows(n: nat, ops: seq<Operator>, k: nat): seq<seq<Operator>>
  {
    if k == 0 then []
    else
      var row := Decode(k - 1, n);
      Rows(n, ops, k - 1) + if AllIn(row, ops) then [row] else []
  }

  /** The rows below `k` are those of indices below `k`. */
  lemma {:induction false} RowsBelow(n: nat, ops: seq<Operator>, k: nat, row: seq<Operator>)
    requires k <= Pow4(n) && row in Rows(n, ops, k)
    ensures Encode(row) < k
  {
    var rest := Rows(n, ops, k - 1);
    if row in rest {
      RowsBelow(n, ops, k - 1, row);
    } else {
      DecodeEncode(k - 1, n);
    }
  }

  /** `oper_table(n, ops)` as a value: every index in 0..4^n decoded, kept when all its
      operators are in `ops`. */
  function Table(n: nat, ops: seq<Operator>): seq<seq<Operator>>
  {
    Rows(n, ops, Pow4(n))
  }

  lemma {:induction false} RowsContain(n: nat, ops: seq<Operator>, k: nat, i: nat)
    requires i < k && AllIn(Decode(i, n), ops)
    ensures Decode(i, n) in Rows(n, ops, k)
  {
    var rest := Rows(n, ops, k - 1);
    if i < k - 1 {
      RowsContain(n, ops, k - 1, i);
      assert Rows(n, ops, k) == rest + if AllIn(Decode(k - 1, n), ops) then [Decode(k - 1, n)] else [];
    } else {
      assert Rows(n, ops, k) == rest + [Decode(i, n)];
    }
  }

  /** Every row kept has `n` operators, all drawn from `ops`. */
  lemma {:induction false} RowsSound(n: nat, ops: seq<Operator>, k: nat, row: seq<Operator>)
    requires row in Rows(n, ops, k)
    ensures |row| == n && AllIn(row, ops)
  {
    var last := Decode(k - 1, n);
    var rest := Rows(n, ops, k - 1);
    if row in rest {
      RowsSound(n, ops, k - 1, row);
    } else {
      assert AllIn(last, ops) && row == last;
    }
  }

  /** The table holds exactly the assignments of `n` operators drawn from `ops`. */
  lemma TableExact(n: nat, ops: seq<Operator>, row: seq<Operator>)
    ensures row in Table(n, ops) <==> |row| == n && AllIn(row, ops)
  {
    if row in Table(n, ops) {
      RowsSound(n, ops, Pow4(n), row);
    }
    if |row| == n && AllIn(row, ops) {
      EncodeDecode(row);
      RowsContain(n, ops, Pow4(n), Encode(row));
    }
  }

  /** No assignment appears twice in the table. */
  lemma {:induction false} RowsDistinct(n: nat, ops: seq<Operator>, k: nat)
    requires k <= Pow4(n)
    ensures forall a, b :: 0 <= a < b < |Rows(n, ops, k)| ==> Rows(n, ops, k)[a] != Rows(n, ops, k)[b]
  {
    if k > 0 {
      RowsDistinct(n, ops, k - 1);
      var rest := Rows(n, ops, k - 1);
      var last := Decode(k - 1, n);
      if AllIn(last, ops) {
        DecodeEncode(k - 1, n);
        forall a | 0 <= a < |rest| ensures rest[a] != last {
          RowsBelow(n, ops, k - 1, rest[a]);
        }
        assert Rows(n, ops, k) == rest + [last];
      } else {
        assert Rows(n, ops, k) == rest;
      }
    }
  }

  /** `oper_table`: for each `i` below 4^n, push the operators for the 2-bit fields of `i` from
      the lowest up, then keep the row when every operator is in `operators`. `4usize.pow(n)`
      overflows from `n == 32` on. */
  method OperTable(n: nat, operators: seq<Operator>) returns (table: seq<seq<Operator>>)
    requires n < 32
    ensures table == Table(n, operators)
  {
    table := [];
    var size := Pow4(n);
    var i := 0;
    while i < size
      invariant 0 <= i <= size
      invariant table == Rows(n, operators, i)
    {
      var row := DecodeRow(i, n);
      var valid := AllListed(row, operators);
      if valid {
        table := table + [row];
      }
      var next := i + 1;
      RowsNext(n, operators, i, next);
      i := next;
    }
  }

  lemma {:induction false} RowsNext(n: nat, ops: seq<Operator>, i: nat, next: nat)
    requires next == i + 1
    ensures Rows(n, ops, next) == Rows(n, ops, i) + if AllIn(Decode(i, n), ops) then [Decode(i, n)] else []
  {
    assert next - 1 == i;
  }

  /** The row loop of `oper_table`: field `j` of `i` is `(i >> 2j) & 3`. */
  method DecodeRow(i: nat, n: nat) returns (row: seq<Operator>)
    ensures row == Decode(i, n)
  {
    row := [];
    var j := 0;
    while j < n
      invariant 0 <= j <= n
      invariant row == Decode(i, n)[..j]
    {
      var val := Shr(i, j * 2) % 4;
      DecodeAt(i, n, j);
      row := row + [OpOf(val)];
      j := j + 1;
    }
  }

  /** The `operators.contains` loop of `oper_table`: a flag cleared by any operator not listed. */
  method AllListed(row: seq<Operator>, operators: seq<Operator>) returns (valid: bool)
    ensures valid == AllIn(row, operators)
  {
    valid := true;
    var k := 0;
    while k < |row|
      invariant 0 <= k <= |row|
      invariant valid <==> forall q :: 0 <= q < k ==> row[q] in operators
    {
      if row[k] !in operators {
        valid := false;
      }
      k := k + 1;
    }
  }

  // ---------------------------------------------------------------------------------------
  // Evaluation (`valid`)

  /** The decimal concatenation of `l` and `r` as a number. */
  function ConcatValue(l: nat, r: nat): nat
  {
    l * Text.Pow10(|Text.Show(r)|) + r
  }

  /** One operator as the solver applies it: checked `+` and `×`, and for Concat the parse of
      `format!("{lhs}{rhs}")` as u64; None where the solver breaks out of the row. Stub keeps
      the total and consumes the number. */
  function Apply(op: Operator, lhs: nat, rhs: nat): Option<nat>
  {
    match op
    case Plus => if lhs + rhs <= Text.U64_MAX then Some(lhs + rhs) else None
    case Multiply => if lhs * rhs <= Text.U64_MAX then Some(lhs * rhs) else None
    case Concat => Text.ParseU64(Text.Show(lhs) + Text.Show(rhs))
    case Stub => Some(lhs)
  }

  /** The exact value of one operator, with no bound. */
  function Combine(op: Operator, lhs: nat, rhs: nat): nat
  {
    match op
    case Plus => lhs + rhs
    case Multiply => lhs * rhs
    case Concat => ConcatValue(lhs, rhs)
    case Stub => lhs
  }

  /** Applying an operator either gives its exact value, when that fits in a u64, or stops. */
  lemma ApplyCombine(op: Operator, lhs: nat, rhs: nat)
    requires lhs <= Text.U64_MAX
    ensures Apply(op, lhs, rhs) == if Combine(op, lhs, rhs) <= Text.U64_MAX then Some(Combine(op, lhs, rhs)) else None
  {
    if op == Concat {
      ConcatParses(lhs, rhs);
    }
  }

  /** `format!("{lhs}{rhs}").parse::<u64>()` succeeds exactly when the concatenated number
      fits, and then gives that number. */
  lemma {:induction false} ConcatParses(lhs: nat, rhs: nat)
    ensures Text.ParseU64(Text.Show(lhs) + Text.Show(rhs))
         == if ConcatValue(lhs, rhs) <= Text.U64_MAX then Some(ConcatValue(lhs, rhs)) else None
  {
    var a, b := Text.Show(lhs), Text.Show(rhs);
    var s := a + b;
    Text.DigitsValueAppend(a, b);
    Text.ShowValue(lhs);
    Text.ShowValue(rhs);
    assert s[0] == a[0] && Text.IsDigit(a[0]);
    assert Text.DigitsValue(s) == ConcatValue(lhs, rhs);
  }

  /** The total the solver compares with the answer: left to right from `total`, one number of
      `rest` per operator; when an operator stops, the total reached so far. */
  function Fold(total: nat, rest: seq<nat>, row: seq<Operator>): nat
    requires |rest| == |row|
    decreases |row|
  {
    if row == [] then total
    else match Apply(row[0], total, rest[0])
      case None => total
      case Some(t) => Fold(t, rest[1..], row[1..])
  }

  /** The exact left-to-right value, no precedence and no bound. */
  function Exact(total: nat, rest: seq<nat>, row: seq<Operator>): nat
    requires |rest| == |row|
    decreases |row|
  {
    if row == [] then total else Exact(Combine(row[0], total, rest[0]), rest[1..], row[1..])
  }

  /** The left-to-right value when no step leaves the u64 range, None otherwise. */
  function Checked(total: nat, rest: seq<nat>, row: seq<Operator>): Option<nat>
    requires |rest| == |row|
    decreases |row|
  {
    if row == [] then Some(total)
    else
      var t := Combine(row[0], total, rest[0]);
      if t > Text.U64_MAX then None else Checked(t, rest[1..], row[1..])
  }

  /** A row accepted by the checked evaluation gives the exact value of the equation. */
  lemma {:induction false} CheckedExact(total: nat, rest: seq<nat>, row: seq<Operator>)
    requires |rest| == |row|
    decreases |row|
    ensures Checked(total, rest, row).Some? ==> Checked(total, rest, row).value == Exact(total, rest, row)
  {
    if row != [] {
      CheckedExact(Combine(row[0], total, rest[0]), rest[1..], row[1..]);
    }
  }

  /** Where no step overflows, the solver's total is the exact value. */
  lemma {:induction false} FoldChecked(total: nat, rest: seq<nat>, row: seq<Operator>)
    requires |rest| == |row| && total <= Text.U64_MAX
    decreases |row|
    ensures Checked(total, rest, row).Some? ==> Fold(total, rest, row) == Checked(total, rest, row).value
  {
    if row != [] {
      var t := Combine(row[0], total, rest[0]);
      if t <= Text.U64_MAX {
        ApplyCombine(row[0], total, rest[0]);
        FoldChecked(t, rest[1..], row[1..]);
      }
    }
  }

  /** The inner loop of `valid`: pop the first number as the total, then one number per
      operator; an overflowing operator breaks out with the total reached so far. */
  method EvaluateRow(numbers: seq<nat>, row: seq<Operator>) returns (total: nat)
    requires |numbers| == |row| + 1
    ensures total == Fold(numbers[0], numbers[1..], row)
  {
    var rest := numbers[1..];
    total := numbers[0];
    var j := 0;
    while j < |row|
      invariant 0 <= j <= |row| && |rest| == |row| - j
      invariant Fold(total, rest, row[j..]) == Fold(numbers[0], numbers[1..], row)
    {
      var lhs := total;
      var rhs := rest[0];
      rest := rest[1..];
      var value := Apply(row[j], lhs, rhs);
      if value.None? {
        break;
      }
      assert row[j..][1..] == row[j + 1..];
      total := value.value;
      j := j + 1;
    }
  }

  /** The solver accepts `e` with `row`: the total it computes equals the answer. */
  predicate Matches(e: Equation, row: seq<Operator>)
    requires |e.numbers| == |row| + 1
  {
    Fold(e.numbers[0], e.numbers[1..], row) == e.answer
  }

  /** Some assignment of operators from `ops` makes the solver's total equal the answer. */
  ghost predicate Accepts(e: Equation, ops: seq<Operator>)
    requires e.numbers != []
  {
    exists row :: |row| == |e.numbers| - 1 && AllIn(row, ops) && Matches(e, row)
  }

  /** Some row of the table built for `e` makes its total equal the answer. */
  predicate TableMatch(e: Equation, ops: seq<Operator>)
    requires 1 <= |e.numbers| <= 32
  {
    exists r :: r in Table(|e.numbers| - 1, ops) && |r| == |e.numbers| - 1 && Matches(e, r)
  }

  /** What `valid` pushes for one equation: nothing without numbers; for one number that is not
      the answer, nothing; otherwise the answer once for the one-number case and once more when
      a row of the table matches (the first match breaks out of the table). */
  function Pushed(e: Equation, ops: seq<Operator>): seq<nat>
    requires |e.numbers| <= 32
  {
    if e.numbers == [] then []
    else if |e.numbers| == 1 && e.numbers[0] != e.answer then []
    else (if |e.numbers| == 1 then [e.answer] else []) + (if TableMatch(e, ops) then [e.answer] else [])
  }

  /** What `valid` returns: the pushes of the equations, in order. */
  function Answers(eqs: seq<Equation>, ops: seq<Operator>): seq<nat>
    requires forall e :: e in eqs ==> |e.numbers| <= 32
  {
    if eqs == [] then []
    else
      assert eqs[|eqs| - 1] in eqs;
      Answers(eqs[..|eqs| - 1], ops) + Pushed(eqs[|eqs| - 1], ops)
  }

  /** The table matches exactly when some assignment from `ops` does. */
  lemma {:induction false} TableMatchAccepts(e: Equation, ops: seq<Operator>)
    requires 1 <= |e.numbers| <= 32
    ensures TableMatch(e, ops) <==> Accepts(e, ops)
  {
    var n := |e.numbers| - 1;
    if TableMatch(e, ops) {
      var r :| r in Table(n, ops) && |r| == n && Matches(e, r);
      TableExact(n, ops, r);
    }
    if Accepts(e, ops) {
      var r :| |r| == n && AllIn(r, ops) && Matches(e, r);
      TableExact(n, ops, r);
    }
  }

  /** What one equation contributes, case by case: nothing without numbers; with two or more,
      its answer once exactly when some assignment makes it match; with a single number equal
      to the answer, the answer twice (the explicit push, then the match of the empty row). */
  lemma {:induction false} PushedCases(e: Equation, ops: seq<Operator>)
    requires |e.numbers| <= 32
    ensures e.numbers == [] ==> Pushed(e, ops) == []
    ensures |e.numbers| >= 2 ==> Pushed(e, ops) == if Accepts(e, ops) then [e.answer] else []
    ensures |e.numbers| == 1 ==> Pushed(e, ops) == if e.numbers[0] == e.answer then [e.answer, e.answer] else []
  {
    if e.numbers != [] {
      TableMatchAccepts(e, ops);
      if |e.numbers| == 1 && e.numbers[0] == e.answer {
        assert Matches(e, []) && AllIn([], ops);
      }
    }
  }

  /** `valid`: for each equation, skip it without numbers; push a lone number equal to the
      answer (and skip a lone number that is not); then run the rows of `oper_table` and push
      the answer at the first row whose total equals it. */
  method Valid(equations: seq<Equation>, operators: seq<Operator>) returns (valid: seq<nat>)
    requires forall e :: e in equations ==> |e.numbers| <= 32
    ensures valid == Answers(equations, operators)
  {
    valid := [];
    var k := 0;
    while k < |equations|
      invariant 0 <= k <= |equations|
      invariant valid == Answers(equations[..k], operators)
    {
      var equation := equations[k];
      var next := k + 1;
      AnswersNext(equations, operators, k, next);
      var pushed := Contribution(equation, operators);
      valid := valid + pushed;
      k := next;
    }
    assert equations[..k] == equations;
  }

  lemma {:induction false} AnswersNext(eqs: seq<Equation>, ops: seq<Operator>, k: nat, next: nat)
    requires next == k + 1 <= |eqs|
    requires forall e :: e in eqs ==> |e.numbers| <= 32
    ensures eqs[k] in eqs
    ensures Answers(eqs[..next], ops) == Answers(eqs[..k], ops) + Pushed(eqs[k], ops)
  {
    assert eqs[..next][..k] == eqs[..k];
  }

  /** The body of `valid` for one equation: what it pushes. */
  method Contribution(equation: Equation, operators: seq<Operator>) returns (pushed: seq<nat>)
    requires |equation.numbers| <= 32
    ensures pushed == Pushed(equation, operators)
  {
    pushed := [];
    if equation.numbers == [] {
      return;
    }
    if |equation.numbers| == 1 {
      if equation.numbers[0] == equation.answer {
        pushed := pushed + [equation.answer];
      } else {
        return;
      }
    }
    var matched := RunTable(equation, operators);
    if matched {
      pushed := pushed + [equation.answer];
    }
  }

  /** The row loop of `valid`: build the table for the equation's size and evaluate its rows in
      order until one gives the answer (where the solver pushes the answer and breaks). */
  method RunTable(equation: Equation, operators: seq<Operator>) returns (matched: bool)
    requires 1 <= |equation.numbers| <= 32
    ensures matched == TableMatch(equation, operators)
  {
    var n := |equation.numbers| - 1;
    var table := OperTable(n, operators);
    forall q | 0 <= q < |table| ensures |table[q]| == n {
      assert table[q] in table;
      TableExact(n, operators, table[q]);
    }
    matched := false;
    var r := 0;
    while r < |table|
      invariant 0 <= r <= |table|
      invariant forall q :: 0 <= q < r ==> !Matches(equation, table[q])
    {
      var total := EvaluateRow(equation.numbers, table[r]);
      if total == equation.answer {
        matched := true;
        break;
      }
      r := r + 1;
    }
    if !matched {
      forall t | t in Table(n, operators) && |t| == n ensures !Matches(equation, t) {
        var q :| 0 <= q < |table| && table[q] == t;
      }
    }
  }

  // ---------------------------------------------------------------------------------------
  // The intended acceptance

  /** The equation is true for some assignment: evaluated left to right without leaving the
      u64 range, the numbers come to the answer. */
  ghost predicate Solvable(e: Equation, ops: seq<Operator>)
  {
    e.numbers != []
    && exists row :: |row| == |e.numbers| - 1 && AllIn(row, ops) && Checked(e.numbers[0], e.numbers[1..], row) == Some(e.answer)
  }

  /** The answers of the solvable equations, each once, in order. */
  ghost function Calibrated(eqs: seq<Equation>, ops: seq<Operator>): (r: seq<nat>)
    ensures |r| <= |eqs|
  {
    if eqs == [] then []
    else
      var e := eqs[|eqs| - 1];
      Calibrated(eqs[..|eqs| - 1], ops) + (if Solvable(e, ops) then [e.answer] else [])
  }

  /** Every answer counted is the exact left-to-right value of its equation under some
      assignment from `ops`, and a lone number counts exactly when it is the answer. */
  lemma SolvableMeans(e: Equation, ops: seq<Operator>)
    ensures Solvable(e, ops) ==> exists row :: |row| == |e.numbers| - 1 && AllIn(row, ops) && Exact(e.numbers[0], e.numbers[1..], row) == e.answer
    ensures |e.numbers| == 1 ==> (Solvable(e, ops) <==> e.numbers[0] == e.answer)
  {
    if Solvable(e, ops) {
      var row :| |row| == |e.numbers| - 1 && AllIn(row, ops) && Checked(e.numbers[0], e.numbers[1..], row) == Some(e.answer);
      CheckedExact(e.numbers[0], e.numbers[1..], row);
    }
    if |e.numbers| == 1 && e.numbers[0] == e.answer {
      assert Checked(e.numbers[0], e.numbers[1..], []) == Some(e.answer);
    }
  }

  /** No assignment from `ops` makes the evaluation of `e` overflow. */
  ghost predicate NeverOverflows(e: Equation, ops: seq<Operator>)
  {
    forall row :: |row| == |e.numbers| - 1 && AllIn(row, ops) ==> Checked(e.numbers[0], e.numbers[1..], row).Some?
  }

  /** For equations of two or more numbers whose evaluations never overflow, the solver's
      answers are the intended ones. */
  lemma {:induction false} AnswersCalibrated(eqs: seq<Equation>, ops: seq<Operator>)
    requires forall e :: e in eqs ==> 2 <= |e.numbers| <= 32 && InRange(e) && NeverOverflows(e, ops)
    ensures Answers(eqs, ops) == Calibrated(eqs, ops)
  {
    if eqs != [] {
      var e := eqs[|eqs| - 1];
      assert e in eqs;
      assert forall x :: x in eqs[..|eqs| - 1] ==> x in eqs;
      AnswersCalibrated(eqs[..|eqs| - 1], ops);
      PushedCases(e, ops);
      assert e.numbers[0] in e.numbers;
      if Accepts(e, ops) {
        var row :| |row| == |e.numbers| - 1 && AllIn(row, ops) && Matches(e, row);
        FoldChecked(e.numbers[0], e.numbers[1..], row);
      }
      if Solvable(e, ops) {
        var row :| |row| == |e.numbers| - 1 && AllIn(row, ops) && Checked(e.numbers[0], e.numbers[1..], row) == Some(e.answer);
        FoldChecked(e.numbers[0], e.numbers[1..], row);
        assert Matches(e, row);
      }
    }
  }

  /** "5: 5" is pushed twice by the solver but is one true equation. */
  lemma LoneNumberCountedTwice()
    ensures Answers([Equation(5, [5])], [Plus, Multiply]) == [5, 5]
    ensures Calibrated([Equation(5, [5])], [Plus, Multiply]) == [5]
  {
    var e := Equation(5, [5]);
    PushedCases(e, [Plus, Multiply]);
    SolvableMeans(e, [Plus, Multiply]);
    assert [e][..0] == [];
  }

  /** "2: 2 18446744073709551615" overflows under both + and ×; the solver breaks out with the
      total 2 still in hand, compares it with the answer and accepts the equation, though
      neither 2 + 18446744073709551615 nor 2 × 18446744073709551615 is 2. */
  lemma OverflowAccepted()
    ensures Answers([Equation(2, [2, Text.U64_MAX])], [Plus, Multiply]) == [2]
  {
    var ops := [Plus, Multiply];
    var e := Equation(2, [2, Text.U64_MAX]);
    assert [e][..0] == [];
    assert Matches(e, [Plus]) && AllIn([Plus], ops);
    PushedCases(e, ops);
  }

  /** The intended reading rejects that equation. */
  lemma OverflowRejected()
    ensures Calibrated([Equation(2, [2, Text.U64_MAX])], [Plus, Multiply]) == []
  {
    var ops := [Plus, Multiply];
    var e := Equation(2, [2, Text.U64_MAX]);
    assert [e][..0] == [];
    forall row | |row| == 1 && AllIn(row, ops) ensures Checked(2, [Text.U64_MAX], row) != Some(2) {
      assert row[0] in row;
    }
  }
}
