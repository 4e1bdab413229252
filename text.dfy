/** The pieces of Rust's string library that the solvers' parsers use, over `seq<char>`:
    `str::lines`, `str::split` (by a character and by a string), `str::split_whitespace`,
    `str::trim`, `char::to_digit(10)`, integer `FromStr` and decimal rendering (`format!("{n}")`). */
module Text {
  import opened Wrappers

  const U32_MAX: nat := 0xFFFF_FFFF
  /** `usize` is taken to be 64 bits wide, as on the targets the solvers are built for. */
  const U64_MAX: nat := 0xFFFF_FFFF_FFFF_FFFF
  const I32_MIN: int := -0x8000_0000
  const I32_MAX: int := 0x7FFF_FFFF

  /** `char::is_whitespace`: the characters with the Unicode White_Space property. */
  predicate IsWhitespace(c: char)
  {
    ('\t' <= c <= '\r') || c == ' ' || c == '\U{85}' || c == '\U{A0}' || c == '\U{1680}'
    || ('\U{2000}' <= c <= '\U{200A}') || c == '\U{2028}' || c == '\U{2029}'
    || c == '\U{202F}' || c == '\U{205F}' || c == '\U{3000}'
  }

  predicate IsDigit(c: char)
  {
    '0' <= c <= '9'
  }

  /** `char::to_digit(10)`. */
  function ToDigit(c: char): (d: Option<nat>)
    ensures d.Some? <==> IsDigit(c)
    ensures d.Some? ==> d.value < 10 && c == DigitChar(d.value)
  {
    if IsDigit(c) then Some(c as int - '0' as int) else None
  }

  function DigitChar(d: nat): char
    requires d < 10
  {
    ('0' as int + d) as char
  }

  /** Index of the first `c` in `s`, or `|s|` when there is none. */
  function IndexOf(s: string, c: char): (i: nat)
    ensures i <= |s|
    ensures forall k :: 0 <= k < i ==> s[k] != c
    ensures i < |s| ==> s[i] == c
  {
    if s == [] then 0 else if s[0] == c then 0 else 1 + IndexOf(s[1..], c)
  }

  // ---------------------------------------------------------------------------------------
  // str::lines

  /** A line terminated by "\r\n" loses its '\r' as well as its '\n'. */
  function StripCr(line: string): string
  {
    if |line| > 0 && line[|line| - 1] == '\r' then line[..|line| - 1] else line
  }

  /** `str::lines`: split after every '\n', drop the '\n' and a '\r' just before it; a last
      line without terminator is kept as it is, and a final terminator adds no empty line. */
  function Lines(s: string): (ls: seq<string>)
    ensures forall l :: l in ls ==> '\n' !in l
    ensures s == [] <==> ls == []
    decreases |s|
  {
    if s == [] then []
    else
      var i := IndexOf(s, '\n');
      if i == |s| then [s] else [StripCr(s[..i])] + Lines(s[i + 1..])
  }

  /** Each line followed by a '\n': the text a file of these lines holds. */
  function Unlines(ls: seq<string>): string
  {
    if ls == [] then [] else ls[0] + "\n" + Unlines(ls[1..])
  }

  predicate PlainLine(l: string)
  {
    '\n' !in l && (|l| > 0 ==> l[|l| - 1] != '\r')
  }

  /** Splitting a file written line by line gives those lines back. */
  lemma {:induction false} LinesUnlines(ls: seq<string>)
    requires forall k :: 0 <= k < |ls| ==> PlainLine(ls[k])
    ensures Lines(Unlines(ls)) == ls
  {
    if ls != [] {
      var l, rest := ls[0], ls[1..];
      assert forall k :: 0 <= k < |rest| ==> rest[k] == ls[k + 1];
      LinesCons(l, Unlines(rest));
      LinesUnlines(rest);
      assert ls == [l] + rest;
    } else {
      assert Unlines(ls) == [];
    }
  }

  /** A plain line and its '\n' come off the front of a text as its first line. */
  lemma {:induction false} LinesCons(l: string, rest: string)
    requires PlainLine(l)
    ensures Lines(l + "\n" + rest) == [l] + Lines(rest)
  {
    var s := l + "\n" + rest;
    assert s == l + ("\n" + rest);
    IndexOfPrefix(l, "\n" + rest, '\n');
    assert s[..|l|] == l;
    assert s[|l| + 1..] == rest;
  }

  lemma IndexOfPrefix(a: string, b: string, c: char)
    requires c !in a && |b| > 0 && b[0] == c
    ensures IndexOf(a + b, c) == |a|
  {
    if a != [] {
      assert (a + b)[1..] == a[1..] + b;
      IndexOfPrefix(a[1..], b, c);
    }
  }

  // ---------------------------------------------------------------------------------------
  // str::split with a character, and with a string

  /** `str::split(c)`: the pieces between the occurrences of `c`; always at least one. */
  function Split(s: string, c: char): (parts: seq<string>)
    ensures |parts| >= 1
    ensures forall p :: p in parts ==> c !in p
    decreases |s|
  {
    var i := IndexOf(s, c);
    if i == |s| then [s] else [s[..i]] + Split(s[i + 1..], c)
  }

  /** The pieces glued back together with `c` in between. */
  function Join(parts: seq<string>, c: char): string
    requires |parts| >= 1
  {
    if |parts| == 1 then parts[0] else parts[0] + [c] + Join(parts[1..], c)
  }

  lemma {:induction false} JoinSplit(s: string, c: char)
    ensures Join(Split(s, c), c) == s
    decreases |s|
  {
    var i := IndexOf(s, c);
    var parts := Split(s, c);
    if i < |s| {
      var rest := Split(s[i + 1..], c);
      assert parts == [s[..i]] + rest;
      assert parts[0] == s[..i] && parts[1..] == rest && |parts| > 1;
      JoinSplit(s[i + 1..], c);
      assert Join(parts, c) == s[..i] + [c] + Join(rest, c);
      assert s == s[..i] + [c] + s[i + 1..];
    } else {
      assert parts == [s];
    }
  }

  lemma {:induction false} SplitJoin(parts: seq<string>, c: char)
    requires |parts| >= 1
    requires forall p :: p in parts ==> c !in p
    ensures Split(Join(parts, c), c) == parts
  {
    if |parts| > 1 {
      var s := Join(parts, c);
      var rest := Join(parts[1..], c);
      assert s == parts[0] + ([c] + rest);
      IndexOfPrefix(parts[0], [c] + rest, c);
      assert s[..|parts[0]|] == parts[0];
      assert s[|parts[0]| + 1..] == rest;
      SplitJoin(parts[1..], c);
    } else {
      IndexOfNone(parts[0], c);
    }
  }

  lemma IndexOfNone(s: string, c: char)
    requires c !in s
    ensures IndexOf(s, c) == |s|
  {
  }

  /** Start of the first occurrence of `sep` in `s`, or `|s|` when there is none. */
  function Find(s: string, sep: string): (i: nat)
    requires |sep| > 0
    ensures i <= |s|
    ensures i < |s| ==> OccursAt(s, sep, i)
    ensures forall k :: 0 <= k < i ==> !OccursAt(s, sep, k)
  {
    if |s| < |sep| then |s|
    else if s[..|sep|] == sep then 0
    else
      var j := Find(s[1..], sep);
      assert forall k :: 1 <= k <= j ==> OccursAt(s, sep, k) == OccursAt(s[1..], sep, k - 1) by {
        forall k | 1 <= k <= j ensures OccursAt(s, sep, k) == OccursAt(s[1..], sep, k - 1) {
          if k + |sep| <= |s| {
            SliceOfTail(s, k - 1, k - 1 + |sep|);
          }
        }
      }
      if j == |s| - 1 then |s| else 1 + j
  }

  lemma SliceOfTail(s: string, a: nat, b: nat)
    requires a <= b < |s|
    ensures s[1..][a..b] == s[a + 1..b + 1]
  {
    forall t | 0 <= t < b - a ensures s[1..][a..b][t] == s[a + 1..b + 1][t] {
    }
  }

  /** `sep` occurs in `s` starting at index `k`. */
  predicate OccursAt(s: string, sep: string, k: nat)
  {
    k + |sep| <= |s| && s[k..k + |sep|] == sep
  }

  /** `str::split(sep)` for a non-empty string separator: the pieces between the leftmost,
      non-overlapping occurrences of `sep`. */
  function SplitOn(s: string, sep: string): (parts: seq<string>)
    requires |sep| > 0
    ensures |parts| >= 1
    decreases |s|
  {
    var i := Find(s, sep);
    if i == |s| then [s] else [s[..i]] + SplitOn(s[i + |sep|..], sep)
  }

  // ---------------------------------------------------------------------------------------
  // str::split_whitespace and str::trim

  /** Length of the run of non-whitespace characters at the front of `s`. */
  function WordLength(s: string): (n: nat)
    ensures n <= |s|
    ensures forall k :: 0 <= k < n ==> !IsWhitespace(s[k])
    ensures n < |s| ==> IsWhitespace(s[n])
  {
    if s == [] || IsWhitespace(s[0]) then 0 else 1 + WordLength(s[1..])
  }

  predicate IsWord(w: string)
  {
    w != [] && forall k :: 0 <= k < |w| ==> !IsWhitespace(w[k])
  }

  /** `str::split_whitespace`: the maximal runs of non-whitespace characters, in order. */
  function SplitWhitespace(s: string): (words: seq<string>)
    decreases |s|
  {
    if s == [] then []
    else if IsWhitespace(s[0]) then SplitWhitespace(s[1..])
    else
      var n := WordLength(s);
      [s[..n]] + SplitWhitespace(s[n..])
  }

  /** Every piece is a non-empty run of non-whitespace characters. */
  lemma {:induction false} SplitWhitespaceWords(s: string)
    ensures forall k :: 0 <= k < |SplitWhitespace(s)| ==> IsWord(SplitWhitespace(s)[k])
    decreases |s|
  {
    if s != [] {
      if IsWhitespace(s[0]) {
        SplitWhitespaceWords(s[1..]);
      } else {
        var n := WordLength(s);
        SplitWhitespaceWords(s[n..]);
        assert SplitWhitespace(s) == [s[..n]] + SplitWhitespace(s[n..]);
      }
    }
  }

  /** Words separated by single spaces. */
  function Unwords(ws: seq<string>): string
  {
    if ws == [] then [] else ws[0] + " " + Unwords(ws[1..])
  }

  lemma {:induction false} SplitWhitespaceUnwords(ws: seq<string>)
    requires forall w :: w in ws ==> IsWord(w)
    ensures SplitWhitespace(Unwords(ws)) == ws
  {
    if ws != [] {
      var w := ws[0];
      assert IsWord(w) by { assert w in ws; }
      var s := Unwords(ws);
      assert s == w + (" " + Unwords(ws[1..]));
      WordLengthPrefix(w, " " + Unwords(ws[1..]));
      assert s[..|w|] == w;
      assert s[|w|..] == " " + Unwords(ws[1..]);
      assert s[|w|..][1..] == Unwords(ws[1..]);
      SplitWhitespaceUnwords(ws[1..]);
    }
  }

  lemma {:induction false} WordLengthPrefix(w: string, rest: string)
    requires forall k :: 0 <= k < |w| ==> !IsWhitespace(w[k])
    requires |rest| > 0 && IsWhitespace(rest[0])
    ensures WordLength(w + rest) == |w|
  {
    if w != [] {
      assert (w + rest)[1..] == w[1..] + rest;
      WordLengthPrefix(w[1..], rest);
    }
  }

  function TrimStart(s: string): (t: string)
    ensures |t| <= |s| && t == s[|s| - |t|..]
    ensures t != [] ==> !IsWhitespace(t[0])
    ensures forall k :: 0 <= k < |s| - |t| ==> IsWhitespace(s[k])
  {
    if s != [] && IsWhitespace(s[0]) then TrimStart(s[1..]) else s
  }

  function TrimEnd(s: string): (t: string)
    ensures |t| <= |s| && t == s[..|t|]
    ensures t != [] ==> !IsWhitespace(t[|t| - 1])
    ensures forall k :: |t| <= k < |s| ==> IsWhitespace(s[k])
  {
    if s != [] && IsWhitespace(s[|s| - 1]) then TrimEnd(s[..|s| - 1]) else s
  }

  /** `str::trim`: without its leading and trailing whitespace. */
  function Trim(s: string): (t: string)
  {
    TrimEnd(TrimStart(s))
  }

  // ---------------------------------------------------------------------------------------
  // Integer parsing and decimal rendering

  predicate AllDigits(s: string)
  {
    forall k :: 0 <= k < |s| ==> IsDigit(s[k])
  }

  /** The number a string of decimal digits denotes (leading zeros allowed). */
  function DigitsValue(s: string): nat
    requires AllDigits(s)
  {
    if s == [] then 0 else 10 * DigitsValue(s[..|s| - 1]) + (s[|s| - 1] as int - '0' as int)
  }

  /** `FromStr` for an unsigned integer type whose largest value is `max`: an optional '+',
      then one or more decimal digits denoting at most `max`. */
  function ParseUnsigned(s: string, max: nat): (r: Option<nat>)
    ensures r.Some? ==> r.value <= max
    ensures (s == [] || s == "+") ==> r.None?
  {
    var digits := if |s| > 0 && s[0] == '+' then s[1..] else s;
    if digits == [] || !AllDigits(digits) then None
    else if DigitsValue(digits) > max then None
    else Some(DigitsValue(digits))
  }

  /** `FromStr` for a signed integer type with range `min..=max`: an optional '+' or '-',
      then one or more decimal digits whose value lies in the range. */
  function ParseSigned(s: string, min: int, max: int): (r: Option<int>)
    ensures r.Some? ==> min <= r.value <= max
  {
    var (negative, digits) := if |s| > 0 && (s[0] == '+' || s[0] == '-') then (s[0] == '-', s[1..]) else (false, s);
    if digits == [] || !AllDigits(digits) then None
    else
      var v: int := if negative then -(DigitsValue(digits) as int) else DigitsValue(digits);
      if v < min || v > max then None else Some(v)
  }

  function ParseU64(s: string): Option<nat> { ParseUnsigned(s, U64_MAX) }
  function ParseU32(s: string): Option<nat> { ParseUnsigned(s, U32_MAX) }
  function ParseI32(s: string): Option<int> { ParseSigned(s, I32_MIN, I32_MAX) }

  /** `format!("{n}")`: the decimal digits of `n`, without leading zeros. */
  function Show(n: nat): (s: string)
    ensures |s| >= 1 && AllDigits(s)
    ensures |s| > 1 ==> s[0] != '0'
  {
    if n < 10 then [DigitChar(n)] else Show(n / 10) + [DigitChar(n % 10)]
  }

  lemma {:induction false} ShowValue(n: nat)
    ensures DigitsValue(Show(n)) == n
  {
    if n >= 10 {
      var s := Show(n);
      assert s[..|s| - 1] == Show(n / 10);
      ShowValue(n / 10);
    }
  }

  /** Rendering and then parsing a number gives it back. */
  lemma ParseShow(n: nat, max: nat)
    requires n <= max
    ensures ParseUnsigned(Show(n), max) == Some(n)
  {
    ShowValue(n);
  }

  /** The value of a concatenation of digit strings. */
  lemma {:induction false} DigitsValueAppend(a: string, b: string)
    requires AllDigits(a) && AllDigits(b)
    ensures AllDigits(a + b)
    ensures DigitsValue(a + b) == DigitsValue(a) * Pow10(|b|) + DigitsValue(b)
    decreases |b|
  {
    if b != [] {
      var ab := a + b;
      var b' := b[..|b| - 1];
      var last := b[|b| - 1] as int - '0' as int;
      assert ab[..|ab| - 1] == a + b' && ab[|ab| - 1] == b[|b| - 1];
      DigitsValueAppend(a, b');
      var va, vb' := DigitsValue(a), DigitsValue(b');
      var p := Pow10(|b'|);
      assert DigitsValue(ab) == 10 * DigitsValue(a + b') + last;
      assert DigitsValue(b) == 10 * vb' + last;
      assert Pow10(|b|) == 10 * p;
      ScaleShift(va, p, vb', last);
    } else {
      assert a + b == a;
    }
  }

  lemma ScaleShift(x: int, p: int, y: int, z: int)
    ensures 10 * (x * p + y) + z == x * (10 * p) + (10 * y + z)
  {
  }

  function Pow10(k: nat): (p: nat)
    ensures p >= 1
  {
    if k == 0 then 1 else 10 * Pow10(k - 1)
  }

  // ---------------------------------------------------------------------------------------
  // Byte length

  /** The number of bytes UTF-8 spends on `c`. */
  function Utf8Width(c: char): nat
  {
    if c as int < 0x80 then 1 else if c as int < 0x800 then 2 else if c as int < 0x1_0000 then 3 else 4
  }

  /** `str::len`: the length of `s` in UTF-8 bytes, which is its number of characters only
      when every character is ASCII. */
  function Utf8Len(s: string): (n: nat)
    ensures |s| <= n <= 4 * |s|
    ensures n == |s| <==> forall k :: 0 <= k < |s| ==> s[k] as int < 0x80
  {
    if s == [] then 0 else Utf8Len(s[..|s| - 1]) + Utf8Width(s[|s| - 1])
  }
}
