/**
 The text operations that request parsing rests on: `str.partition`, `int(text)` and the
 decimal form of a number, for header text decoded as Latin-1.
 */
module PythonText {
  import opened Common

  /** `int` refuses longer digit strings with a ValueError. */
  const MAX_STR_DIGITS: nat := 4300

  predicate IsDigit(c: char) {
    '0' <= c <= '9'
  }

  predicate IsSpace(c: char) {
    c == ' ' || '\t' <= c <= '\r' || c == '\U{0085}' || c == '\U{00A0}'
  }

  function DigitOf(d: nat): (c: char)
    requires d < 10
    ensures IsDigit(c)
  {
    '0' + d as char
  }

  function DigitValue(c: char): (d: nat)
    requires IsDigit(c)
    ensures d < 10 && DigitOf(d) == c
  {
    (c - '0') as nat
  }

  predicate AllDigits(s: string) {
    forall i :: 0 <= i < |s| ==> IsDigit(s[i])
  }

  function Value(s: string): nat
    requires AllDigits(s)
  {
    if s == [] then 0 else 10 * Value(s[..|s| - 1]) + DigitValue(s[|s| - 1])
  }

  /** `str(n)` for a natural number. */
  function Decimal(n: nat): (s: string)
    ensures s != [] && AllDigits(s)
  {
    if n < 10 then [DigitOf(n)] else Decimal(n / 10) + [DigitOf(n % 10)]
  }

  lemma {:induction false} DecimalValue(n: nat)
    ensures Value(Decimal(n)) == n
  {
    if n >= 10 {
      DecimalValue(n / 10);
      assert Decimal(n)[..|Decimal(n)| - 1] == Decimal(n / 10);
    } else {
      assert Decimal(n)[..0] == [];
    }
  }

  lemma {:induction false} LongerDecimal(n: nat, m: nat)
    requires n <= m
    ensures |Decimal(n)| <= |Decimal(m)|
  {
    if n >= 10 {
      LongerDecimal(n / 10, m / 10);
    }
  }

  /** There are numbers of every length. */
  lemma {:induction false} NumberOfLength(length: nat) returns (n: nat)
    requires length > 0
    ensures n > 0 && |Decimal(n)| == length
  {
    if length == 1 {
      n := 1;
    } else {
      var m := NumberOfLength(length - 1);
      n := 10 * m;
      assert n / 10 == m;
    }
  }

  function LeftStrip(s: string): string {
    if s != [] && IsSpace(s[0]) then LeftStrip(s[1..]) else s
  }

  function RightStrip(s: string): string {
    if s != [] && IsSpace(s[|s| - 1]) then RightStrip(s[..|s| - 1]) else s
  }

  /** Digits, with single underscores allowed between two of them. */
  predicate Grouped(s: string) {
    && s != [] && IsDigit(s[0]) && IsDigit(s[|s| - 1])
    && forall i :: 0 <= i < |s| ==> Joined(s, i)
  }

  predicate Joined(s: string, i: nat)
    requires i < |s|
  {
    IsDigit(s[i]) || (s[i] == '_' && i > 0 && s[i - 1] != '_')
  }

  function Digits(s: string): (r: string)
    ensures AllDigits(r)
  {
    if s == [] then []
    else Digits(s[..|s| - 1]) + if IsDigit(s[|s| - 1]) then [s[|s| - 1]] else []
  }

  function Unsigned(s: string): Option<int> {
    if Grouped(s) && |Digits(s)| <= MAX_STR_DIGITS then Some(Value(Digits(s))) else None
  }

  /** `int(s)`; None stands for the ValueError. */
  function PyInt(s: string): Option<int> {
    Signed(RightStrip(LeftStrip(s)))
  }

  function Signed(t: string): Option<int> {
    if t != [] && t[0] == '-' then (match Unsigned(t[1..]) case Some(n) => Some(-n) case None => None)
    else if t != [] && t[0] == '+' then Unsigned(t[1..])
    else Unsigned(t)
  }

  lemma {:induction false} DigitsOfDigits(s: string)
    requires AllDigits(s)
    ensures Digits(s) == s
  {
    if s != [] {
      DigitsOfDigits(s[..|s| - 1]);
      assert s == s[..|s| - 1] + [s[|s| - 1]];
    }
  }

  lemma {:induction false} LeftStripMembers(s: string, c: char)
    ensures c in LeftStrip(s) ==> c in s
  {
    if s != [] && IsSpace(s[0]) {
      LeftStripMembers(s[1..], c);
    }
  }

  lemma {:induction false} RightStripMembers(s: string, c: char)
    ensures c in RightStrip(s) ==> c in s
  {
    if s != [] && IsSpace(s[|s| - 1]) {
      RightStripMembers(s[..|s| - 1], c);
    }
  }

  /** Without a minus sign no negative number can be read. */
  lemma NoMinusNoNegative(s: string)
    requires '-' !in s
    ensures PyInt(s).Some? ==> PyInt(s).value >= 0
  {
    LeftStripMembers(s, '-');
    RightStripMembers(LeftStrip(s), '-');
  }

  /** Printing and parsing are inverse, exactly up to the interpreter's digit limit. */
  lemma PyIntOfDecimal(n: nat)
    ensures PyInt(Decimal(n)) == if |Decimal(n)| <= 4300 then Some(n) else None
  {
    var s := Decimal(n);
    assert RightStrip(LeftStrip(s)) == s;
    DigitsOfDigits(s);
    DecimalValue(n);
  }

  /** Decimal text, digit by digit: no leading zeros, most significant digit first. */
  lemma DecimalDigits(n: nat, d: nat)
    requires d < 10
    ensures Decimal(d) == ["0123456789"[d]]
    ensures n > 0 ==> Decimal(10 * n + d) == Decimal(n) + ["0123456789"[d]]
  {
    assert DigitOf(d) == "0123456789"[d];
    assert (10 * n + d) / 10 == n && (10 * n + d) % 10 == d;
  }

  function Ten(k: nat): nat {
    if k == 0 then 1 else 10 * Ten(k - 1)
  }

  lemma {:induction false} DecimalFits(n: nat, k: nat)
    requires k > 0 && n < Ten(k)
    ensures |Decimal(n)| <= k
  {
    if n >= 10 {
      DecimalFits(n / 10, k - 1);
    }
  }

  /** Every number of ordinary size is read back from its decimal form. */
  lemma OrdinaryNumbersAreRead(n: nat)
    requires n < 1_000_000_000_000_000_000
    ensures |Decimal(n)| <= 18 && PyInt(Decimal(n)) == Some(n)
  {
    assert Ten(6) == 1_000_000;
    assert Ten(12) == 1_000_000_000_000;
    assert Ten(18) == 1_000_000_000_000_000_000;
    DecimalFits(n, 18);
    PyIntOfDecimal(n);
  }

  /** Digits with single underscores between them, read from the right. */
  predicate DigitGroups(s: string) {
    && s != [] && '0' <= s[|s| - 1] <= '9'
    && (|s| == 1
        || DigitGroups(s[..|s| - 1])
        || (|s| > 2 && s[|s| - 2] == '_' && DigitGroups(s[..|s| - 2])))
  }

  lemma {:induction false} GroupedIsDigitGroups(s: string)
    ensures Grouped(s) <==> DigitGroups(s)
  {
    if |s| > 1 && IsDigit(s[|s| - 1]) {
      if IsDigit(s[|s| - 2]) {
        var init := s[..|s| - 1];
        GroupedIsDigitGroups(init);
        SameJoints(s, |init|);
        assert Grouped(s) ==> Grouped(init);
      } else if |s| > 2 {
        var init := s[..|s| - 2];
        GroupedIsDigitGroups(init);
        SameJoints(s, |init|);
        if Grouped(s) {
          assert Joined(s, |s| - 2) && Joined(s, |s| - 3);
        }
      }
    }
  }

  lemma SameJoints(s: string, n: nat)
    requires n <= |s|
    ensures forall i :: 0 <= i < n ==> Joined(s[..n], i) == Joined(s, i)
  {
  }

  predicate Spaces(s: string) {
    forall c <- s :: c in " \t\n\r\U{000B}\U{000C}\U{0085}\U{00A0}"
  }

  lemma {:induction false} SpacesAreStripped(left: string, core: string, right: string)
    requires Spaces(left) && Spaces(right)
    requires core != [] && !IsSpace(core[0]) && !IsSpace(core[|core| - 1])
    ensures RightStrip(LeftStrip(left + core + right)) == core
    decreases |left| + |right|
  {
    if left != [] {
      assert left[0] in left;
      assert (left + core + right)[0] == left[0] && (left + core + right)[1..] == left[1..] + core + right;
      SpacesAreStripped(left[1..], core, right);
    } else if right != [] {
      var s, init := left + core + right, left + core + right[..|right| - 1];
      assert right[|right| - 1] in right;
      assert s[0] == core[0] && init[0] == core[0];
      assert s[|s| - 1] == right[|right| - 1] && s[..|s| - 1] == init;
      SpacesAreStripped(left, core, right[..|right| - 1]);
    } else {
      assert left + core + right == core;
    }
  }

  lemma SignIsRead(sign: string, digits: string)
    requires sign in {"", "+", "-"} && DigitGroups(digits)
    ensures var v: int := Value(Digits(digits));
            Signed(sign + digits) == if |Digits(digits)| > 4300 then None else Some(if sign == "-" then -v else v)
  {
    GroupedIsDigitGroups(digits);
    if sign == "" {
      assert sign + digits == digits;
    } else {
      assert (sign + digits)[0] == sign[0] && (sign + digits)[1..] == digits;
    }
  }

  lemma SignedEnds(sign: string, digits: string)
    requires sign in {"", "+", "-"} && DigitGroups(digits)
    ensures var core := sign + digits;
            core != [] && !IsSpace(core[0]) && !IsSpace(core[|core| - 1])
  {
    GroupedIsDigitGroups(digits);
  }

  lemma Regroup(a: string, b: string, c: string, d: string)
    ensures a + b + c + d == a + (b + c) + d
  {
  }

  /** Spaces around a number, a sign and single underscores between digits do not matter to its value. */
  lemma SpellingsAreRead(left: string, sign: string, digits: string, right: string)
    requires Spaces(left) && Spaces(right) && sign in {"", "+", "-"}
    requires DigitGroups(digits)
    ensures var v: int := Value(Digits(digits));
            PyInt(left + sign + digits + right)
            == if |Digits(digits)| > 4300 then None else Some(if sign == "-" then -v else v)
  {
    SignIsRead(sign, digits);
    SignedEnds(sign, digits);
    Regroup(left, sign, digits, right);
    SpacesAreStripped(left, sign + digits, right);
  }

  /** `s.partition(c)`: the text before the first `c`, whether there is one, the text after it. */
  function Partition(s: string, c: char): (r: (string, bool, string))
    ensures c !in r.0
    ensures s == if r.1 then r.0 + [c] + r.2 else r.0
    ensures !r.1 ==> r.2 == []
  {
    if s == [] then ([], false, [])
    else if s[0] == c then ([], true, s[1..])
    else
      var (before, found, after) := Partition(s[1..], c);
      ([s[0]] + before, found, after)
  }

  /** The partition at `c` is the only one. */
  lemma {:induction false} PartitionAt(before: string, c: char, after: string)
    requires c !in before
    ensures Partition(before + [c] + after, c) == (before, true, after)
  {
    var s := before + [c] + after;
    if before == [] {
      assert s[0] == c && s[1..] == after;
    } else {
      assert s[0] == before[0] && s[1..] == before[1..] + [c] + after;
      PartitionAt(before[1..], c, after);
      assert s[0] != c;
      assert [before[0]] + before[1..] == before;
    }
  }

  /**
   ASCII case folding. Other Latin-1 letters may fold to more than one character, but only an
   ASCII spelling of "bytes" folds to "bytes", which is all that the text is compared with.
   */
  function Fold(s: string): string {
    seq(|s|, i requires 0 <= i < |s| => if 'A' <= s[i] <= 'Z' then s[i] - 'A' + 'a' else s[i])
  }

  /** The unit comparison accepts "bytes" in any capitals and nothing else. */
  lemma FoldsToBytes(s: string)
    ensures Fold(s) == "bytes" <==>
            && |s| == 5 && s[0] in {'b', 'B'} && s[1] in {'y', 'Y'} && s[2] in {'t', 'T'}
            && s[3] in {'e', 'E'} && s[4] in {'s', 'S'}
  {
    if |s| == 5 {
      var f := Fold(s);
      assert f == [f[0], f[1], f[2], f[3], f[4]];
      assert f == "bytes" <==> f[0] == 'b' && f[1] == 'y' && f[2] == 't' && f[3] == 'e' && f[4] == 's';
    }
  }
}
