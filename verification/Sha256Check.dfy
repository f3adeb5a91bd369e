/**
 The CHECK predicate generated for every column that holds a SHA-256 digest: its text, and
 what that text means to SQLite for a text value or NULL.
 */
module Sha256Check {
  import opened Common
  import opened PythonText

  const HEX := "0123456789abcdef"

  datatype Expr =
    | Column(name: string)
    | Replace(text: Expr, pattern: char)       // replace(text, 'pattern', '')
    | LengthIs(text: Expr, n: nat)             // length(text) = n
    | And(left: Expr, right: Expr)

  function Text(e: Expr): string {
    match e
    case Column(name) => name
    case Replace(text, pattern) => "replace(" + Text(text) + ", '" + [pattern] + "', '')"
    case LengthIs(text, n) => "length(" + Text(text) + ") = " + Decimal(n)
    case And(left, right) => Text(left) + " AND " + Text(right)
  }

  function Stripped(e: Expr, characters: string): Expr {
    if characters == "" then e
    else Replace(Stripped(e, characters[..|characters| - 1]), characters[|characters| - 1])
  }

  function HexCheck(column: string): Expr {
    And(LengthIs(Column(column), 64), LengthIs(Stripped(Column(column), HEX), 0))
  }

  lemma HexCheckText(column: string)
    ensures Text(HexCheck(column))
         == "length(" + column + ") = 64 AND length(" + Text(Stripped(Column(column), HEX)) + ") = 0"
  {
    assert Decimal(64) == "64" && Decimal(0) == "0";
    var stripped := Text(Stripped(Column(column), HEX));
    var whole, rest := LengthIs(Column(column), 64), LengthIs(Stripped(Column(column), HEX), 0);
    assert Text(whole) == "length(" + column + ") = " + "64";
    assert Text(rest) == "length(" + stripped + ") = " + "0";
    assert Text(HexCheck(column)) == Text(whole) + " AND " + Text(rest);
  }

  /** One round of nesting removes one character from the text. */
  lemma NestedText(column: string, characters: string, c: char)
    ensures Text(Stripped(Column(column), "")) == column
    ensures Text(Stripped(Column(column), characters + [c]))
         == "replace(" + Text(Stripped(Column(column), characters)) + ", '" + [c] + "', '')"
  {
    assert (characters + [c])[..|characters|] == characters;
  }

  /** The text is that of the intended expression. */
  method Sha256HexCheck(column: string) returns (text: string)
    ensures text == Text(HexCheck(column))
  {
    var remaining := column;
    for i := 0 to |HEX|
      invariant remaining == Text(Stripped(Column(column), HEX[..i]))
    {
      assert HEX[..i + 1][..i] == HEX[..i];
      remaining := "replace(" + remaining + ", '" + [HEX[i]] + "', '')";
    }
    assert HEX[..|HEX|] == HEX;
    HexCheckText(column);
    text := "length(" + column + ") = 64 AND length(" + remaining + ") = 0";
  }

  // ---- Evaluation in SQLite ----

  function Without(s: string, c: char): string {
    if s == "" then "" else (if s[0] == c then [] else [s[0]]) + Without(s[1..], c)
  }

  /** The characters that length() counts: those before the first NUL. */
  function BeforeNul(s: string): string {
    if s == "" || s[0] == '\0' then "" else [s[0]] + BeforeNul(s[1..])
  }

  /** A string expression over a row whose one column holds `value`. */
  function StringValue(e: Expr, value: Option<string>): Option<string>
    requires e.Column? || e.Replace?
  {
    if e.Column? then value
    else if e.text.Column? || e.text.Replace? then
      var text := StringValue(e.text, value);
      if text.None? then None else Some(Without(text.value, e.pattern))
    else None
  }

  /** Three-valued logic: None is UNKNOWN. */
  function Truth(e: Expr, value: Option<string>): Option<bool> {
    match e
    case Column(_) => None
    case Replace(_, _) => None
    case LengthIs(text, n) =>
      if !(text.Column? || text.Replace?) then None
      else
        var s := StringValue(text, value);
        if s.None? then None else Some(|BeforeNul(s.value)| == n)
    case And(left, right) =>
      var l, r := Truth(left, value), Truth(right, value);
      if l == Some(false) || r == Some(false) then Some(false)
      else if l == Some(true) && r == Some(true) then Some(true)
      else None
  }

  /** A CHECK constraint passes unless it is false. */
  predicate Passes(check: Expr, value: Option<string>) {
    Truth(check, value) != Some(false)
  }

  // ---- What the predicate means ----

  predicate AllHex(s: string) {
    forall c <- s :: c in HEX
  }

  /** The pattern ^[0-9a-f]{64}$ that the request models put on a digest. */
  predicate IsDigest(s: string) {
    |s| == 64 && forall c <- s :: '0' <= c <= '9' || 'a' <= c <= 'f'
  }

  function WithoutAll(s: string, characters: string): string {
    if characters == "" then s
    else Without(WithoutAll(s, characters[..|characters| - 1]), characters[|characters| - 1])
  }

  lemma {:induction false} StrippedValue(column: string, characters: string, value: Option<string>)
    ensures Stripped(Column(column), characters).Column? || Stripped(Column(column), characters).Replace?
    ensures StringValue(Stripped(Column(column), characters), value)
         == if value.None? then None else Some(WithoutAll(value.value, characters))
  {
    if characters != "" {
      StrippedValue(column, characters[..|characters| - 1], value);
    }
  }

  lemma {:induction false} WithoutMembers(s: string, c: char)
    requires c != '\0'
    ensures forall d :: d in BeforeNul(Without(s, c)) <==> d in BeforeNul(s) && d != c
  {
    if s != "" {
      WithoutMembers(s[1..], c);
      var rest := Without(s[1..], c);
      if s[0] == '\0' {
        assert Without(s, c) == ['\0'] + rest;
      } else if s[0] != c {
        assert Without(s, c) == [s[0]] + rest && ([s[0]] + rest)[1..] == rest;
      } else {
        assert Without(s, c) == rest;
      }
    }
  }

  lemma {:induction false} WithoutAllMembers(s: string, characters: string)
    requires '\0' !in characters
    ensures forall d :: d in BeforeNul(WithoutAll(s, characters)) <==> d in BeforeNul(s) && d !in characters
  {
    if characters != "" {
      var init, last := characters[..|characters| - 1], characters[|characters| - 1];
      WithoutAllMembers(s, init);
      WithoutMembers(WithoutAll(s, init), last);
      assert characters == init + [last];
    }
  }

  /** For text, the predicate is true exactly when the part that SQLite counts is 64 hexadecimal digits. */
  lemma TrueExactlyForCountedDigest(column: string, s: string)
    ensures Truth(HexCheck(column), Some(s)) == Some(|BeforeNul(s)| == 64 && AllHex(BeforeNul(s)))
  {
    StrippedValue(column, HEX, Some(s));
    CountedAreHex(s);
  }

  lemma CountedAreHex(s: string)
    ensures BeforeNul(WithoutAll(s, HEX)) == "" <==> AllHex(BeforeNul(s))
  {
    WithoutAllMembers(s, HEX);
    var rest := BeforeNul(WithoutAll(s, HEX));
    if |rest| == 0 {
      assert forall d <- BeforeNul(s) :: d !in rest;
    } else {
      assert rest[0] in rest;
    }
  }

  lemma NullPasses(column: string)
    ensures Truth(HexCheck(column), None) == None && Passes(HexCheck(column), None)
  {
    StrippedValue(column, HEX, None);
  }

  lemma {:induction false} BeforeNulOf(s: string)
    ensures BeforeNul(s) <= s && '\0' !in BeforeNul(s)
    ensures BeforeNul(s) == s <==> '\0' !in s
    ensures |BeforeNul(s)| < |s| ==> s[|BeforeNul(s)|] == '\0'
  {
    if s != "" && s[0] != '\0' {
      BeforeNulOf(s[1..]);
      assert s == [s[0]] + s[1..];
    }
  }

  lemma DigestIsHex(s: string)
    ensures IsDigest(s) <==> |s| == 64 && AllHex(s)
  {
    assert forall c :: c in HEX <==> '0' <= c <= '9' || 'a' <= c <= 'f';
  }

  /** Text without NUL passes exactly when it is a digest, so an accepted request's digest always passes. */
  lemma PassesExactlyForDigest(column: string, s: string)
    requires '\0' !in s
    ensures Passes(HexCheck(column), Some(s)) <==> IsDigest(s)
  {
    TrueExactlyForCountedDigest(column, s);
    BeforeNulOf(s);
    DigestIsHex(s);
  }

  /** The other texts that pass are exactly those where a digest is followed by NUL and anything. */
  lemma PassesWithoutBeingDigest(column: string, s: string)
    ensures Passes(HexCheck(column), Some(s)) && !IsDigest(s)
            <==> |s| > 64 && IsDigest(s[..64]) && s[64] == '\0'
  {
    var counted := BeforeNul(s);
    TrueExactlyForCountedDigest(column, s);
    BeforeNulOf(s);
    DigestIsHex(counted);
    if |s| > 64 && IsDigest(s[..64]) && s[64] == '\0' {
      PrefixIsCounted(s, 64);
    } else if |counted| == 64 && AllHex(counted) {
      assert s[..64] == counted;
    }
  }

  lemma {:induction false} PrefixIsCounted(s: string, n: nat)
    requires n < |s| && '\0' !in s[..n] && s[n] == '\0'
    ensures BeforeNul(s) == s[..n]
  {
    if n > 0 {
      assert s[0] == s[..n][0];
      assert s[1..][..n - 1] == s[..n][1..];
      PrefixIsCounted(s[1..], n - 1);
    }
  }

  /** A concrete text that is no digest and passes: a digest, NUL and one more character. */
  lemma NulHidesTheRest(column: string)
    ensures var s := seq(64, _ => '0') + "\0!"; Passes(HexCheck(column), Some(s)) && !IsDigest(s)
  {
    var s := seq(64, _ => '0') + "\0!";
    assert s[..64] == seq(64, _ => '0');
    PassesWithoutBeingDigest(column, s);
  }
}
