/**
 * String helpers shared by the model: the two trimming rules (JavaScript's
 * String.prototype.trim and Java's String.trim), ASCII lower-casing,
 * prefix tests, splitting on a separator, joining, and decimal rendering
 * of integers and `parseInt`.
 */
module Strings {
  import opened Wrappers

  /** Which characters a trim removes: JavaScript's white space and line terminators, or Java's code points up to U+0020. */
  datatype TrimRule = JsTrim | JavaTrim

  /** JavaScript's white space and line terminators. */
  const JS_WHITE_SPACE: set<char> := {'\t', '\n', '\r', ' ', '\U{000B}', '\U{000C}', '\U{00A0}', '\U{1680}', '\U{2000}', '\U{2001}', '\U{2002}', '\U{2003}', '\U{2004}', '\U{2005}', '\U{2006}', '\U{2007}', '\U{2008}', '\U{2009}', '\U{200A}', '\U{2028}', '\U{2029}', '\U{202F}', '\U{205F}', '\U{3000}', '\U{FEFF}'}

  predicate IsTrimmable(rule: TrimRule, c: char)
  {
    match rule
    case JavaTrim => c <= ' '
    case JsTrim => c in JS_WHITE_SPACE
  }

  /** The number of leading characters the rule removes. */
  function LeadingCount(rule: TrimRule, s: string): (n: nat)
    ensures n <= |s|
  {
    if s == [] || !IsTrimmable(rule, s[0]) then 0 else 1 + LeadingCount(rule, s[1..])
  }

  /** The leading count stops at the first character the rule keeps. */
  lemma {:induction false} LeadingCountSpec(rule: TrimRule, s: string)
    ensures forall k :: 0 <= k < LeadingCount(rule, s) ==> IsTrimmable(rule, s[k])
    ensures LeadingCount(rule, s) < |s| ==> !IsTrimmable(rule, s[LeadingCount(rule, s)])
    decreases |s|
  {
    if s != [] && IsTrimmable(rule, s[0]) {
      LeadingCountSpec(rule, s[1..]);
    }
  }

  /** The number of characters left once the trailing ones the rule removes are dropped. */
  function KeptPrefix(rule: TrimRule, s: string): (n: nat)
    ensures n <= |s|
  {
    if s == [] || !IsTrimmable(rule, s[|s| - 1]) then |s| else KeptPrefix(rule, s[..|s| - 1])
  }

  /** The kept prefix ends at the last character the rule keeps. */
  lemma {:induction false} KeptPrefixSpec(rule: TrimRule, s: string)
    ensures forall k :: KeptPrefix(rule, s) <= k < |s| ==> IsTrimmable(rule, s[k])
    ensures KeptPrefix(rule, s) > 0 ==> !IsTrimmable(rule, s[KeptPrefix(rule, s) - 1])
    decreases |s|
  {
    if s != [] && IsTrimmable(rule, s[|s| - 1]) {
      KeptPrefixSpec(rule, s[..|s| - 1]);
    }
  }

  /** trim: the leading and trailing characters the rule removes dropped. */
  function Trim(rule: TrimRule, s: string): (r: string)
    ensures |r| <= |s|
  {
    var i := LeadingCount(rule, s);
    var rest := s[i..];
    rest[..KeptPrefix(rule, rest)]
  }

  /**
   * The trim is the infix of the string that starts after the leading
   * trimmable run, neither starts nor ends with a trimmable character, and
   * leaves only trimmable characters after it.
   */
  lemma TrimSpec(rule: TrimRule, s: string)
    ensures Trim(rule, s) != [] ==> !IsTrimmable(rule, Trim(rule, s)[0]) && !IsTrimmable(rule, Trim(rule, s)[|Trim(rule, s)| - 1])
    ensures LeadingCount(rule, s) + |Trim(rule, s)| <= |s|
    ensures Trim(rule, s) == s[LeadingCount(rule, s)..LeadingCount(rule, s) + |Trim(rule, s)|]
    ensures forall k :: LeadingCount(rule, s) + |Trim(rule, s)| <= k < |s| ==> IsTrimmable(rule, s[k])
  {
    var i := LeadingCount(rule, s);
    var rest := s[i..];
    var n := KeptPrefix(rule, rest);
    var r := rest[..n];
    assert r == Trim(rule, s);
    assert r == s[i..i + n];
    TrimEnds(rule, s);
    KeptPrefixSpec(rule, rest);
    forall k | i + n <= k < |s|
      ensures IsTrimmable(rule, s[k])
    {
      assert s[k] == rest[k - i];
    }
  }

  lemma TrimEnds(rule: TrimRule, s: string)
    ensures Trim(rule, s) != [] ==> !IsTrimmable(rule, Trim(rule, s)[0]) && !IsTrimmable(rule, Trim(rule, s)[|Trim(rule, s)| - 1])
  {
    var i := LeadingCount(rule, s);
    var rest := s[i..];
    var n := KeptPrefix(rule, rest);
    LeadingCountSpec(rule, s);
    KeptPrefixSpec(rule, rest);
    if n > 0 {
      assert rest[0] == s[i];
      assert Trim(rule, s)[0] == rest[0];
      assert Trim(rule, s)[n - 1] == rest[n - 1];
    }
  }

  /** A string that neither starts nor ends with a trimmable character is its own trim. */
  lemma TrimOfTrimmed(rule: TrimRule, s: string)
    requires s != [] ==> !IsTrimmable(rule, s[0]) && !IsTrimmable(rule, s[|s| - 1])
    ensures Trim(rule, s) == s
  {
    assert s[0..] == s;
    assert s[..|s|] == s;
  }

  /** Trimming twice is trimming once. */
  lemma TrimIdempotent(rule: TrimRule, s: string)
    ensures Trim(rule, Trim(rule, s)) == Trim(rule, s)
  {
    TrimSpec(rule, s);
    TrimOfTrimmed(rule, Trim(rule, s));
  }

  /** Whether a string is empty or white space only, under the rule. */
  predicate IsBlank(rule: TrimRule, s: string)
  {
    Trim(rule, s) == []
  }

  function LowerChar(c: char): (d: char)
    ensures 'A' <= c <= 'Z' ==> 'a' <= d <= 'z'
    ensures !('A' <= c <= 'Z') ==> d == c
  {
    if 'A' <= c <= 'Z' then (c as int - 'A' as int + 'a' as int) as char else c
  }

  /** toLowerCase on the ASCII letters; every other character is kept. */
  function ToLower(s: string): (r: string)
    ensures |r| == |s|
    ensures forall k :: 0 <= k < |s| ==> r[k] == LowerChar(s[k])
  {
    seq(|s|, k requires 0 <= k < |s| => LowerChar(s[k]))
  }

  /** Lower-casing is idempotent. */
  lemma ToLowerIdempotent(s: string)
    ensures ToLower(ToLower(s)) == ToLower(s)
  {
  }

  predicate IsPrefix(p: string, s: string)
  {
    |p| <= |s| && s[..|p|] == p
  }

  /** The index of the first occurrence of c at or after `from`, if any. */
  function IndexOfFrom(s: string, c: char, from: nat): (r: int)
    ensures r == -1 || from <= r < |s|
    decreases |s| - from
  {
    if from >= |s| then -1 else if s[from] == c then from else IndexOfFrom(s, c, from + 1)
  }

  /** The search from `from` finds the first occurrence at or after it, and -1 only when there is none. */
  lemma {:induction false} IndexOfFromSpec(s: string, c: char, from: nat)
    ensures var r := IndexOfFrom(s, c, from);
      && (r >= 0 ==> s[r] == c && forall k :: from <= k < r ==> s[k] != c)
      && (r == -1 ==> forall k :: from <= k < |s| ==> s[k] != c)
    decreases |s| - from
  {
    if from < |s| && s[from] != c {
      IndexOfFromSpec(s, c, from + 1);
    }
  }

  /** indexOf for one character: the first position, or -1 when absent. */
  function IndexOf(s: string, c: char): (r: int)
    ensures r == -1 || 0 <= r < |s|
  {
    IndexOfFrom(s, c, 0)
  }

  /** indexOf finds the first occurrence, and -1 exactly when there is none. */
  lemma IndexOfSpec(s: string, c: char)
    ensures var r := IndexOf(s, c);
      && (r >= 0 ==> s[r] == c && forall k :: 0 <= k < r ==> s[k] != c)
      && (r == -1 <==> forall k :: 0 <= k < |s| ==> s[k] != c)
  {
    IndexOfFromSpec(s, c, 0);
  }

  /** lastIndexOf for one character: the last position, or -1 when absent. */
  function LastIndexOf(s: string, c: char): (r: int)
    ensures r == -1 || 0 <= r < |s|
  {
    if s == [] then -1 else if s[|s| - 1] == c then |s| - 1 else LastIndexOf(s[..|s| - 1], c)
  }

  /** lastIndexOf finds the last occurrence, and -1 exactly when there is none. */
  lemma {:induction false} LastIndexOfSpec(s: string, c: char)
    ensures var r := LastIndexOf(s, c);
      && (r >= 0 ==> s[r] == c && forall k :: r < k < |s| ==> s[k] != c)
      && (r == -1 <==> forall k :: 0 <= k < |s| ==> s[k] != c)
    decreases |s|
  {
    if s != [] && s[|s| - 1] != c {
      LastIndexOfSpec(s[..|s| - 1], c);
    }
  }

  /** The last occurrence of c in a + [c] + b, when b has none, is the one between them. */
  lemma {:induction false} LastIndexOfAfter(a: string, c: char, b: string)
    requires c !in b
    ensures LastIndexOf(a + [c] + b, c) == |a|
    decreases |b|
  {
    var s := a + [c] + b;
    if b != [] {
      assert s[|s| - 1] == b[|b| - 1];
      assert s[..|s| - 1] == a + [c] + b[..|b| - 1];
      LastIndexOfAfter(a, c, b[..|b| - 1]);
    }
  }

  /** split on a single-character separator: the pieces between separators, in order. */
  function Split(s: string, sep: char): (parts: seq<string>)
    ensures |parts| >= 1
    decreases |s|
  {
    var i := IndexOf(s, sep);
    if i < 0 then [s] else [s[..i]] + Split(s[i + 1..], sep)
  }

  /** No piece of a split contains the separator. */
  lemma {:induction false} SplitPiecesAvoidSeparator(s: string, sep: char)
    ensures forall i :: 0 <= i < |Split(s, sep)| ==> sep !in Split(s, sep)[i]
    decreases |s|
  {
    var i := IndexOf(s, sep);
    IndexOfSpec(s, sep);
    if i >= 0 {
      SplitPiecesAvoidSeparator(s[i + 1..], sep);
      assert sep !in s[..i];
    }
  }

  /**
   * split on a character class: the pieces between single separator
   * characters, in order (consecutive separators give empty pieces).
   */
  function SplitAny(s: string, seps: set<char>): (parts: seq<string>)
    ensures |parts| >= 1
    decreases |s|
  {
    if s == [] then [[]]
    else
      var rest := SplitAny(s[1..], seps);
      if s[0] in seps then [[]] + rest else [[s[0]] + rest[0]] + rest[1..]
  }

  /** No piece of a split on a set of separators holds one of them. */
  lemma {:induction false} SplitAnyPiecesAvoidSeparators(s: string, seps: set<char>)
    ensures forall i, k :: 0 <= i < |SplitAny(s, seps)| && 0 <= k < |SplitAny(s, seps)[i]| ==> SplitAny(s, seps)[i][k] !in seps
    decreases |s|
  {
    if s != [] {
      SplitAnyPiecesAvoidSeparators(s[1..], seps);
      var rest := SplitAny(s[1..], seps);
      var parts := SplitAny(s, seps);
      forall i, k | 0 <= i < |parts| && 0 <= k < |parts[i]|
        ensures parts[i][k] !in seps
      {
        if s[0] in seps {
          assert parts == [[]] + rest;
          assert parts[i][k] == rest[i - 1][k];
        } else {
          assert parts == [[s[0]] + rest[0]] + rest[1..];
          if i > 0 {
            assert parts[i][k] == rest[i][k];
          } else if k > 0 {
            assert parts[i][k] == rest[0][k - 1];
          }
        }
      }
    }
  }

  /** join with a separator. */
  function Join(parts: seq<string>, sep: string): string
  {
    if parts == [] then [] else if |parts| == 1 then parts[0] else parts[0] + sep + Join(parts[1..], sep)
  }

  /** The first occurrence of c in a + [c] + b, where a does not hold c, is at |a|. */
  lemma {:induction false} IndexOfFromBefore(a: string, c: char, b: string, from: nat)
    requires from <= |a| && c !in a
    ensures IndexOfFrom(a + [c] + b, c, from) == |a|
    decreases |a| - from
  {
    var s := a + [c] + b;
    if from < |a| {
      assert s[from] == a[from];
      IndexOfFromBefore(a, c, b, from + 1);
    } else {
      assert s[from] == c;
    }
  }

  /** Splitting a piece without the separator, the separator and a rest gives the piece, then the rest's pieces. */
  lemma SplitAfterPiece(head: string, sep: char, tail: string)
    requires sep !in head
    ensures Split(head + [sep] + tail, sep) == [head] + Split(tail, sep)
  {
    var s := head + [sep] + tail;
    IndexOfFromBefore(head, sep, tail, 0);
    assert s[..|head|] == head;
    assert s[|head| + 1..] == tail;
  }

  /** Joining the pieces of a split with the same separator gives the string back. */
  lemma {:induction false} JoinSplit(s: string, sep: char)
    ensures Join(Split(s, sep), [sep]) == s
    decreases |s|
  {
    var i := IndexOf(s, sep);
    if i >= 0 {
      var tail := s[i + 1..];
      IndexOfSpec(s, sep);
      JoinSplit(tail, sep);
      assert s == s[..i] + [sep] + tail;
    }
  }

  /** Splitting a join of separator-free pieces gives the pieces back. */
  lemma {:induction false} SplitJoin(parts: seq<string>, sep: char)
    requires |parts| >= 1 && forall i :: 0 <= i < |parts| ==> sep !in parts[i]
    ensures Split(Join(parts, [sep]), sep) == parts
    decreases |parts|
  {
    if |parts| == 1 {
      IndexOfSpec(parts[0], sep);
    } else {
      var tail := Join(parts[1..], [sep]);
      SplitAfterPiece(parts[0], sep, tail);
      SplitJoin(parts[1..], sep);
      assert [parts[0]] + parts[1..] == parts;
    }
  }

  function DigitChar(d: nat): char
    requires d < 10
  {
    ('0' as int + d) as char
  }

  /** The decimal digits of a natural number, most significant first, without leading zeros. */
  function NatToString(n: nat): (s: string)
    ensures |s| >= 1
    ensures forall k :: 0 <= k < |s| ==> '0' <= s[k] <= '9'
    ensures n > 0 ==> s[0] != '0'
    decreases n
  {
    if n < 10 then [DigitChar(n)] else NatToString(n / 10) + [DigitChar(n % 10)]
  }

  /** String(n) for an integer: a leading '-' for negative numbers. */
  function IntToString(n: int): (s: string)
    ensures |s| >= 1
    ensures n < 0 <==> s[0] == '-'
  {
    if n < 0 then "-" + NatToString(-n) else NatToString(n)
  }

  /** The value of a string of decimal digits. */
  function DigitsValue(s: string): nat
    requires forall k :: 0 <= k < |s| ==> '0' <= s[k] <= '9'
  {
    if s == [] then 0 else 10 * DigitsValue(s[..|s| - 1]) + (s[|s| - 1] as int - '0' as int)
  }

  /** Decimal rendering reads back as the same number. */
  lemma {:induction false} NatToStringValue(n: nat)
    ensures DigitsValue(NatToString(n)) == n
    decreases n
  {
    if n >= 10 {
      NatToStringValue(n / 10);
      var s := NatToString(n);
      assert s[..|s| - 1] == NatToString(n / 10);
    }
  }

  /** Distinct numbers render as distinct strings. */
  lemma IntToStringInjective(a: int, b: int)
    requires IntToString(a) == IntToString(b)
    ensures a == b
  {
    if a < 0 {
      assert b < 0;
      assert NatToString(-a) == IntToString(a)[1..];
      assert NatToString(-b) == IntToString(b)[1..];
      NatToStringInjective(-a, -b);
    } else {
      assert b >= 0;
      NatToStringInjective(a, b);
    }
  }

  lemma NatToStringInjective(a: nat, b: nat)
    requires NatToString(a) == NatToString(b)
    ensures a == b
  {
    NatToStringValue(a);
    NatToStringValue(b);
    var s := NatToString(a);
    assert a == DigitsValue(s);
  }

  /** Whether every character is an ASCII decimal digit and there is at least one. */
  predicate IsDigits(s: string)
  {
    |s| > 0 && forall k :: 0 <= k < |s| ==> '0' <= s[k] <= '9'
  }

  // ---------------------------------------------------------------------------
  // parseInt(text, 10)
  // ---------------------------------------------------------------------------

  predicate IsDigitChar(c: char)
  {
    '0' <= c <= '9'
  }

  /** The number of decimal digits s starts with. */
  function DigitRun(s: string): (n: nat)
    ensures n <= |s|
    ensures forall k :: 0 <= k < n ==> IsDigitChar(s[k])
    ensures n < |s| ==> !IsDigitChar(s[n])
  {
    if s == [] || !IsDigitChar(s[0]) then 0 else 1 + DigitRun(s[1..])
  }

  /**
   * parseInt(text, 10): leading white space skipped, an optional sign,
   * then the longest run of decimal digits; no digit at all is NaN (None).
   * Whatever follows the digits is ignored.
   */
  function ParseInt(s: string): (r: Option<int>)
    ensures r.Some? ==> |s| > 0
  {
    var t := s[LeadingCount(JsTrim, s)..];
    var negative := |t| > 0 && t[0] == '-';
    var body := if |t| > 0 && (t[0] == '-' || t[0] == '+') then t[1..] else t;
    var n := DigitRun(body);
    if n == 0 then None
    else if negative then Some(0 - DigitsValue(body[..n]))
    else Some(DigitsValue(body[..n]) as int)
  }

  /** Digits followed by text that does not start with a digit read as the digits' value. */
  lemma ParseIntReadsDigits(n: nat, rest: string)
    requires rest == [] || !IsDigitChar(rest[0])
    ensures ParseInt(NatToString(n) + rest) == Some(n)
  {
    var d := NatToString(n);
    var s := d + rest;
    assert s[0] == d[0];
    assert LeadingCount(JsTrim, s) == 0;
    assert s[0..] == s;
    assert DigitRun(s) == |d| by {
      DigitRunOfDigits(d, rest);
    }
    assert s[..|d|] == d;
    NatToStringValue(n);
  }

  /** A digit string reads back as its value. */
  lemma ParseIntOfDigits(s: string)
    requires IsDigits(s)
    ensures ParseInt(s) == Some(DigitsValue(s) as int)
  {
    assert !IsTrimmable(JsTrim, s[0]);
    assert s[LeadingCount(JsTrim, s)..] == s;
    DigitRunOfDigits(s, []);
    assert s + [] == s;
    assert s[..|s|] == s;
  }

  lemma {:induction false} DigitRunOfDigits(d: string, rest: string)
    requires forall k :: 0 <= k < |d| ==> IsDigitChar(d[k])
    requires rest == [] || !IsDigitChar(rest[0])
    ensures DigitRun(d + rest) == |d|
    decreases |d|
  {
    if d != [] {
      assert (d + rest)[1..] == d[1..] + rest;
      DigitRunOfDigits(d[1..], rest);
    } else {
      assert d + rest == rest;
    }
  }

  /** Leading white space followed by a kept character is exactly what the trim count skips. */
  lemma {:induction false} LeadingCountOfWhiteSpace(rule: TrimRule, w: string, r: string)
    requires forall k :: 0 <= k < |w| ==> IsTrimmable(rule, w[k])
    requires r == [] || !IsTrimmable(rule, r[0])
    ensures LeadingCount(rule, w + r) == |w|
    decreases |w|
  {
    if w == [] {
      assert w + r == r;
    } else {
      assert (w + r)[1..] == w[1..] + r;
      LeadingCountOfWhiteSpace(rule, w[1..], r);
    }
  }

  /**
   * A text that, after its leading white space and an optional sign, does
   * not start with a digit reads as NaN; the empty text is one of them.
   */
  lemma ParseIntNaN(w: string, sign: string, rest: string)
    requires forall k :: 0 <= k < |w| ==> IsTrimmable(JsTrim, w[k])
    requires sign == "" || sign == "-" || sign == "+"
    requires rest == [] || !IsDigitChar(rest[0])
    requires sign == "" && rest != [] ==> !IsTrimmable(JsTrim, rest[0]) && rest[0] != '-' && rest[0] != '+'
    ensures ParseInt(w + sign + rest) == None
  {
    var s := w + sign + rest;
    assert s == w + (sign + rest);
    LeadingCountOfWhiteSpace(JsTrim, w, sign + rest);
    assert s[|w|..] == sign + rest;
    if sign != "" {
      assert (sign + rest)[1..] == rest;
    } else {
      assert sign + rest == rest;
    }
  }

  /** Lexicographic order on strings by UTF-16 code unit, as JavaScript's sort and Java's compareTo compare them. */
  predicate StringLess(a: string, b: string)
    decreases |a|
  {
    if a == [] then b != []
    else if b == [] then false
    else if a[0] != b[0] then a[0] < b[0]
    else StringLess(a[1..], b[1..])
  }

  predicate StringLessEq(a: string, b: string)
  {
    a == b || StringLess(a, b)
  }

  /** The string order is a strict total order. */
  lemma {:induction false} StringLessTrichotomy(a: string, b: string)
    ensures StringLess(a, b) || a == b || StringLess(b, a)
    ensures !(StringLess(a, b) && StringLess(b, a))
    ensures !StringLess(a, a)
    decreases |a|
  {
    if a != [] && b != [] && a[0] == b[0] {
      StringLessTrichotomy(a[1..], b[1..]);
      if a[1..] == b[1..] {
        assert a == [a[0]] + a[1..] && b == [b[0]] + b[1..];
      }
    }
    if a != [] {
      StringLessTrichotomy(a[1..], a[1..]);
    }
  }

  lemma {:induction false} StringLessTransitive(a: string, b: string, c: string)
    requires StringLess(a, b) && StringLess(b, c)
    ensures StringLess(a, c)
    decreases |a|
  {
    if a != [] && b != [] && c != [] && a[0] == b[0] && b[0] == c[0] {
      StringLessTransitive(a[1..], b[1..], c[1..]);
    }
  }
}
