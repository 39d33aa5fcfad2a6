/** Text helpers the other modules share. */
module Text {

  /** The characters with the Unicode `White_Space` property. */
  predicate IsWhitespace(c: char) {
    var n := c as int;
    || 9 <= n <= 13 || n == 32 || n == 0x85 || n == 0xA0 || n == 0x1680
    || 0x2000 <= n <= 0x200A || n == 0x2028 || n == 0x2029 || n == 0x202F || n == 0x205F || n == 0x3000
  }

  function TrimStart(s: string): string {
    if s != "" && IsWhitespace(s[0]) then TrimStart(s[1..]) else s
  }

  function TrimEnd(s: string): string {
    if s != "" && IsWhitespace(s[|s| - 1]) then TrimEnd(s[..|s| - 1]) else s
  }

  function Trim(s: string): string {
    TrimEnd(TrimStart(s))
  }

  /** Nothing is left of `s` once trimmed. */
  predicate IsBlank(s: string) {
    s == "" || (IsWhitespace(s[0]) && IsBlank(s[1..]))
  }

  lemma {:induction false} BlankTrimsAway(s: string)
    ensures IsBlank(s) <==> TrimStart(s) == ""
  {
    if s != "" {
      BlankTrimsAway(s[1..]);
    }
  }

  /** What `Trim` leaves stands between whitespace and neither starts nor ends with any. */
  ghost predicate IsTrimmed(s: string, r: string) {
    && (r != "" ==> !IsWhitespace(r[0]) && !IsWhitespace(r[|r| - 1]))
    && exists front, back :: s == front + r + back && AreWhitespace(front) && AreWhitespace(back)
  }

  ghost predicate AreWhitespace(s: string) {
    forall i | 0 <= i < |s| :: IsWhitespace(s[i])
  }

  lemma {:induction false} BlankExactly(s: string)
    ensures IsBlank(s) <==> AreWhitespace(s)
  {
    if s != "" {
      BlankExactly(s[1..]);
      assert forall i | 0 <= i < |s| - 1 :: s[1..][i] == s[i + 1];
    }
  }

  lemma {:induction false} TrimStartCuts(s: string) returns (front: string)
    ensures s == front + TrimStart(s) && AreWhitespace(front)
    ensures TrimStart(s) != "" ==> !IsWhitespace(TrimStart(s)[0])
  {
    if s != "" && IsWhitespace(s[0]) {
      front := TrimStartCuts(s[1..]);
      front := [s[0]] + front;
    } else {
      front := "";
    }
  }

  lemma {:induction false} TrimEndCuts(s: string) returns (back: string)
    ensures s == TrimEnd(s) + back && AreWhitespace(back)
    ensures TrimEnd(s) != "" ==> !IsWhitespace(TrimEnd(s)[|TrimEnd(s)| - 1])
  {
    if s != "" && IsWhitespace(s[|s| - 1]) {
      back := TrimEndCuts(s[..|s| - 1]);
      back := back + [s[|s| - 1]];
    } else {
      back := "";
    }
  }

  lemma TrimsExactly(s: string)
    ensures IsTrimmed(s, Trim(s))
  {
    var front := TrimStartCuts(s);
    var back := TrimEndCuts(TrimStart(s));
    assert s == front + Trim(s) + back;
  }

  lemma BlankTrims(s: string)
    ensures IsBlank(s) <==> Trim(s) == ""
  {
    var front := TrimStartCuts(s);
    var back := TrimEndCuts(TrimStart(s));
    BlankExactly(s);
    if Trim(s) == "" {
      assert s == front + back;
    } else {
      var c := Trim(s)[0];
      assert s[|front|] == Trim(s)[0] && !IsWhitespace(TrimStart(s)[0]);
    }
  }

  function LowerChar(c: char): char {
    if 'A' <= c <= 'Z' then (c as int + 32) as char else c
  }

  /** ASCII lower case. */
  function Lower(s: string): (r: string)
    ensures |r| == |s|
  {
    seq(|s|, i requires 0 <= i < |s| => LowerChar(s[i]))
  }

  /** `s` is `lower` but for the case of ASCII letters. */
  predicate SpellsLower(s: string, lower: string) {
    && |s| == |lower|
    && forall i | 0 <= i < |s| :: s[i] == lower[i] || ('A' <= s[i] <= 'Z' && s[i] as int + 32 == lower[i] as int)
  }

  lemma LowerSpells(s: string, lower: string)
    requires forall i | 0 <= i < |lower| :: 'a' <= lower[i] <= 'z'
    ensures Lower(s) == lower <==> SpellsLower(s, lower)
  {
    if Lower(s) == lower {
      assert forall i | 0 <= i < |s| :: Lower(s)[i] == lower[i];
    }
    if SpellsLower(s, lower) {
      assert forall i | 0 <= i < |s| :: Lower(s)[i] == lower[i];
    }
  }

  /** The parts of `s` between the characters that `cuts` accepts. */
  function SplitOn(s: string, cuts: char -> bool): (parts: seq<string>)
    ensures parts != []
  {
    if s == "" then [""]
    else
      var rest := SplitOn(s[1..], cuts);
      if cuts(s[0]) then [""] + rest else [[s[0]] + rest[0]] + rest[1..]
  }

  lemma {:induction false} NothingToSplit(s: string, cuts: char -> bool)
    requires forall i | 0 <= i < |s| :: !cuts(s[i])
    ensures SplitOn(s, cuts) == [s]
  {
    if s != "" {
      NothingToSplit(s[1..], cuts);
      assert [s[0]] + s[1..] == s;
    }
  }

  /** The parts of a text with the separators that stood between them. */
  function Joined(parts: seq<string>, seps: string): string
    requires |parts| == |seps| + 1
  {
    if seps == "" then parts[0] else parts[0] + [seps[0]] + Joined(parts[1..], seps[1..])
  }

  /** Cutting `s` at every separator leaves the parts. */
  ghost predicate AreParts(s: string, parts: seq<string>, seps: string, cuts: char -> bool) {
    && |parts| == |seps| + 1 && s == Joined(parts, seps)
    && (forall i | 0 <= i < |seps| :: cuts(seps[i]))
    && forall i | 0 <= i < |parts| :: forall j | 0 <= j < |parts[i]| :: !cuts(parts[i][j])
  }

  lemma {:induction false} SplitIsParts(s: string, cuts: char -> bool) returns (seps: string)
    ensures AreParts(s, SplitOn(s, cuts), seps, cuts)
  {
    if s == "" {
      seps := "";
    } else {
      var rest, parts := SplitOn(s[1..], cuts), SplitOn(s, cuts);
      seps := SplitIsParts(s[1..], cuts);
      if cuts(s[0]) {
        assert parts[1..] == rest;
        seps := [s[0]] + seps;
      } else {
        assert parts[1..] == rest[1..];
        assert parts[0] == [s[0]] + rest[0];
      }
    }
  }

  predicate EndsWith(s: string, suffix: string) {
    |s| >= |suffix| && s[|s| - |suffix|..] == suffix
  }

  predicate IsDigit(c: char) {
    '0' <= c <= '9'
  }

  function Digit(n: nat): (c: char)
    requires n < 10
    ensures '0' <= c <= '9'
  {
    ('0' as int + n) as char
  }

  function Decimal(n: nat): (s: string)
    ensures s != ""
  {
    if n < 10 then [Digit(n)] else Decimal(n / 10) + [Digit(n % 10)]
  }

  predicate AreDigits(s: string) {
    forall i | 0 <= i < |s| :: IsDigit(s[i])
  }

  function Value(digits: string): nat {
    if digits == "" then 0
    else
      var c := digits[|digits| - 1];
      10 * Value(digits[..|digits| - 1]) + if IsDigit(c) then c as int - '0' as int else 0
  }

  lemma {:induction false} ValueUndoesDecimal(n: nat)
    ensures AreDigits(Decimal(n)) && Value(Decimal(n)) == n
  {
    if n < 10 {
      assert [Digit(n)][..0] == "";
    } else {
      ValueUndoesDecimal(n / 10);
      var front := Decimal(n / 10);
      assert (front + [Digit(n % 10)])[..|front|] == front;
    }
  }

  /** No digits with the same value are fewer, and none other are as few. */
  lemma {:induction false} DecimalIsShortest(digits: string)
    requires digits != "" && AreDigits(digits)
    ensures var d := Decimal(Value(digits)); |d| <= |digits| && (|d| == |digits| ==> d == digits)
  {
    var front, n := digits[..|digits| - 1], Value(digits);
    if n < 10 {
      assert |digits| == 1 ==> front == "" && digits == [Digit(n)];
    } else {
      DecimalIsShortest(front);
      assert digits == front + [digits[|digits| - 1]];
    }
  }

  predicate AreZeros(s: string) {
    forall i | 0 <= i < |s| :: s[i] == '0'
  }

  lemma {:induction false} DigitsSpell(digits: string) returns (zeros: string)
    requires digits != "" && AreDigits(digits)
    ensures AreZeros(zeros) && digits == zeros + Decimal(Value(digits))
  {
    var front, last := digits[..|digits| - 1], digits[|digits| - 1];
    assert digits == front + [last];
    if front == "" {
      zeros := "";
      assert Value(front) == 0;
    } else {
      zeros := DigitsSpell(front);
      if Value(front) == 0 {
        zeros := front;
      } else {
        assert Decimal(Value(digits)) == Decimal(Value(front)) + [last];
      }
    }
  }

  lemma {:induction false} ZerosAddNothing(zeros: string, digits: string)
    requires AreZeros(zeros) && digits != "" && AreDigits(digits)
    ensures AreDigits(zeros + digits) && Value(zeros + digits) == Value(digits)
    decreases |digits|
  {
    var all, front := zeros + digits, digits[..|digits| - 1];
    assert all[..|all| - 1] == zeros + front;
    if front == "" {
      ZerosAreZero(zeros);
      assert zeros + front == zeros;
    } else {
      ZerosAddNothing(zeros, front);
    }
  }

  lemma {:induction false} ZerosAreZero(zeros: string)
    requires AreZeros(zeros)
    ensures Value(zeros) == 0
  {
    if zeros != "" {
      ZerosAreZero(zeros[..|zeros| - 1]);
    }
  }

  /** A decimal has no leading zero. */
  lemma {:induction false} DecimalLeads(n: nat)
    requires n >= 10
    ensures Decimal(n)[0] != '0' && |Decimal(n)| > 1
  {
    assert Decimal(n) == Decimal(n / 10) + [Digit(n % 10)];
    if n >= 100 {
      DecimalLeads(n / 10);
    }
  }

  /** Digits without a leading zero are a decimal, and decimals are nothing else. */
  lemma DecimalExactly(s: string)
    ensures (exists n: nat :: s == Decimal(n)) <==> s != "" && AreDigits(s) && (|s| > 1 ==> s[0] != '0')
  {
    if s != "" && AreDigits(s) && (|s| > 1 ==> s[0] != '0') {
      var zeros := DigitsSpell(s);
      assert s[..|zeros|] == zeros;
      assert s == Decimal(Value(s));
    }
    if n: nat :| s == Decimal(n) {
      ValueUndoesDecimal(n);
      if n >= 10 {
        DecimalLeads(n);
      }
    }
  }

  // ---------- Key order ----------

  /** Lexicographic order by code point, the order of the keys of a map. */
  predicate Leq(a: string, b: string) {
    a == "" || (b != "" && (a[0] < b[0] || (a[0] == b[0] && Leq(a[1..], b[1..]))))
  }

  lemma {:induction false} LeqTotal(a: string, b: string)
    ensures Leq(a, b) || Leq(b, a)
    ensures Leq(a, b) && Leq(b, a) ==> a == b
    ensures Leq(a, a)
  {
    if a != "" && b != "" {
      LeqTotal(a[1..], b[1..]);
      if a[1..] == b[1..] && a[0] == b[0] {
        assert a == [a[0]] + a[1..] == b;
      }
    }
    LeqReflexive(a);
  }

  lemma {:induction false} LeqReflexive(a: string)
    ensures Leq(a, a)
  {
    if a != "" {
      LeqReflexive(a[1..]);
    }
  }

  lemma {:induction false} LeqTransitive(a: string, b: string, c: string)
    requires Leq(a, b) && Leq(b, c)
    ensures Leq(a, c)
  {
    if a != "" && a[0] == b[0] == c[0] {
      LeqTransitive(a[1..], b[1..], c[1..]);
    }
  }

  ghost predicate IsLeast(keys: set<string>, k: string) {
    k in keys && forall j <- keys :: Leq(k, j)
  }

  lemma {:induction false} LeastExists(keys: set<string>)
    requires keys != {}
    ensures exists k :: IsLeast(keys, k)
    decreases keys
  {
    var any :| any in keys;
    var rest := keys - {any};
    LeqReflexive(any);
    assert forall j <- keys :: j == any || j in rest;
    if rest == {} {
      assert IsLeast(keys, any);
    } else {
      LeastExists(rest);
      var least :| IsLeast(rest, least);
      LeqTotal(any, least);
      if Leq(least, any) {
        assert IsLeast(keys, least);
      } else {
        forall j <- rest ensures Leq(any, j) {
          LeqTransitive(any, least, j);
        }
        assert IsLeast(keys, any);
      }
    }
  }

  lemma LeastIsOne(keys: set<string>, a: string, b: string)
    requires IsLeast(keys, a) && IsLeast(keys, b)
    ensures a == b
  {
    LeqTotal(a, b);
  }

  /** The keys in order, each once. */
  ghost function Sorted(keys: set<string>): (s: seq<string>)
    ensures forall k :: k in s <==> k in keys
    ensures |s| == |keys|
  {
    if keys == {} then []
    else
      LeastExists(keys);
      var k :| IsLeast(keys, k);
      [k] + Sorted(keys - {k})
  }

  lemma {:induction false} SortedAscends(keys: set<string>)
    ensures var s := Sorted(keys); forall i, j | 0 <= i < j < |s| :: Leq(s[i], s[j]) && s[i] != s[j]
    decreases keys
  {
    if keys != {} {
      LeastExists(keys);
      var s := Sorted(keys);
      assert IsLeast(keys, s[0]) && s[1..] == Sorted(keys - {s[0]});
      SortedAscends(keys - {s[0]});
      forall i, j | 0 <= i < j < |s| ensures Leq(s[i], s[j]) && s[i] != s[j] {
        assert s[j] == s[1..][j - 1] && s[j] in s[1..];
        if i > 0 {
          assert s[i] == s[1..][i - 1];
        }
      }
    }
  }

  method SortKeys(keys: set<string>) returns (s: seq<string>)
    ensures s == Sorted(keys)
  {
    s := [];
    var rest := keys;
    while rest != {}
      invariant Sorted(keys) == s + Sorted(rest)
      decreases |rest|
    {
      LeastExists(rest);
      ghost var least :| IsLeast(rest, least);
      var k :| k in rest && forall j <- rest :: Leq(k, j);
      ghost var first := Sorted(rest)[0];
      LeastIsOne(rest, k, first);
      s := s + [k];
      rest := rest - {k};
    }
  }
}
