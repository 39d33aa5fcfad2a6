/** What the walk over a pattern lets pass, node by node, from the text of the node. */
module CostSyntax {
  import opened Wrappers
  import opened Costs
  import Text

  // ---------- Escapes ----------

  /** Two octal digits end the escape. */
  predicate IsOctalEscape(text: string) {
    |text| == 4 && '0' <= text[2] <= '7' && '0' <= text[3] <= '7'
  }

  predicate AreHex(s: string) {
    s != "" && forall i | 0 <= i < |s| :: s[i] in "0123456789abcdefABCDEF"
  }

  /** `\\xhh` with exactly two digits, or `\\x{h...}` with any. */
  predicate IsHexEscape(text: string) {
    || (|text| == 4 && text[2] != '{' && AreHex(text[2..]))
    || (|text| >= 4 && text[2] == '{' && text[|text| - 1] == '}' && AreHex(text[3..|text| - 1]))
  }

  /** The escape means the same in both dialects; what is no escape always does. */
  predicate IsCommonEscape(text: string) {
    if |text| < 2 || text[0] != '\\' then true
    else
      var c := text[1];
      if c == 'x' then IsHexEscape(text)
      else if c == '0' then |text| == 2 || IsOctalEscape(text)
      else if '1' <= c <= '3' then IsOctalEscape(text)
      else c in "sSaftnrvAzbBdDwW" || !('4' <= c <= '9' || 'a' <= c <= 'z' || 'A' <= c <= 'Z' || c in "<>")
  }

  lemma HexDigitsAre(s: string)
    ensures AreHex(s) <==> s != "" && forall i | 0 <= i < |s| :: IsHex(s[i])
  {}

  lemma HexEscapeExactly(text: string)
    requires |text| >= 2 && text[0] == '\\' && text[1] == 'x'
    ensures ValidateEscape(text) == if IsHexEscape(text) then Ok(()) else Err(HexEscape)
  {
    if |text| >= 4 {
      HexDigitsAre(text[3..|text| - 1]);
      HexDigitsAre(text[2..]);
      assert |text| == 4 ==> text[2..][0] == text[2] && text[2..][1] == text[3];
    }
  }

  /** An escape is let through exactly when both dialects read it alike, and otherwise named
    * by its kind. */
  lemma EscapeExactly(text: string)
    ensures ValidateEscape(text).Ok? <==> IsCommonEscape(text)
    ensures ValidateEscape(text).Err? ==>
              ValidateEscape(text).error == if text[1] == 'x' then HexEscape
                                            else if text[1] in "QE" then LiteralQuoting
                                            else EscapeSequence
  {
    if |text| >= 2 && text[0] == '\\' && text[1] == 'x' {
      HexEscapeExactly(text);
    }
  }

  // ---------- Groups and flags ----------

  predicate IsWordChar(c: char) {
    'a' <= c <= 'z' || 'A' <= c <= 'Z' || '0' <= c <= '9' || c == '_'
  }

  /** A group name is made of letters, digits and underscores; of flags only four pass. */
  lemma GroupExactly(kind: GroupKind)
    ensures ValidateGroup(kind).Ok?
            <==> match kind
                 case CaptureIndex => true
                 case CaptureName(name) => name != "" && forall i | 0 <= i < |name| :: IsWordChar(name[i])
                 case NonCapturing(flags) =>
                   forall f <- flags :: f.CaseInsensitive? || f.MultiLine? || f.DotMatchesNewLine? || f.SwapGreed?
  {}

  // ---------- Quantifiers ----------

  /** A quantifier without the `?` that makes it lazy. */
  function Greedy(op: string): string {
    if op != "" && op[|op| - 1] == '?' then op[..|op| - 1] else op
  }

  predicate IsBraced(op: string) {
    |op| >= 2 && op[0] == '{' && op[|op| - 1] == '}'
  }

  /** One count, a count and a comma, or two counts; none with leading zeros. */
  ghost predicate AreCounts(inner: string) {
    || (exists n: nat :: inner == Text.Decimal(n))
    || (exists n: nat :: inner == Text.Decimal(n) + ",")
    || (exists n: nat, m: nat :: inner == Text.Decimal(n) + "," + Text.Decimal(m))
  }

  lemma CountExactly(part: string, index: nat)
    ensures IsCount(part, index) <==> (index == 1 && part == "") || exists n: nat :: part == Text.Decimal(n)
  {
    Text.DecimalExactly(part);
  }

  ghost predicate PartsAreCounts(parts: seq<string>) {
    |parts| <= 2 && forall i | 0 <= i < |parts| :: IsCount(parts[i], i)
  }

  lemma CountsOfParts(inner: string)
    requires PartsAreCounts(Text.SplitOn(inner, IsComma))
    ensures AreCounts(inner)
  {
    var parts := Text.SplitOn(inner, IsComma);
    var seps := Text.SplitIsParts(inner, IsComma);
    CountExactly(parts[0], 0);
    var n: nat :| parts[0] == Text.Decimal(n);
    if |parts| == 1 {
      assert inner == parts[0];
    } else {
      assert Text.Joined(parts[1..], seps[1..]) == parts[1];
      assert inner == parts[0] + "," + parts[1];
      CountExactly(parts[1], 1);
      if parts[1] != "" {
        var m: nat :| parts[1] == Text.Decimal(m);
      } else {
        assert inner == Text.Decimal(n) + ",";
      }
    }
  }

  lemma {:induction false} SplitAtOnly(a: string, b: string)
    requires ',' !in a && ',' !in b
    ensures Text.SplitOn(a + "," + b, IsComma) == [a, b]
  {
    var s := a + "," + b;
    if a == "" {
      assert s[0] == ',' && s[1..] == b;
      Text.NothingToSplit(b, IsComma);
    } else {
      SplitAtOnly(a[1..], b);
      assert s[1..] == a[1..] + "," + b;
      assert [a[0]] + a[1..] == a;
    }
  }

  lemma DecimalHasNoComma(n: nat)
    ensures ',' !in Text.Decimal(n)
  {
    Text.ValueUndoesDecimal(n);
  }

  lemma PartsOfCounts(inner: string)
    requires AreCounts(inner)
    ensures PartsAreCounts(Text.SplitOn(inner, IsComma))
  {
    if n: nat :| inner == Text.Decimal(n) {
      DecimalHasNoComma(n);
      Text.NothingToSplit(inner, IsComma);
      CountExactly(inner, 0);
    } else if n: nat :| inner == Text.Decimal(n) + "," {
      DecimalHasNoComma(n);
      assert inner == Text.Decimal(n) + "," + "";
      SplitAtOnly(Text.Decimal(n), "");
      CountExactly(Text.Decimal(n), 0);
    } else {
      var n: nat, m: nat :| inner == Text.Decimal(n) + "," + Text.Decimal(m);
      DecimalHasNoComma(n);
      DecimalHasNoComma(m);
      SplitAtOnly(Text.Decimal(n), Text.Decimal(m));
      CountExactly(Text.Decimal(n), 0);
      CountExactly(Text.Decimal(m), 1);
    }
  }

  /** A braced quantifier is let through exactly when it spells counts. */
  lemma QuantifierExactly(op: string)
    ensures var greedy := Greedy(op);
            ValidateQuantifier(op).Ok? <==> !IsBraced(greedy) || AreCounts(greedy[1..|greedy| - 1])
  {
    var greedy := Greedy(op);
    if IsBraced(greedy) {
      var inner := greedy[1..|greedy| - 1];
      var parts := Text.SplitOn(inner, IsComma);
      assert ValidateQuantifier(op) == ValidateCounts(parts);
      if PartsAreCounts(parts) {
        CountsOfParts(inner);
      }
      if AreCounts(inner) {
        PartsOfCounts(inner);
      }
    }
  }

  // ---------- Classes ----------

  /** A bare `-` stands right after the bracket, or after its `^`, and not before another; or
    * it stands last. */
  predicate DashIsLiteral(pattern: string, span: Span, class_: Span) {
    var first := span.start == class_.start + 1
                 || (span.start == class_.start + 2 && span.start <= |pattern| && pattern[span.start - 1] == '^');
    || span.end + 1 == class_.end
    || (first && (span.end + 1 < class_.end && span.end < |pattern| ==> pattern[span.end] != '-'))
  }

  lemma ClassLiteralExactly(pattern: string, span: Span, c: char, class_: Span)
    ensures ValidateClassLiteral(pattern, span, c, class_).Ok?
            <==> && IsCommonEscape(TextOf(pattern, span))
                 && (c == '-' && TextOf(pattern, span) == "-" ==> DashIsLiteral(pattern, span, class_))
  {
    EscapeExactly(TextOf(pattern, span));
  }

  lemma ClassRangeExactly(pattern: string, from: Span, to: Span)
    ensures ValidateClassRange(pattern, from, to).Ok?
            <==> && TextOf(pattern, from) != "-"
                 && IsCommonEscape(TextOf(pattern, from)) && IsCommonEscape(TextOf(pattern, to))
  {
    EscapeExactly(TextOf(pattern, from));
    EscapeExactly(TextOf(pattern, to));
  }
}
