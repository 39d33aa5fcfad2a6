/** The check that keeps a provider's cost patterns cheap: a walk over the parsed
  * regex that carries the depth and the product of the repetition counts on the
  * way down, and refuses what goes past either limit. */
module Costs {
  import opened Wrappers
  import Text

  const MAX_DEPTH := 64
  const MAX_PRODUCT := 1000
  const U32_MAX := 0xFFFF_FFFF

  // ---------- The parsed pattern ----------

  datatype Span = Span(start: nat, end: nat)

  datatype Flag = CaseInsensitive | MultiLine | DotMatchesNewLine | SwapGreed | OtherFlag

  datatype AssertionKind =
    StartLine | EndLine | StartText | EndText | WordBoundary | NotWordBoundary | OtherBoundary

  datatype GroupKind = CaptureIndex | CaptureName(name: string) | NonCapturing(flags: seq<Flag>)

  /** Counts are 32-bit, as the parser gives them. */
  datatype RepetitionKind =
    | ZeroOrOne | ZeroOrMore | OneOrMore
    | Exactly(n: nat) | AtLeast(n: nat) | Bounded(min: nat, max: nat)

  datatype ClassItem =
    | ClassLiteral(span: Span, c: char)
    | ClassRange(from: Span, to: Span)
    | AsciiClass | PerlItem | EmptyItem
    | NestedClass
    | Union(items: seq<ClassItem>)
    | UnicodeItem

  datatype ClassSet = Item(item: ClassItem) | BinaryOp

  datatype Ast =
    | Empty | Dot
    | Literal(span: Span)
    | Concat(asts: seq<Ast>)
    | Alternation(asts: seq<Ast>)
    | Assertion(assertion: AssertionKind)
    | ClassPerl
    | ClassUnicode
    | ClassBracketed(span: Span, set_: ClassSet)
    | Group(kind: GroupKind, ast: Ast)
    | SetFlags(flags: seq<Flag>)
    | Repetition(op: Span, repetition: RepetitionKind, ast: Ast)

  datatype Reason =
    | TooDeep | TooManyRepeats | StackedQuantifier | QuantifierSpelling
    | EscapeSequence | LiteralQuoting | HexEscape | UnicodeClass
    | ClassSyntax | NestedClassReason | ClassOperator | GroupName | UnsupportedFlag

  type Check = Result<(), Reason>

  /** The pattern text of a span; spans of a parsed pattern lie within it. */
  function TextOf(pattern: string, span: Span): string {
    if span.start <= span.end <= |pattern| then pattern[span.start..span.end] else ""
  }

  // ---------- What one node must look like ----------

  predicate IsOctal(c: char) { '0' <= c <= '7' }
  predicate IsHex(c: char) { Text.IsDigit(c) || 'a' <= c <= 'f' || 'A' <= c <= 'F' }
  predicate IsAlpha(c: char) { 'a' <= c <= 'z' || 'A' <= c <= 'Z' }

  function ValidateEscape(text: string): Check {
    if |text| < 2 || text[0] != '\\' then Ok(())
    else
      var next := text[1];
      var octal := |text| == 4 && IsOctal(text[2]) && IsOctal(text[3]);
      if next == 's' || next == 'S' then Ok(())
      else if next == '<' || next == '>' then Err(EscapeSequence)
      else if next == 'Q' || next == 'E' then Err(LiteralQuoting)
      else if next == '0' then
        if octal || |text| == 2 then Ok(()) else Err(EscapeSequence)
      else if Text.IsDigit(next) then
        if '1' <= next <= '3' && octal then Ok(()) else Err(EscapeSequence)
      else if next == 'x' then
        if |text| >= 4 && text[2] == '{' && text[|text| - 1] == '}' then
          var hex := text[3..|text| - 1];
          if hex != "" && forall i | 0 <= i < |hex| :: IsHex(hex[i]) then Ok(()) else Err(HexEscape)
        else if |text| == 4 && IsHex(text[2]) && IsHex(text[3]) then Ok(())
        else Err(HexEscape)
      else if IsAlpha(next) then
        if next in "aftnrvAzbBdDwW" then Ok(()) else Err(EscapeSequence)
      else Ok(())
  }

  function ValidateFlags(flags: seq<Flag>): Check {
    if OtherFlag in flags then Err(UnsupportedFlag) else Ok(())
  }

  function ValidateGroup(kind: GroupKind): Check {
    match kind
    case CaptureIndex => Ok(())
    case CaptureName(name) =>
      if name == "" || exists i | 0 <= i < |name| :: !(IsAlpha(name[i]) || Text.IsDigit(name[i]) || name[i] == '_')
      then Err(GroupName) else Ok(())
    case NonCapturing(flags) => ValidateFlags(flags)
  }

  /** A count without leading zeros; the upper bound may be missing. */
  predicate IsCount(part: string, index: nat) {
    || (index == 1 && part == "")
    || (part != "" && (forall i | 0 <= i < |part| :: Text.IsDigit(part[i])) && (|part| > 1 ==> part[0] != '0'))
  }

  predicate IsComma(c: char) {
    c == ','
  }

  function ValidateCounts(parts: seq<string>): Check {
    if |parts| > 2 || exists i | 0 <= i < |parts| :: !IsCount(parts[i], i) then Err(QuantifierSpelling) else Ok(())
  }

  function ValidateQuantifier(op: string): Check {
    var trimmed := if op != "" && op[|op| - 1] == '?' then op[..|op| - 1] else op;
    if |trimmed| >= 2 && trimmed[0] == '{' && trimmed[|trimmed| - 1] == '}'
    then ValidateCounts(Text.SplitOn(trimmed[1..|trimmed| - 1], IsComma))
    else Ok(())
  }

  /** A literal of a class; a bare `-` may only stand first or last. */
  function ValidateClassLiteral(pattern: string, span: Span, c: char, class_: Span): Check {
    var text := TextOf(pattern, span);
    var escape := ValidateEscape(text);
    if escape.Err? then escape
    else if c == '-' && text == "-" then
      var first := span.start == class_.start + 1
        || (class_.start + 1 < |pattern| && pattern[class_.start + 1] == '^' && span.start == class_.start + 2);
      var last := span.end == class_.end - 1;
      if !first && !last then Err(ClassSyntax)
      else if first && span.end < class_.end - 1 && span.end < |pattern| && pattern[span.end] == '-'
      then Err(ClassSyntax)
      else Ok(())
    else Ok(())
  }

  function ValidateClassRange(pattern: string, from: Span, to: Span): Check {
    var first := TextOf(pattern, from);
    if first == "-" then Err(ClassSyntax)
    else
      var escape := ValidateEscape(first);
      if escape.Err? then escape else ValidateEscape(TextOf(pattern, to))
  }

  function HasPrefix(s: string, p: string): bool {
    |p| <= |s| && s[..|p|] == p
  }

  // ---------- The walk ----------

  function ValidateItem(item: ClassItem, pattern: string, depth: nat, class_: Span): Check
    decreases item, 1
  {
    if depth > MAX_DEPTH then Err(TooDeep)
    else
      match item
      case ClassLiteral(span, c) => ValidateClassLiteral(pattern, span, c, class_)
      case ClassRange(from, to) => ValidateClassRange(pattern, from, to)
      case AsciiClass => Ok(())
      case PerlItem => Ok(())
      case EmptyItem => Ok(())
      case NestedClass => Err(NestedClassReason)
      case Union(items) => ValidateItems(items, |items|, pattern, depth + 1, class_)
      case UnicodeItem => Err(UnicodeClass)
  }

  function ValidateItems(items: seq<ClassItem>, n: nat, pattern: string, depth: nat, class_: Span): Check
    requires n <= |items|
    decreases items, 0, n
  {
    if n == 0 then Ok(())
    else
      var before := ValidateItems(items, n - 1, pattern, depth, class_);
      if before.Err? then before else ValidateItem(items[n - 1], pattern, depth, class_)
  }

  function ValidateClassSet(set_: ClassSet, pattern: string, depth: nat, class_: Span): Check {
    if depth > MAX_DEPTH then Err(TooDeep)
    else match set_ case Item(item) => ValidateItem(item, pattern, depth, class_) case BinaryOp => Err(ClassOperator)
  }

  /** The largest count a repetition names; an open one counts as its minimum. */
  function MaxCount(r: RepetitionKind): nat {
    match r
    case ZeroOrOne => 1
    case ZeroOrMore => 1
    case OneOrMore => 1
    case Exactly(n) => n
    case AtLeast(n) => n
    case Bounded(_, max) => max
  }

  function SaturatingMul(a: nat, b: nat): nat {
    if a * b > U32_MAX then U32_MAX else a * b
  }

  function ValidateAst(ast: Ast, pattern: string, depth: nat, product: nat): Check
    decreases ast, 1
  {
    if depth > MAX_DEPTH then Err(TooDeep)
    else
      match ast
      case Empty => Ok(())
      case Dot => Ok(())
      case Literal(span) => ValidateEscape(TextOf(pattern, span))
      case Concat(asts) => ValidateAsts(asts, |asts|, pattern, depth + 1, product)
      case Alternation(asts) => ValidateAsts(asts, |asts|, pattern, depth + 1, product)
      case Assertion(kind) => if kind.OtherBoundary? then Err(EscapeSequence) else Ok(())
      case ClassPerl => Ok(())
      case ClassUnicode => Err(UnicodeClass)
      case ClassBracketed(span, set_) =>
        var text := TextOf(pattern, span);
        if HasPrefix(text, "[--") || HasPrefix(text, "[^--") then Err(ClassSyntax)
        else ValidateClassSet(set_, pattern, depth + 1, span)
      case Group(kind, inner) =>
        var group := ValidateGroup(kind);
        if group.Err? then group else ValidateAst(inner, pattern, depth + 1, product)
      case SetFlags(flags) => ValidateFlags(flags)
      case Repetition(op, repetition, inner) =>
        if inner.Repetition? then Err(StackedQuantifier)
        else
          var spelling := ValidateQuantifier(TextOf(pattern, op));
          if spelling.Err? then spelling
          else
            var count := MaxCount(repetition);
            if count > MAX_PRODUCT then Err(TooManyRepeats)
            else
              var newProduct := SaturatingMul(product, if count > 1 then count else 1);
              if newProduct > MAX_PRODUCT then Err(TooManyRepeats)
              else ValidateAst(inner, pattern, depth + 1, newProduct)
  }

  function ValidateAsts(asts: seq<Ast>, n: nat, pattern: string, depth: nat, product: nat): Check
    requires n <= |asts|
    decreases asts, 0, n
  {
    if n == 0 then Ok(())
    else
      var before := ValidateAsts(asts, n - 1, pattern, depth, product);
      if before.Err? then before else ValidateAst(asts[n - 1], pattern, depth, product)
  }

  // ---------- What an accepted pattern is like ----------

  function Max(a: nat, b: nat): nat {
    if a < b then b else a
  }

  ghost function ItemHeight(item: ClassItem): nat
    decreases item, 1
  {
    match item
    case Union(items) => ItemsHeight(items, |items|)
    case _ => 0
  }

  /** How much deeper the deepest of the first `n` items is than their parent. */
  ghost function ItemsHeight(items: seq<ClassItem>, n: nat): nat
    requires n <= |items|
    decreases items, 0, n
  {
    if n == 0 then 0 else Max(ItemsHeight(items, n - 1), 1 + ItemHeight(items[n - 1]))
  }

  /** How far the deepest node lies below the root. */
  ghost function Height(ast: Ast): nat
    decreases ast, 1
  {
    match ast
    case Concat(asts) => AstsHeight(asts, |asts|)
    case Alternation(asts) => AstsHeight(asts, |asts|)
    case ClassBracketed(_, set_) => 1 + (match set_ case Item(item) => ItemHeight(item) case BinaryOp => 0)
    case Group(_, inner) => 1 + Height(inner)
    case Repetition(_, _, inner) => 1 + Height(inner)
    case _ => 0
  }

  ghost function AstsHeight(asts: seq<Ast>, n: nat): nat
    requires n <= |asts|
    decreases asts, 0, n
  {
    if n == 0 then 0 else Max(AstsHeight(asts, n - 1), 1 + Height(asts[n - 1]))
  }

  /** How many copies of its inner pattern a repetition unrolls to, at least one. */
  function Copies(r: RepetitionKind): (k: nat)
    ensures k >= 1
  {
    match r
    case Exactly(n) => Max(n, 1)
    case AtLeast(n) => Max(n, 1)
    case Bounded(_, max) => Max(max, 1)
    case _ => 1
  }

  /** The largest product of copies along a path from the root to a leaf. */
  ghost function PathCopies(ast: Ast): (k: nat)
    ensures k >= 1
    decreases ast, 1
  {
    match ast
    case Concat(asts) => PathCopiesOf(asts, |asts|)
    case Alternation(asts) => PathCopiesOf(asts, |asts|)
    case Group(_, inner) => PathCopies(inner)
    case Repetition(_, repetition, inner) => ProductAtLeastOne(Copies(repetition), PathCopies(inner))
    case _ => 1
  }

  function ProductAtLeastOne(a: nat, b: nat): (k: nat)
    requires a >= 1 && b >= 1
    ensures k == a * b && k >= 1
  {
    a * b
  }

  ghost function PathCopiesOf(asts: seq<Ast>, n: nat): (k: nat)
    requires n <= |asts|
    ensures k >= 1
    decreases asts, 0, n
  {
    if n == 0 then 1 else Max(PathCopiesOf(asts, n - 1), PathCopies(asts[n - 1]))
  }

  ghost function Leaves(ast: Ast): nat
    decreases ast, 1
  {
    match ast
    case Concat(asts) => LeavesOf(asts, |asts|)
    case Alternation(asts) => LeavesOf(asts, |asts|)
    case Group(_, inner) => Leaves(inner)
    case Repetition(_, _, inner) => Leaves(inner)
    case _ => 1
  }

  ghost function LeavesOf(asts: seq<Ast>, n: nat): nat
    requires n <= |asts|
    decreases asts, 0, n
  {
    if n == 0 then 0 else LeavesOf(asts, n - 1) + Leaves(asts[n - 1])
  }

  /** The leaves once every repetition is written out. */
  ghost function Unrolled(ast: Ast): nat
    decreases ast, 1
  {
    match ast
    case Concat(asts) => UnrolledOf(asts, |asts|)
    case Alternation(asts) => UnrolledOf(asts, |asts|)
    case Group(_, inner) => Unrolled(inner)
    case Repetition(_, repetition, inner) => Copies(repetition) * Unrolled(inner)
    case _ => 1
  }

  ghost function UnrolledOf(asts: seq<Ast>, n: nat): nat
    requires n <= |asts|
    decreases asts, 0, n
  {
    if n == 0 then 0 else UnrolledOf(asts, n - 1) + Unrolled(asts[n - 1])
  }

  /** Every item of a class is one both regex dialects read alike. */
  ghost predicate ItemReadable(item: ClassItem, pattern: string, class_: Span) {
    match item
    case ClassLiteral(span, c) => ValidateClassLiteral(pattern, span, c, class_).Ok?
    case ClassRange(from, to) => ValidateClassRange(pattern, from, to).Ok?
    case NestedClass => false
    case UnicodeItem => false
    case Union(items) => forall i | 0 <= i < |items| :: ItemReadable(items[i], pattern, class_)
    case _ => true
  }

  /** Every node is one both regex dialects read alike, and no repetition is
    * applied directly to another. */
  ghost predicate Readable(ast: Ast, pattern: string) {
    match ast
    case Literal(span) => ValidateEscape(TextOf(pattern, span)).Ok?
    case Concat(asts) => forall i | 0 <= i < |asts| :: Readable(asts[i], pattern)
    case Alternation(asts) => forall i | 0 <= i < |asts| :: Readable(asts[i], pattern)
    case Assertion(kind) => !kind.OtherBoundary?
    case ClassUnicode => false
    case ClassBracketed(span, set_) =>
      && !HasPrefix(TextOf(pattern, span), "[--") && !HasPrefix(TextOf(pattern, span), "[^--")
      && set_.Item? && ItemReadable(set_.item, pattern, span)
    case Group(kind, inner) => ValidateGroup(kind).Ok? && Readable(inner, pattern)
    case SetFlags(flags) => OtherFlag !in flags
    case Repetition(op, _, inner) =>
      !inner.Repetition? && ValidateQuantifier(TextOf(pattern, op)).Ok? && Readable(inner, pattern)
    case _ => true
  }

  lemma {:induction false} ItemAcceptedExactly(item: ClassItem, pattern: string, depth: nat, class_: Span)
    ensures ValidateItem(item, pattern, depth, class_).Ok? <==>
            depth + ItemHeight(item) <= MAX_DEPTH && ItemReadable(item, pattern, class_)
    decreases item, 1
  {
    if item.Union? {
      ItemsAcceptedExactly(item.items, |item.items|, pattern, depth + 1, class_);
    }
  }

  lemma {:induction false} ItemsAcceptedExactly(items: seq<ClassItem>, n: nat, pattern: string, depth: nat,
                                                class_: Span)
    requires n <= |items| && depth >= 1
    ensures ValidateItems(items, n, pattern, depth, class_).Ok? && depth - 1 <= MAX_DEPTH <==>
            depth - 1 + ItemsHeight(items, n) <= MAX_DEPTH
                    && forall i | 0 <= i < n :: ItemReadable(items[i], pattern, class_)
    decreases items, 0, n
  {
    if n > 0 {
      ItemsAcceptedExactly(items, n - 1, pattern, depth, class_);
      ItemAcceptedExactly(items[n - 1], pattern, depth, class_);
    }
  }

  lemma ProductGrows(product: nat, a: nat, b: nat)
    requires product >= 1 && a >= 1 && b >= 1
    ensures product * (a * b) == (product * a) * b && product * a <= (product * a) * b && product * a >= product
  {
    assert product * a >= 1;
  }

  lemma SaturatedProduct(product: nat, count: nat)
    requires product >= 1
    ensures SaturatingMul(product, Max(count, 1)) <= MAX_PRODUCT <==> product * Max(count, 1) <= MAX_PRODUCT
    ensures SaturatingMul(product, Max(count, 1)) <= MAX_PRODUCT ==>
            SaturatingMul(product, Max(count, 1)) == product * Max(count, 1)
    ensures count > MAX_PRODUCT ==> product * Max(count, 1) > MAX_PRODUCT
  {
    ProductGrows(product, Max(count, 1), 1);
    assert count > 1 ==> product * count >= count;
  }

  /** The walk accepts exactly the patterns that are nowhere too deep, on no path
    * repeat more than the limit, and at every node stay within the syntax. */
  lemma {:induction false} AcceptedExactly(ast: Ast, pattern: string, depth: nat, product: nat)
    requires product >= 1
    ensures ValidateAst(ast, pattern, depth, product).Ok? && product <= MAX_PRODUCT <==>
            depth + Height(ast) <= MAX_DEPTH && product * PathCopies(ast) <= MAX_PRODUCT && Readable(ast, pattern)
    decreases ast, 1
  {
    ProductGrows(product, PathCopies(ast), 1);
    match ast
    case Concat(asts) => AstsAcceptedExactly(asts, |asts|, pattern, depth + 1, product);
    case Alternation(asts) => AstsAcceptedExactly(asts, |asts|, pattern, depth + 1, product);
    case ClassBracketed(span, set_) =>
      if set_.Item? {
        ItemAcceptedExactly(set_.item, pattern, depth + 1, span);
      }
    case Group(_, inner) => AcceptedExactly(inner, pattern, depth + 1, product);
    case Repetition(_, repetition, inner) =>
      var count := MaxCount(repetition);
      SaturatedProduct(product, count);
      ProductGrows(product, Copies(repetition), PathCopies(inner));
      AcceptedExactly(inner, pattern, depth + 1, product * Copies(repetition));
    case _ =>
  }

  lemma {:induction false} AstsAcceptedExactly(asts: seq<Ast>, n: nat, pattern: string, depth: nat, product: nat)
    requires n <= |asts| && product >= 1 && depth >= 1
    ensures ValidateAsts(asts, n, pattern, depth, product).Ok? && depth - 1 <= MAX_DEPTH && product <= MAX_PRODUCT <==>
            && depth - 1 + AstsHeight(asts, n) <= MAX_DEPTH
            && product * PathCopiesOf(asts, n) <= MAX_PRODUCT
            && forall i | 0 <= i < n :: Readable(asts[i], pattern)
    decreases asts, 0, n
  {
    if n > 0 {
      AstsAcceptedExactly(asts, n - 1, pattern, depth, product);
      AcceptedExactly(asts[n - 1], pattern, depth, product);
      ProductGrows(product, PathCopiesOf(asts, n), 1);
      WithinMax(product, PathCopiesOf(asts, n - 1), PathCopies(asts[n - 1]));
      assert (forall i | 0 <= i < n :: Readable(asts[i], pattern))
             <==> (forall i | 0 <= i < n - 1 :: Readable(asts[i], pattern)) && Readable(asts[n - 1], pattern);
    }
  }

  lemma WithinMax(product: nat, a: nat, b: nat)
    ensures product * Max(a, b) <= MAX_PRODUCT <==> product * a <= MAX_PRODUCT && product * b <= MAX_PRODUCT
  {
    ProductOfMax(product, a, b);
  }

  lemma ProductOfMax(product: nat, a: nat, b: nat)
    ensures product * Max(a, b) == Max(product * a, product * b)
  {
    if a < b {
      assert product * a <= product * b;
    } else {
      assert product * b <= product * a;
    }
  }

  /** Written out, a pattern has at most its path product times its own leaves. */
  lemma {:induction false} UnrolledBounded(ast: Ast)
    ensures Unrolled(ast) <= PathCopies(ast) * Leaves(ast)
    decreases ast, 1
  {
    match ast
    case Concat(asts) => UnrolledBoundedOf(asts, |asts|);
    case Alternation(asts) => UnrolledBoundedOf(asts, |asts|);
    case Group(_, inner) => UnrolledBounded(inner);
    case Repetition(_, repetition, inner) =>
      UnrolledBounded(inner);
      ScaleBound(Copies(repetition), Unrolled(inner), PathCopies(inner), Leaves(inner));
    case _ =>
  }

  lemma ScaleBound(k: nat, u: nat, p: nat, l: nat)
    requires u <= p * l
    ensures k * u <= (k * p) * l
  {
    assert k * u <= k * (p * l);
    assert k * (p * l) == (k * p) * l;
  }

  lemma {:induction false} UnrolledBoundedOf(asts: seq<Ast>, n: nat)
    requires n <= |asts|
    ensures UnrolledOf(asts, n) <= PathCopiesOf(asts, n) * LeavesOf(asts, n)
    decreases asts, 0, n
  {
    if n > 0 {
      UnrolledBoundedOf(asts, n - 1);
      UnrolledBounded(asts[n - 1]);
      SumBound(UnrolledOf(asts, n - 1), PathCopiesOf(asts, n - 1), LeavesOf(asts, n - 1),
               Unrolled(asts[n - 1]), PathCopies(asts[n - 1]), Leaves(asts[n - 1]));
    }
  }

  lemma SumBound(u: nat, p: nat, l: nat, u': nat, p': nat, l': nat)
    requires u <= p * l && u' <= p' * l'
    ensures u + u' <= Max(p, p') * (l + l')
  {
    var m := Max(p, p');
    assert p * l <= m * l;
    assert p' * l' <= m * l';
    assert m * (l + l') == m * l + m * l';
  }

  /** An accepted pattern is at most 64 deep, and written out it is at most a
    * thousand times as large. */
  lemma AcceptedIsCheap(ast: Ast, pattern: string)
    requires ValidateAst(ast, pattern, 0, 1).Ok?
    ensures Height(ast) <= 64
    ensures Unrolled(ast) <= 1000 * Leaves(ast)
    ensures Readable(ast, pattern)
  {
    AcceptedExactly(ast, pattern, 0, 1);
    UnrolledBounded(ast);
    ScaleBoundUp(PathCopies(ast), MAX_PRODUCT, Leaves(ast));
  }

  lemma ScaleBoundUp(p: nat, q: nat, l: nat)
    requires p <= q
    ensures p * l <= q * l
  {
  }

  /** The size bound is met: a repetition of the limit itself is accepted. */
  lemma BoundIsReached(pattern: string)
    requires pattern == ".{1000}"
    ensures var ast := Repetition(Span(1, 7), Exactly(MAX_PRODUCT), Dot);
            ValidateAst(ast, pattern, 0, 1).Ok? && Unrolled(ast) == MAX_PRODUCT * Leaves(ast)
  {
    assert |pattern| == 7 && pattern[1] == '{' && pattern[2] == '1' && pattern[6] == '}';
    assert pattern[3] == '0' && pattern[4] == '0' && pattern[5] == '0';
    var op := pattern[1..7];
    assert forall k | 0 <= k < 6 :: op[k] == pattern[k + 1];
    var count := op[1..5];
    assert forall k | 0 <= k < 4 :: count[k] == op[k + 1];
    assert count[0] == '1' && Text.AreDigits(count) && forall i | 0 <= i < 4 :: !IsComma(count[i]);
    Text.NothingToSplit(count, IsComma);
    assert Text.SplitOn(count, IsComma) == [count] && IsCount(count, 0);
    assert Unrolled(Dot) == 1;
  }

  // ---------- The number in a matched tag ----------

  ghost predicate Digits(s: string, a: nat, b: nat) {
    a < b <= |s| && forall i | a <= i < b :: Text.IsDigit(s[i])
  }

  /** `s[a..b]` reads as digits, or as digits, a point and digits. */
  ghost predicate IsNumber(s: string, a: nat, b: nat) {
    Digits(s, a, b) || exists p | a < p < b - 1 && b <= |s| :: Digits(s, a, p) && s[p] == '.' && Digits(s, p + 1, b)
  }

  /** The first number of `s`, as long as it can be made. */
  method FirstNumber(s: string) returns (r: Option<(nat, nat)>)
    ensures r.None? ==> forall i | 0 <= i < |s| :: !Text.IsDigit(s[i])
    ensures r.Some? ==> var (a, b) := r.value;
            && IsNumber(s, a, b)
            && (forall i | 0 <= i < a && i < |s| :: !Text.IsDigit(s[i]))
            && (forall c | b < c <= |s| :: !IsNumber(s, a, c))
  {
    var i := 0;
    while i < |s|
      invariant i <= |s| && forall j | 0 <= j < i :: !Text.IsDigit(s[j])
    {
      if Text.IsDigit(s[i]) {
        var start := i;
        while i < |s| && Text.IsDigit(s[i])
          invariant start <= i <= |s| && forall j | start <= j < i :: Text.IsDigit(s[j])
        {
          i := i + 1;
        }
        var end := i;
        if i + 1 < |s| && s[i] == '.' && Text.IsDigit(s[i + 1]) {
          i := i + 2;
          while i < |s| && Text.IsDigit(s[i])
            invariant end + 2 <= i <= |s| && forall j | end + 1 <= j < i :: Text.IsDigit(s[j])
          {
            i := i + 1;
          }
          assert Digits(s, start, end) && Digits(s, end + 1, i);
          LongestFraction(s, start, end, i);
          return Some((start, i));
        }
        assert Digits(s, start, end);
        LongestInteger(s, start, end);
        return Some((start, end));
      }
      i := i + 1;
    }
    return None;
  }

  lemma DigitsEndOnce(s: string, a: nat, e: nat)
    requires Digits(s, a, e) && (e == |s| || !Text.IsDigit(s[e]))
    ensures forall p | a < p < |s| && Digits(s, a, p) && !Text.IsDigit(s[p]) :: p == e
  {
  }

  lemma LongestInteger(s: string, a: nat, e: nat)
    requires Digits(s, a, e) && (e == |s| || !Text.IsDigit(s[e]))
    requires !(e + 1 < |s| && s[e] == '.' && Text.IsDigit(s[e + 1]))
    ensures forall c | e < c <= |s| :: !IsNumber(s, a, c)
  {
    DigitsEndOnce(s, a, e);
  }

  lemma LongestFraction(s: string, a: nat, e: nat, b: nat)
    requires Digits(s, a, e) && e < |s| && s[e] == '.' && Digits(s, e + 1, b) && (b == |s| || !Text.IsDigit(s[b]))
    ensures forall c | b < c <= |s| :: !IsNumber(s, a, c)
  {
    assert !Text.IsDigit(s[e]);
    DigitsEndOnce(s, a, e);
  }
}
