/** WebSocket early data as parameters of the path: written with the
  * `application/x-www-form-urlencoded` serializer (section 5.2 of the WHATWG URL
  * Standard), read back with two searches and percent-decoding (section 2.1 of
  * RFC 3986). A text stands for its UTF-8 bytes, one per character. */
module WsPath {
  import opened Wrappers
  import Text

  type i64 = x: int | -0x8000_0000_0000_0000 <= x < 0x8000_0000_0000_0000

  const DEFAULT_HEADER := "Sec-WebSocket-Protocol"

  datatype WsEarlyData = WsEarlyData(path: string, earlyData: i64, header: string)

  /** Bytes as text, what is not UTF-8 replaced. */
  type Lossy = string -> string

  predicate IsSep(c: char) {
    c == '?' || c == '&'
  }

  predicate AreBytes(s: string) {
    forall i | 0 <= i < |s| :: s[i] as int < 256
  }

  // ---------- Encoding ----------

  predicate IsUnreserved(c: char) {
    'A' <= c <= 'Z' || 'a' <= c <= 'z' || '0' <= c <= '9' || c == '*' || c == '-' || c == '.' || c == '_'
  }

  function HexDigit(n: nat): char
    requires n < 16
  {
    if n < 10 then ('0' as int + n) as char else ('A' as int + n - 10) as char
  }

  function EncodeByte(c: char): string
    requires c as int < 256
  {
    if IsUnreserved(c) then [c]
    else if c == ' ' then "+"
    else ['%', HexDigit(c as int / 16), HexDigit(c as int % 16)]
  }

  function FormEncode(s: string): string
    requires AreBytes(s)
  {
    if s == "" then "" else EncodeByte(s[0]) + FormEncode(s[1..])
  }

  function HexValue(c: char): Option<nat> {
    if '0' <= c <= '9' then Some(c as int - '0' as int)
    else if 'A' <= c <= 'F' then Some(c as int - 'A' as int + 10)
    else if 'a' <= c <= 'f' then Some(c as int - 'a' as int + 10)
    else None
  }

  /** A `%` that two hex digits do not follow stands for itself. */
  function PercentDecode(s: string): string {
    if s == "" then ""
    else if s[0] == '%' && |s| >= 3 && HexValue(s[1]).Some? && HexValue(s[2]).Some?
         && HexValue(s[1]).value < 16 && HexValue(s[2]).value < 16
    then [(HexValue(s[1]).value * 16 + HexValue(s[2]).value) as char] + PercentDecode(s[3..])
    else [s[0]] + PercentDecode(s[1..])
  }

  function PlusForSpace(s: string): (r: string)
    ensures |r| == |s|
  {
    seq(|s|, i requires 0 <= i < |s| => if s[i] == ' ' then '+' else s[i])
  }

  /** The number, or 0 when it does not fit. */
  function ParseI64(digits: string): i64
    requires Text.AreDigits(digits)
  {
    var n := Text.Value(digits);
    if n < 0x8000_0000_0000_0000 then n else 0
  }

  // ---------- Searching ----------

  predicate IsNotAmp(c: char) {
    c != '&'
  }

  /** How many characters from `i` on are accepted in a row. */
  function Run(s: string, i: nat, accepts: char -> bool): (n: nat)
    requires i <= |s|
    ensures i + n <= |s| && forall k | i <= k < i + n :: accepts(s[k])
    decreases |s| - i
  {
    if i < |s| && accepts(s[i]) then 1 + Run(s, i + 1, accepts) else 0
  }

  /** `key=` after a separator starts at `i`. */
  predicate MarkerAt(s: string, i: int, key: string) {
    && 0 <= i && i + 1 + |key| < |s| && IsSep(s[i]) && s[i + 1 + |key|] == '='
    && forall k | 0 <= k < |key| :: key[k] == s[i + 1 + k]
  }

  predicate MatchAt(s: string, i: int, key: string, accepts: char -> bool) {
    MarkerAt(s, i, key) && Run(s, i + 2 + |key|, accepts) > 0
  }

  /** The leftmost match from `i` on. */
  function Find(s: string, i: nat, key: string, accepts: char -> bool): (at: Option<nat>)
    requires i <= |s|
    ensures at.Some?
            ==> MatchAt(s, at.value, key, accepts) && forall j | i <= j < at.value :: !MatchAt(s, j, key, accepts)
    ensures at.None? ==> forall j | i <= j :: !MatchAt(s, j, key, accepts)
    decreases |s| - i
  {
    if i == |s| then None else if MatchAt(s, i, key, accepts) then Some(i) else Find(s, i + 1, key, accepts)
  }

  function ValueAt(s: string, i: nat, key: string, accepts: char -> bool): (v: string)
    requires MatchAt(s, i, key, accepts)
    ensures forall k | 0 <= k < |v| :: accepts(v[k])
  {
    var start := i + 2 + |key|;
    s[start..start + Run(s, start, accepts)]
  }

  /** `s` without the match at `i`. */
  function Cut(s: string, i: nat, key: string, accepts: char -> bool): string
    requires MatchAt(s, i, key, accepts)
  {
    s[..i] + s[i + 2 + |key| + |ValueAt(s, i, key, accepts)|..]
  }

  /** The leftmost place from `i` on where `x` is followed by `&`. */
  function FindAmpAfter(s: string, i: nat, x: char): (at: Option<nat>)
    requires i <= |s|
    ensures at.Some? ==> at.value + 1 < |s| && s[at.value] == x && s[at.value + 1] == '&'
    ensures at.None? ==> forall k | i <= k < |s| - 1 && s[k] == x :: s[k + 1] != '&'
    decreases |s| - i
  {
    if i + 1 >= |s| then None else if s[i] == x && s[i + 1] == '&' then Some(i) else FindAmpAfter(s, i + 1, x)
  }

  function WithoutAmpAfter(s: string, x: char): (r: string)
    ensures |r| <= |s| && (r == s <==> FindAmpAfter(s, 0, x).None?)
  {
    match FindAmpAfter(s, 0, x)
    case None => s
    case Some(i) => s[..i] + [x] + s[i + 2..]
  }

  function Tidied(s: string): string {
    var t := WithoutAmpAfter(WithoutAmpAfter(s, '?'), '&');
    if t != "" && IsSep(t[|t| - 1]) then t[..|t| - 1] else t
  }

  // ---------- Writing and reading a path ----------

  function Base(path: string): string {
    if path == "" then "/" else path
  }

  /** A parameter behind its separator. */
  function Pair(sep: char, key: string, value: string): string {
    [sep] + key + "=" + value
  }

  function FirstSep(base: string): char {
    if '?' in base then '&' else '?'
  }

  function Built(path: string, earlyData: i64, header: string): string
    requires AreBytes(header)
  {
    var base := Base(path);
    base
    + (if earlyData > 0 then Pair(FirstSep(base), "ed", Text.Decimal(earlyData)) else "")
    + (if header != "" then Pair(if earlyData > 0 then '&' else FirstSep(base), "eh", FormEncode(header)) else "")
  }

  function AfterEd(path: string): WsEarlyData {
    match Find(path, 0, "ed", Text.IsDigit)
    case None => WsEarlyData(path, 0, "")
    case Some(i) => WsEarlyData(Cut(path, i, "ed", Text.IsDigit), ParseI64(ValueAt(path, i, "ed", Text.IsDigit)),
                                DEFAULT_HEADER)
  }

  function AfterEh(w: WsEarlyData, lossy: Lossy): WsEarlyData {
    match Find(w.path, 0, "eh", IsNotAmp)
    case None => w
    case Some(i) =>
      w.(path := Cut(w.path, i, "eh", IsNotAmp), header := lossy(PercentDecode(ValueAt(w.path, i, "eh", IsNotAmp))))
  }

  function Parsed(path: string, lossy: Lossy): WsEarlyData {
    var w := AfterEh(AfterEd(path), lossy);
    w.(path := Tidied(w.path))
  }

  method ParseWsEarlyData(path: string, lossy: Lossy) returns (w: WsEarlyData)
    ensures w == Parsed(path, lossy)
  {
    var next, earlyData, header := path, 0, "";
    var ed := Find(next, 0, "ed", Text.IsDigit);
    if ed.Some? {
      earlyData := ParseI64(ValueAt(next, ed.value, "ed", Text.IsDigit));
      header := DEFAULT_HEADER;
      next := Cut(next, ed.value, "ed", Text.IsDigit);
    }
    assert WsEarlyData(next, earlyData, header) == AfterEd(path);
    var eh := Find(next, 0, "eh", IsNotAmp);
    if eh.Some? {
      header := lossy(PercentDecode(ValueAt(next, eh.value, "eh", IsNotAmp)));
      next := Cut(next, eh.value, "eh", IsNotAmp);
    }
    assert WsEarlyData(next, earlyData, header) == AfterEh(AfterEd(path), lossy);
    next := Tidy(next);
    w := WsEarlyData(next, earlyData, header);
  }

  method Tidy(path: string) returns (next: string)
    ensures next == Tidied(path)
  {
    next := WithoutAmpAfter(path, '?');
    next := WithoutAmpAfter(next, '&');
    if next != "" && IsSep(next[|next| - 1]) {
      next := next[..|next| - 1];
    }
  }

  method BuildWsPath(path: string, earlyData: i64, header: string) returns (built: string)
    requires AreBytes(header)
    ensures built == Built(path, earlyData, header)
  {
    var base := Base(path);
    var pairs: seq<(string, string)> := [];
    if earlyData > 0 {
      pairs := pairs + [("ed", Text.Decimal(earlyData))];
    }
    if header != "" {
      pairs := pairs + [("eh", FormEncode(header))];
    }
    if pairs == [] {
      return base;
    }
    built := AppendPairs(base, pairs);
  }

  /** The pairs as a query behind the path's first separator. */
  method AppendPairs(base: string, pairs: seq<(string, string)>) returns (built: string)
    requires 1 <= |pairs| <= 2
    ensures built == base + Pair(FirstSep(base), pairs[0].0, pairs[0].1)
                     + if |pairs| == 2 then Pair('&', pairs[1].0, pairs[1].1) else ""
  {
    var query := pairs[0].0 + "=" + pairs[0].1;
    OnePair(base, FirstSep(base), pairs[0].0, pairs[0].1);
    if |pairs| == 2 {
      query := query + "&" + pairs[1].0 + "=" + pairs[1].1;
      TwoPairs(base, FirstSep(base), pairs[0].0, pairs[0].1, pairs[1].0, pairs[1].1);
    }
    built := base + [FirstSep(base)] + query;
  }

  lemma OnePair(base: string, sep: char, key: string, value: string)
    ensures base + [sep] + (key + "=" + value) == base + Pair(sep, key, value)
  {}

  lemma TwoPairs(base: string, sep: char, key: string, value: string, key2: string, value2: string)
    ensures base + [sep] + (key + "=" + value + "&" + key2 + "=" + value2)
         == base + Pair(sep, key, value) + Pair('&', key2, value2)
  {
    assert key + "=" + value + "&" + key2 + "=" + value2 == key + "=" + value + Pair('&', key2, value2);
    var tail := Pair('&', key2, value2);
    assert base + [sep] + (key + "=" + value + tail) == base + ([sep] + key + "=" + value) + tail;
  }

  // ---------- Decoding undoes encoding ----------

  lemma {:induction false} EncodedIsPlain(s: string)
    requires AreBytes(s)
    ensures s != "" ==> FormEncode(s) != ""
    ensures var e := FormEncode(s); forall i | 0 <= i < |e| :: !IsSep(e[i])
  {
    if s != "" {
      EncodedIsPlain(s[1..]);
    }
  }

  /** Percent-decoding gives back what was encoded, but for the spaces. */
  lemma {:induction false} DecodeUndoesEncode(s: string)
    requires AreBytes(s)
    ensures PercentDecode(FormEncode(s)) == PlusForSpace(s)
  {
    if s == "" {
      assert FormEncode(s) == "";
    } else {
      DecodeUndoesEncode(s[1..]);
      var first, rest := EncodeByte(s[0]), FormEncode(s[1..]);
      assert FormEncode(s) == first + rest;
      assert PlusForSpace(s) == PlusForSpace(s)[..1] + PlusForSpace(s[1..]);
      if |first| == 1 {
        assert (first + rest)[1..] == rest;
      } else {
        HexRoundTrip(s[0] as int / 16);
        HexRoundTrip(s[0] as int % 16);
        assert (first + rest)[3..] == rest;
      }
    }
  }

  lemma HexRoundTrip(n: nat)
    requires n < 16
    ensures HexValue(HexDigit(n)) == Some(n)
  {}

  const HEX := "0123456789ABCDEF"
  const SMALL_HEX := "0123456789abcdef"

  /** What a byte is written as: itself, a plus sign for a space, or its two hex digits. */
  lemma ByteExactly(c: char)
    requires c as int < 256
    ensures var n := c as int;
            FormEncode([c]) == if 'a' <= c <= 'z' || 'A' <= c <= 'Z' || '0' <= c <= '9' || c in "*-._" then [c]
                               else if c == ' ' then "+"
                               else ['%', HEX[n / 16], HEX[n % 16]]
  {
    assert [c][1..] == "" && FormEncode("") == "";
    assert forall n: nat | n < 16 :: HexDigit(n) == HEX[n];
  }

  /** A text is written byte by byte. */
  lemma {:induction false} EncodesInOrder(a: string, b: string)
    requires AreBytes(a) && AreBytes(b)
    ensures AreBytes(a + b) && FormEncode(a + b) == FormEncode(a) + FormEncode(b)
  {
    if a == "" {
      assert a + b == b;
    } else {
      EncodesInOrder(a[1..], b);
      assert (a + b)[1..] == a[1..] + b;
    }
  }

  predicate IsHexOf(c: char, n: nat) {
    n < 16 && (c == HEX[n] || c == SMALL_HEX[n])
  }

  lemma HexExactly(c: char, n: nat)
    ensures HexValue(c) == Some(n) <==> IsHexOf(c, n)
  {}

  /** `%` and two hex digits, of either case, stand for one byte. */
  lemma DecodesHex(s: string, hi: nat, lo: nat)
    requires |s| >= 3 && s[0] == '%' && IsHexOf(s[1], hi) && IsHexOf(s[2], lo)
    ensures PercentDecode(s) == [(16 * hi + lo) as char] + PercentDecode(s[3..])
  {
    HexExactly(s[1], hi);
    HexExactly(s[2], lo);
  }

  /** Every other character stands for itself. */
  lemma DecodesOthers(s: string)
    requires s != ""
    requires s[0] == '%' && |s| >= 3 ==> (forall n :: !IsHexOf(s[1], n)) || forall n :: !IsHexOf(s[2], n)
    ensures PercentDecode(s) == [s[0]] + PercentDecode(s[1..])
  {
    if |s| >= 3 && HexValue(s[1]).Some? && HexValue(s[2]).Some? {
      HexExactly(s[1], HexValue(s[1]).value);
      HexExactly(s[2], HexValue(s[2]).value);
    }
  }

  /** A number too large for 64 bits is read as 0. */
  lemma NumberExactly(digits: string)
    requires Text.AreDigits(digits)
    ensures var n := Text.Value(digits); ParseI64(digits) == if n <= 9223372036854775807 then n else 0
  {}

  // ---------- What is written, and what tidying leaves ----------

  /** The path that is written, in each of the four cases. */
  lemma BuiltExactly(path: string, earlyData: i64, header: string)
    requires AreBytes(header)
    ensures var base := if path == "" then "/" else path;
            var sep := if '?' in base then "&" else "?";
            var ed, eh := "ed=" + Text.Decimal(if earlyData > 0 then earlyData else 0), "eh=" + FormEncode(header);
            Built(path, earlyData, header)
            == if earlyData > 0 && header != "" then base + sep + ed + "&" + eh
               else if earlyData > 0 then base + sep + ed
               else if header != "" then base + sep + eh
               else base
  {}

  predicate AmpAfter(s: string, i: int, x: char) {
    0 <= i < |s| - 1 && s[i] == x && s[i + 1] == '&'
  }

  /** The first `x` before an `&` has the `&` taken from it, if there is one. */
  ghost predicate Collapses(s: string, x: char, r: string) {
    || (r == s && forall i :: !AmpAfter(s, i, x))
    || exists i :: AmpAfter(s, i, x) && r == s[..i + 1] + s[i + 2..] && forall j | j < i :: !AmpAfter(s, j, x)
  }

  lemma {:induction false} FindsFirstAmp(s: string, i: nat, x: char)
    requires i <= |s|
    ensures match FindAmpAfter(s, i, x)
            case Some(at) => AmpAfter(s, at, x) && forall j | i <= j < at :: !AmpAfter(s, j, x)
            case None => forall j | i <= j :: !AmpAfter(s, j, x)
    decreases |s| - i
  {
    if i + 1 < |s| && !AmpAfter(s, i, x) {
      FindsFirstAmp(s, i + 1, x);
    }
  }

  lemma CollapsesExactly(s: string, x: char)
    ensures Collapses(s, x, WithoutAmpAfter(s, x))
  {
    FindsFirstAmp(s, 0, x);
    var at := FindAmpAfter(s, 0, x);
    if at.Some? {
      assert s[..at.value] + [x] == s[..at.value + 1];
    }
  }

  /** Tidying takes one `&` from the first `?&`, then one from the first `&&`, then a
    * separator from the end. */
  lemma TidiedExactly(s: string) returns (t: string, u: string)
    ensures Collapses(s, '?', t) && Collapses(t, '&', u)
    ensures Tidied(s) == if u != "" && (u[|u| - 1] == '?' || u[|u| - 1] == '&') then u[..|u| - 1] else u
  {
    t := WithoutAmpAfter(s, '?');
    u := WithoutAmpAfter(t, '&');
    CollapsesExactly(s, '?');
    CollapsesExactly(t, '&');
  }

  // ---------- Where the searches match ----------

  predicate IsKey(key: string) {
    key == "ed" || key == "eh"
  }

  lemma {:induction false} RunIs(s: string, i: nat, n: nat, accepts: char -> bool)
    requires i + n <= |s| && (forall k | i <= k < i + n :: accepts(s[k])) && (i + n < |s| ==> !accepts(s[i + n]))
    ensures Run(s, i, accepts) == n
    decreases n
  {
    if n > 0 {
      RunIs(s, i + 1, n - 1, accepts);
    }
  }

  /** The path ends in `key=`, with nothing behind it. */
  predicate EndsInMarker(path: string, key: string) {
    MarkerAt(path, |path| - |key| - 2, key)
  }

  /** A search that finds nothing in the path finds nothing there once more is appended
    * behind a separator, unless the path ends in the key and takes the separator for
    * its value. */
  lemma NoneBefore(path: string, rest: string, key: string, accepts: char -> bool, j: nat)
    requires IsKey(key) && (rest != "" ==> IsSep(rest[0])) && j < |path| && !MatchAt(path, j, key, accepts)
    requires j + 4 == |path| && EndsInMarker(path, key) && rest != "" ==> !accepts(rest[0])
    ensures !MatchAt(path + rest, j, key, accepts)
  {
    var s := path + rest;
    assert |key| == 2;
    if |path| <= j + 3 < |s| {
      assert IsSep(s[|path|]) && !IsSep(key[0]) && !IsSep(key[1]);
      assert s[|path|] == s[j + 1] || s[|path|] == s[j + 2] || s[|path|] == s[j + 3];
    } else if j + 3 < |path| && MarkerAt(s, j, key) {
      assert MarkerAt(path, j, key);
      assert j + 4 == |path| ==> EndsInMarker(path, key);
    }
  }

  lemma PairParts(path: string, sep: char, key: string, value: string, rest: string)
    requires |key| == 2
    ensures var s, at := path + Pair(sep, key, value) + rest, |path| + 4;
            && |s| == at + |value| + |rest| && s[..|path|] == path
            && s[at..at + |value|] == value && s[at + |value|..] == rest
            && s == path + (Pair(sep, key, value) + rest)
            && s[|path|] == sep && s[|path| + 1] == key[0] && s[|path| + 2] == key[1] && s[|path| + 3] == '='
  {
    var s, at := path + Pair(sep, key, value) + rest, |path| + 4;
    assert Pair(sep, key, value)[4..] == value;
    assert forall i | 0 <= i < |value| :: s[at + i] == Pair(sep, key, value)[4 + i] == value[i];
  }

  /** The pair appended to a path is the one the search finds. */
  lemma ReadsPair(path: string, key: string, sep: char, value: string, rest: string, accepts: char -> bool)
    requires IsKey(key) && Find(path, 0, key, accepts).None? && IsSep(sep)
    requires EndsInMarker(path, key) ==> !accepts(sep)
    requires value != "" && (forall k | 0 <= k < |value| :: accepts(value[k])) && (rest != "" ==> !accepts(rest[0]))
    ensures var s := path + Pair(sep, key, value) + rest;
            && Find(s, 0, key, accepts) == Some(|path|)
            && ValueAt(s, |path|, key, accepts) == value && Cut(s, |path|, key, accepts) == path + rest
  {
    var s, at := path + Pair(sep, key, value) + rest, |path| + 4;
    PairParts(path, sep, key, value, rest);
    assert MarkerAt(s, |path|, key);
    RunOfValue(s, at, value, rest, accepts);
    forall j: nat | j < |path| ensures !MatchAt(s, j, key, accepts) {
      NoneBefore(path, Pair(sep, key, value) + rest, key, accepts, j);
    }
    FirstMatch(s, |path|, key, accepts);
  }

  lemma FirstMatch(s: string, at: nat, key: string, accepts: char -> bool)
    requires MatchAt(s, at, key, accepts) && forall j: nat | j < at :: !MatchAt(s, j, key, accepts)
    ensures Find(s, 0, key, accepts) == Some(at)
  {
    var found := Find(s, 0, key, accepts);
  }

  lemma RunOfValue(s: string, at: nat, value: string, rest: string, accepts: char -> bool)
    requires at + |value| <= |s| && s[at..at + |value|] == value && s[at + |value|..] == rest
    requires (forall k | 0 <= k < |value| :: accepts(value[k])) && (rest != "" ==> !accepts(rest[0]))
    ensures Run(s, at, accepts) == |value|
  {
    forall k | at <= k < at + |value| ensures accepts(s[k]) {
      assert s[k] == value[k - at];
    }
    RunIs(s, at, |value|, accepts);
  }

  /** A header pair reads as no early data. */
  lemma HeaderHidesNothing(path: string, sep: char, value: string)
    requires Find(path, 0, "ed", Text.IsDigit).None? && IsSep(sep) && forall k | 0 <= k < |value| :: !IsSep(value[k])
    ensures Find(path + Pair(sep, "eh", value), 0, "ed", Text.IsDigit).None?
  {
    var tail := Pair(sep, "eh", value);
    var s := path + tail;
    forall j: nat ensures !MatchAt(s, j, "ed", Text.IsDigit) {
      if j < |path| {
        NoneBefore(path, tail, "ed", Text.IsDigit, j);
      } else if j == |path| {
        assert s[j + 2] == 'h' && "ed"[1] == 'd';
      } else if j < |s| {
        assert s[j] == tail[j - |path|];
      }
    }
  }

  // ---------- The round trip ----------

  lemma ReadsEd(base: string, sep: char, earlyData: i64, rest: string)
    requires Find(base, 0, "ed", Text.IsDigit).None? && IsSep(sep) && earlyData > 0 && (rest != "" ==> rest[0] == '&')
    ensures AfterEd(base + Pair(sep, "ed", Text.Decimal(earlyData)) + rest)
            == WsEarlyData(base + rest, earlyData, DEFAULT_HEADER)
  {
    Text.ValueUndoesDecimal(earlyData);
    ReadsPair(base, "ed", sep, Text.Decimal(earlyData), rest, Text.IsDigit);
  }

  lemma ReadsEh(base: string, sep: char, header: string, w: WsEarlyData, lossy: Lossy)
    requires Find(base, 0, "eh", IsNotAmp).None? && IsSep(sep) && (EndsInMarker(base, "eh") ==> sep == '&')
    requires header != "" && AreBytes(header) && w.path == base + Pair(sep, "eh", FormEncode(header))
    ensures AfterEh(w, lossy) == w.(path := base, header := lossy(PlusForSpace(header)))
  {
    EncodedIsPlain(header);
    DecodeUndoesEncode(header);
    ReadsPair(base, "eh", sep, FormEncode(header), "", IsNotAmp);
    assert w.path + "" == w.path && base + "" == base;
  }

  lemma BuiltReadsEd(path: string, earlyData: i64, header: string)
    requires AreBytes(header) && Find(Base(path), 0, "ed", Text.IsDigit).None?
    ensures var base := Base(path);
            AfterEd(Built(path, earlyData, header)) == WsEarlyData(
              if header == "" then base
              else base + Pair(if earlyData > 0 then '&' else FirstSep(base), "eh", FormEncode(header)),
              if earlyData > 0 then earlyData else 0,
              if earlyData > 0 then DEFAULT_HEADER else "")
  {
    var base := Base(path);
    if earlyData > 0 {
      ReadsEd(base, FirstSep(base), earlyData, if header == "" then "" else Pair('&', "eh", FormEncode(header)));
      assert base + "" == base;
    } else if header == "" {
      assert Built(path, earlyData, header) == base;
    } else {
      EncodedIsPlain(header);
      HeaderHidesNothing(base, FirstSep(base), FormEncode(header));
      assert base + "" == base;
    }
  }

  lemma SwallowsTail(base: string, value: string)
    requires Find(base, 0, "eh", IsNotAmp).None? && EndsInMarker(base, "eh")
             && forall k | 0 <= k < |value| :: !IsSep(value[k])
    ensures var s := base + Pair('?', "eh", value);
            && Find(s, 0, "eh", IsNotAmp) == Some(|base| - 4)
            && |Cut(s, |base| - 4, "eh", IsNotAmp)| < |base|
  {
    var tail := Pair('?', "eh", value);
    var s, at := base + tail, |base| - 4;
    assert forall k | 0 <= k < |tail| :: tail[k] != '&';
    assert forall k | |base| <= k < |s| :: s[k] == tail[k - |base|];
    RunIs(s, |base|, |tail|, IsNotAmp);
    assert MarkerAt(s, at, "eh");
    forall j: nat | j < at ensures !MatchAt(s, j, "eh", IsNotAmp) {
      NoneBefore(base, tail, "eh", IsNotAmp, j);
    }
    FirstMatch(s, at, "eh", IsNotAmp);
  }

  /** No separator is left before an `&` or at the end. */
  ghost predicate IsTidy(s: string) {
    && (forall k | 0 <= k < |s| - 1 :: IsSep(s[k]) ==> s[k + 1] != '&')
    && (s != "" ==> !IsSep(s[|s| - 1]))
  }

  lemma TidyingKeeps(s: string)
    ensures Tidied(s) == s <==> IsTidy(s)
  {
    if FindAmpAfter(s, 0, '?').None? && FindAmpAfter(s, 0, '&').None? {
      assert forall k | 0 <= k < |s| - 1 && IsSep(s[k]) :: s[k + 1] != '&';
    }
  }

  lemma SpacesAreLost(s: string)
    ensures PlusForSpace(s) == s <==> ' ' !in s
  {
    if PlusForSpace(s) == s {
      assert forall i | 0 <= i < |s| :: s[i] == PlusForSpace(s)[i];
    }
  }

  lemma TidyingShortens(s: string)
    ensures |Tidied(s)| <= |s| && (|Tidied(s)| == |s| ==> Tidied(s) == s)
  {}

  // ---------- Paths with pairs of their own ----------

  function NotBelowZero(n: i64): i64 {
    if n > 0 then n else 0
  }

  function HeaderSep(base: string, earlyData: i64): char {
    if earlyData > 0 then '&' else FirstSep(base)
  }

  function HeaderPart(base: string, earlyData: i64, header: string): string
    requires AreBytes(header)
  {
    if header == "" then "" else Pair(HeaderSep(base, earlyData), "eh", FormEncode(header))
  }

  /** The path without its own early data and with the new one at its end. */
  function Moved(base: string, earlyData: i64): string {
    match Find(base, 0, "ed", Text.IsDigit)
    case None => base
    case Some(i) =>
      Cut(base, i, "ed", Text.IsDigit)
        + if earlyData > 0 then Pair(FirstSep(base), "ed", Text.Decimal(earlyData)) else ""
  }

  /** The path's own early data comes before what is appended. */
  function NumberRead(base: string, earlyData: i64): i64 {
    match Find(base, 0, "ed", Text.IsDigit)
    case None => NotBelowZero(earlyData)
    case Some(i) => ParseI64(ValueAt(base, i, "ed", Text.IsDigit))
  }

  /** Early data of the path's own, if any, is what is appended, and already stands where
    * it would be appended. */
  predicate KeepsEd(base: string, earlyData: i64) {
    match Find(base, 0, "ed", Text.IsDigit)
    case None => true
    case Some(i) =>
      && earlyData > 0 && ValueAt(base, i, "ed", Text.IsDigit) == Text.Decimal(earlyData)
      && Cut(base, i, "ed", Text.IsDigit) + Pair(FirstSep(base), "ed", Text.Decimal(earlyData)) == base
  }

  /** A match in a path stays the first one when more is appended behind a separator. */
  lemma FirstStays(path: string, rest: string, key: string, accepts: char -> bool, i: nat)
    requires IsKey(key) && Find(path, 0, key, accepts) == Some(i) && (rest != "" ==> IsSep(rest[0]))
    requires i + 4 + |ValueAt(path, i, key, accepts)| == |path| && rest != "" ==> !accepts(rest[0])
    ensures var s := path + rest;
            && Find(s, 0, key, accepts) == Some(i) && ValueAt(s, i, key, accepts) == ValueAt(path, i, key, accepts)
            && Cut(s, i, key, accepts) == Cut(path, i, key, accepts) + rest
  {
    RunStays(path, rest, i + 4, accepts);
    StaysFirst(path, rest, key, accepts, i);
    ValueStays(path, rest, key, accepts, i);
  }

  lemma ValueStays(path: string, rest: string, key: string, accepts: char -> bool, i: nat)
    requires MatchAt(path, i, key, accepts) && MatchAt(path + rest, i, key, accepts)
    requires Run(path + rest, i + 2 + |key|, accepts) == Run(path, i + 2 + |key|, accepts)
    ensures ValueAt(path + rest, i, key, accepts) == ValueAt(path, i, key, accepts)
    ensures Cut(path + rest, i, key, accepts) == Cut(path, i, key, accepts) + rest
  {
    Outside(path, rest, i, i + 2 + |key|, |ValueAt(path, i, key, accepts)|);
  }

  lemma StaysFirst(path: string, rest: string, key: string, accepts: char -> bool, i: nat)
    requires IsKey(key) && Find(path, 0, key, accepts) == Some(i) && (rest != "" ==> IsSep(rest[0]))
    requires Run(path + rest, i + 4, accepts) > 0
    ensures |key| == 2 && Find(path + rest, 0, key, accepts) == Some(i)
  {
    assert MarkerAt(path + rest, i, key);
    forall j: nat | j < i ensures !MatchAt(path + rest, j, key, accepts) {
      NoneBefore(path, rest, key, accepts, j);
    }
    FirstMatch(path + rest, i, key, accepts);
  }

  lemma RunStays(path: string, rest: string, at: nat, accepts: char -> bool)
    requires at <= |path| && (at + Run(path, at, accepts) == |path| && rest != "" ==> !accepts(rest[0]))
    ensures Run(path + rest, at, accepts) == Run(path, at, accepts)
  {
    RunEnds(path, at, accepts);
    RunIs(path + rest, at, Run(path, at, accepts), accepts);
  }

  lemma Outside(path: string, rest: string, i: nat, at: nat, n: nat)
    requires i <= at && at + n <= |path|
    ensures var s := path + rest;
            && s[at..at + n] == path[at..at + n]
            && s[..i] + s[at + n..] == path[..i] + path[at + n..] + rest
  {
    var s := path + rest;
    assert s[..i] == path[..i] && s[at + n..] == path[at + n..] + rest;
  }

  lemma {:induction false} RunEnds(s: string, i: nat, accepts: char -> bool)
    requires i <= |s|
    ensures var n := Run(s, i, accepts); i + n < |s| ==> !accepts(s[i + n])
    decreases |s| - i
  {
    if i < |s| && accepts(s[i]) {
      RunEnds(s, i + 1, accepts);
    }
  }

  lemma EdRead(path: string, earlyData: i64, header: string)
    requires AreBytes(header)
    ensures var base := Base(path);
            AfterEd(Built(path, earlyData, header)) == WsEarlyData(
              Moved(base, earlyData) + HeaderPart(base, earlyData, header), NumberRead(base, earlyData),
              if earlyData > 0 || Find(base, 0, "ed", Text.IsDigit).Some? then DEFAULT_HEADER else "")
  {
    var base, tail := Base(path), HeaderPart(Base(path), earlyData, header);
    match Find(base, 0, "ed", Text.IsDigit)
    case None =>
      BuiltReadsEd(path, earlyData, header);
      assert base + "" == base;
    case Some(i) =>
      var pair := if earlyData > 0 then Pair(FirstSep(base), "ed", Text.Decimal(earlyData)) else "";
      assert Built(path, earlyData, header) == base + pair + tail;
      OwnEdRead(base, pair, tail, i);
  }

  lemma OwnEdRead(base: string, pair: string, tail: string, i: nat)
    requires Find(base, 0, "ed", Text.IsDigit) == Some(i)
    requires (pair != "" ==> IsSep(pair[0])) && (tail != "" ==> IsSep(tail[0]))
    ensures AfterEd(base + pair + tail) == WsEarlyData(
              Cut(base, i, "ed", Text.IsDigit) + pair + tail,
              ParseI64(ValueAt(base, i, "ed", Text.IsDigit)), DEFAULT_HEADER)
  {
    var cut := Cut(base, i, "ed", Text.IsDigit);
    assert base + pair + tail == base + (pair + tail) && cut + pair + tail == cut + (pair + tail);
    FirstStays(base, pair + tail, "ed", Text.IsDigit, i);
  }

  /** Moving keeps the path exactly if there is nothing to move, or it is there already. */
  lemma MovedBack(base: string, earlyData: i64)
    ensures NumberRead(base, earlyData) == NotBelowZero(earlyData) || earlyData <= 0
            ==> |Moved(base, earlyData)| <= |base|
    ensures NumberRead(base, earlyData) == NotBelowZero(earlyData) && Moved(base, earlyData) == base
            <==> KeepsEd(base, earlyData)
  {
    match Find(base, 0, "ed", Text.IsDigit)
    case None =>
    case Some(i) =>
      var value := ValueAt(base, i, "ed", Text.IsDigit);
      assert |Cut(base, i, "ed", Text.IsDigit)| == |base| - 4 - |value|;
      if earlyData > 0 {
        Text.ValueUndoesDecimal(earlyData);
        if ParseI64(value) == earlyData {
          Text.DecimalIsShortest(value);
        }
      }
  }

  /** The round trip is exact. */
  ghost predicate IsExact(path: string, earlyData: i64, header: string, lossy: Lossy)
    requires AreBytes(header)
  {
    Parsed(Built(path, earlyData, header), lossy)
    == WsEarlyData(Base(path), NotBelowZero(earlyData),
                   if header == "" && earlyData > 0 then "Sec-WebSocket-Protocol" else header)
  }

  /** What is left of the path ends in `eh=` and the header is appended behind a `?`: the
    * reader takes all of it for the value of the path's own `eh`. */
  predicate Swallows(base: string, earlyData: i64, header: string) {
    header != "" && HeaderSep(base, earlyData) == '?' && EndsInMarker(Moved(base, earlyData), "eh")
  }

  /** What comes back of a path in which the reader is left with no header pair but the
    * appended one: the path without its own early data, tidied, the first number, and
    * the header but for its spaces. */
  lemma BuiltReadsBack(path: string, earlyData: i64, header: string, lossy: Lossy)
    requires AreBytes(header) && Find(Moved(Base(path), earlyData), 0, "eh", IsNotAmp).None?
    requires !Swallows(Base(path), earlyData, header)
    requires header != "" ==> lossy(PlusForSpace(header)) == PlusForSpace(header)
    ensures var base := Base(path);
            Parsed(Built(path, earlyData, header), lossy) == WsEarlyData(
              Tidied(Moved(base, earlyData)), NumberRead(base, earlyData),
              if header != "" then PlusForSpace(header)
              else if earlyData > 0 || Find(base, 0, "ed", Text.IsDigit).Some? then "Sec-WebSocket-Protocol" else "")
  {
    var base, moved := Base(path), Moved(Base(path), earlyData);
    EdRead(path, earlyData, header);
    if header == "" {
      assert moved + "" == moved;
    } else {
      ReadsEh(moved, HeaderSep(base, earlyData), header, AfterEd(Built(path, earlyData, header)), lossy);
    }
  }

  lemma SwallowedIsCut(path: string, earlyData: i64, header: string, lossy: Lossy)
    requires AreBytes(header) && Find(Moved(Base(path), earlyData), 0, "eh", IsNotAmp).None?
    requires Swallows(Base(path), earlyData, header)
    ensures |Parsed(Built(path, earlyData, header), lossy).path| < |Base(path)|
  {
    EdRead(path, earlyData, header);
    MovedBack(Base(path), earlyData);
    EncodedIsPlain(header);
    SwallowsTail(Moved(Base(path), earlyData), FormEncode(header));
    TidyingShortens(AfterEh(AfterEd(Built(path, earlyData, header)), lossy).path);
  }

  /** The round trip of every path in which the reader is left with no header pair but the
    * appended one: exact if and only if its own early data is the appended one and stands
    * at the end already, the path is tidy, the header has no space, and the path's end
    * does not swallow it. */
  lemma RoundTripsExactly(path: string, earlyData: i64, header: string, lossy: Lossy)
    requires AreBytes(header) && Find(Moved(Base(path), earlyData), 0, "eh", IsNotAmp).None?
    requires header != "" ==> lossy(PlusForSpace(header)) == PlusForSpace(header)
    ensures IsExact(path, earlyData, header, lossy)
            <==> KeepsEd(Base(path), earlyData) && IsTidy(Base(path)) && ' ' !in header
                 && !Swallows(Base(path), earlyData, header)
  {
    if Swallows(Base(path), earlyData, header) {
      SwallowedIsCut(path, earlyData, header, lossy);
    } else {
      BuiltReadsBack(path, earlyData, header, lossy);
      MovedBack(Base(path), earlyData);
      TidyingKeeps(Base(path));
      SpacesAreLost(header);
      TidyingShortens(Moved(Base(path), earlyData));
    }
  }

  /** The value at `i` ends the path. */
  predicate EndsPath(path: string, i: nat)
    requires MatchAt(path, i, "eh", IsNotAmp)
  {
    i + 4 + |ValueAt(path, i, "eh", IsNotAmp)| == |path|
  }

  /** The round trip of every other path, where the reader takes a header pair of the path's
    * own: exact if and only if that pair holds the header, the early data is read back,
    * and both pairs moved to the end give the path, tidied. */
  lemma OwnHeaderExactly(path: string, earlyData: i64, header: string, lossy: Lossy, i: nat)
    requires AreBytes(header) && Find(Moved(Base(path), earlyData), 0, "eh", IsNotAmp) == Some(i)
    ensures var base, moved := Base(path), Moved(Base(path), earlyData);
            IsExact(path, earlyData, header, lossy)
            <==> && header != "" && NumberRead(base, earlyData) == NotBelowZero(earlyData)
                 && lossy(PercentDecode(ValueAt(moved, i, "eh", IsNotAmp))) == header
                 && (HeaderSep(base, earlyData) == '&' || !EndsPath(moved, i))
                 && Tidied(Cut(moved, i, "eh", IsNotAmp)
                           + Pair(HeaderSep(base, earlyData), "eh", FormEncode(header))) == base
  {
    var base, moved := Base(path), Moved(Base(path), earlyData);
    MovedBack(base, earlyData);
    if header != "" && HeaderSep(base, earlyData) == '?' && EndsPath(moved, i) {
      OwnHeaderSwallows(path, earlyData, header, lossy, i);
    } else {
      OwnHeaderRead(path, earlyData, header, lossy, i);
      TidyingShortens(Cut(moved, i, "eh", IsNotAmp) + HeaderPart(base, earlyData, header));
    }
  }

  lemma OwnHeaderRead(path: string, earlyData: i64, header: string, lossy: Lossy, i: nat)
    requires AreBytes(header) && Find(Moved(Base(path), earlyData), 0, "eh", IsNotAmp) == Some(i)
    requires header == "" || HeaderSep(Base(path), earlyData) == '&' || !EndsPath(Moved(Base(path), earlyData), i)
    ensures var base, moved := Base(path), Moved(Base(path), earlyData);
            Parsed(Built(path, earlyData, header), lossy) == WsEarlyData(
              Tidied(Cut(moved, i, "eh", IsNotAmp) + HeaderPart(base, earlyData, header)),
              NumberRead(base, earlyData), lossy(PercentDecode(ValueAt(moved, i, "eh", IsNotAmp))))
  {
    var base := Base(path);
    EdRead(path, earlyData, header);
    FirstStays(Moved(base, earlyData), HeaderPart(base, earlyData, header), "eh", IsNotAmp, i);
  }

  /** Behind a `?` the path's own header runs on into the appended one. */
  lemma OwnHeaderSwallows(path: string, earlyData: i64, header: string, lossy: Lossy, i: nat)
    requires AreBytes(header) && Find(Moved(Base(path), earlyData), 0, "eh", IsNotAmp) == Some(i)
    requires header != "" && HeaderSep(Base(path), earlyData) == '?' && EndsPath(Moved(Base(path), earlyData), i)
    ensures |Parsed(Built(path, earlyData, header), lossy).path| < |Base(path)|
  {
    EdRead(path, earlyData, header);
    MovedBack(Base(path), earlyData);
    EncodedIsPlain(header);
    SwallowsMore(Moved(Base(path), earlyData), FormEncode(header), i);
    TidyingShortens(AfterEh(AfterEd(Built(path, earlyData, header)), lossy).path);
  }

  lemma SwallowsMore(path: string, value: string, i: nat)
    requires Find(path, 0, "eh", IsNotAmp) == Some(i) && EndsPath(path, i)
             && forall k | 0 <= k < |value| :: !IsSep(value[k])
    ensures var s := path + Pair('?', "eh", value);
            Find(s, 0, "eh", IsNotAmp) == Some(i) && |Cut(s, i, "eh", IsNotAmp)| < |path|
  {
    var tail := Pair('?', "eh", value);
    var s := path + tail;
    assert forall k | 0 <= k < |tail| :: tail[k] != '&';
    assert forall k | |path| <= k < |s| :: s[k] == tail[k - |path|];
    assert forall k | i + 4 <= k < |path| :: s[k] == path[k];
    RunIs(s, i + 4, |s| - i - 4, IsNotAmp);
    assert MarkerAt(s, i, "eh");
    forall j: nat | j < i ensures !MatchAt(s, j, "eh", IsNotAmp) {
      NoneBefore(path, tail, "eh", IsNotAmp, j);
    }
    FirstMatch(s, i, "eh", IsNotAmp);
  }

  /** Without a header the round trip is exact if and only if the path has no header pair
    * of its own, is tidy, and keeps the early data it has. */
  lemma HeaderlessExactly(path: string, earlyData: i64, lossy: Lossy)
    ensures IsExact(path, earlyData, "", lossy)
            <==> KeepsEd(Base(path), earlyData) && IsTidy(Base(path)) && Find(Base(path), 0, "eh", IsNotAmp).None?
  {
    var base, moved := Base(path), Moved(Base(path), earlyData);
    MovedBack(base, earlyData);
    match Find(moved, 0, "eh", IsNotAmp)
    case None => RoundTripsExactly(path, earlyData, "", lossy);
    case Some(i) => OwnHeaderExactly(path, earlyData, "", lossy, i);
  }

  /** Without early data and header nothing is appended, and a path is read back exactly if
    * and only if the reader finds neither pair in it and nothing to tidy. */
  lemma PlainPathsExactly(path: string, earlyData: i64, lossy: Lossy)
    requires earlyData <= 0
    ensures Parsed(Built(path, earlyData, ""), lossy) == WsEarlyData(Base(path), 0, "")
            <==> Find(Base(path), 0, "ed", Text.IsDigit).None? && Find(Base(path), 0, "eh", IsNotAmp).None?
                    && IsTidy(Base(path))
  {
    HeaderlessExactly(path, earlyData, lossy);
  }

  /** A path may carry its own pair and still round-trip. */
  lemma OwnPairExample(path: string, earlyData: i64, lossy: Lossy)
    requires path == "/a?x&ed=7" && earlyData == 7
    ensures IsExact(path, earlyData, "", lossy)
  {
    NoOtherPair(path);
    OwnPairStands(path, Text.Decimal(earlyData));
    assert KeepsEd(path, earlyData);
    HeaderlessExactly(path, earlyData, lossy);
  }

  lemma OwnPairStands(path: string, value: string)
    requires path == "/a?x&ed=7" && value == "7" && MatchAt(path, 4, "ed", Text.IsDigit)
    requires ValueAt(path, 4, "ed", Text.IsDigit) == value
    ensures Cut(path, 4, "ed", Text.IsDigit) + Pair(FirstSep(path), "ed", value) == path
    ensures IsTidy(path)
  {
    assert path[2] == '?' && FirstSep(path) == '&';
    assert Pair('&', "ed", value) == "&ed=7";
    assert path[..4] == "/a?x" && path[9..] == "";
  }

  lemma NoOtherPair(path: string)
    requires path == "/a?x&ed=7"
    ensures Find(path, 0, "ed", Text.IsDigit) == Some(4) && ValueAt(path, 4, "ed", Text.IsDigit) == "7"
    ensures Find(path, 0, "eh", IsNotAmp).None?
  {
    RunIs(path, 8, 1, Text.IsDigit);
    assert MarkerAt(path, 4, "ed");
    forall j: nat ensures !MatchAt(path, j, "eh", IsNotAmp) && (j < 4 ==> !MatchAt(path, j, "ed", Text.IsDigit)) {
      if j < 5 {
        assert path[4] == '&' && path[2] == '?' && "eh"[1] == 'h';
      }
    }
    FirstMatch(path, 4, "ed", Text.IsDigit);
  }

  // The failures happen.

  lemma UntidyPathExample(path: string, earlyData: i64, lossy: Lossy)
    requires path == "/?" && earlyData > 0
    ensures Parsed(Built(path, earlyData, ""), lossy).path != path
  {
    BuiltReadsBack(path, earlyData, "", lossy);
    TidyingKeeps(path);
  }

  lemma SpacedHeaderExample(path: string, earlyData: i64, header: string, lossy: Lossy)
    requires path == "/" && header == "a b" && lossy("a+b") == "a+b"
    ensures Parsed(Built(path, earlyData, header), lossy).header == "a+b"
  {
    assert PlusForSpace(header) == "a+b";
    BuiltReadsBack(path, earlyData, header, lossy);
  }

  lemma SwallowedHeaderExample(path: string, header: string, lossy: Lossy)
    requires path == "/&eh=" && header != "" && AreBytes(header)
    ensures Parsed(Built(path, 0, header), lossy).path != path
  {
    assert MarkerAt(path, 1, "eh");
    forall j ensures !MatchAt(path, j, "eh", IsNotAmp) && !MatchAt(path, j, "ed", Text.IsDigit) {
      if j == 0 {
        assert !IsSep(path[0]);
      }
    }
    SwallowedIsCut(path, 0, header, lossy);
  }
}
