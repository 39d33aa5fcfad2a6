/** What the texts of a flat profile become: lists, bytes and the names that fields take in
  * a nested transport. */
module FieldValues {
  import opened JsonValue
  import opened Wrappers
  import opened Migrate
  import opened MigrateRules
  import Text

  // ---------- Lists ----------

  /** `kept` is what `keeps` makes of the items, in order, without those it makes nothing of. */
  ghost predicate AreKept<T, U>(items: seq<T>, kept: seq<U>, keeps: T -> Option<U>) {
    if items == [] then kept == []
    else
      match keeps(items[0])
      case None => AreKept(items[1..], kept, keeps)
      case Some(x) => kept != [] && kept[0] == x && AreKept(items[1..], kept[1..], keeps)
  }

  /** A part without the whitespace around it, if anything is left. */
  function Entry(part: string): Option<string> {
    if Text.IsBlank(part) then None else Some(Text.Trim(part))
  }

  lemma {:induction false} NonEmptyAreKept(parts: seq<string>)
    ensures AreKept(parts, NonEmptyTrimmed(parts), Entry)
  {
    if parts != [] {
      var kept, rest := NonEmptyTrimmed(parts), NonEmptyTrimmed(parts[1..]);
      Text.BlankTrims(parts[0]);
      NonEmptyAreKept(parts[1..]);
      if Text.IsBlank(parts[0]) {
        assert kept == rest;
      } else {
        assert kept[1..] == rest;
      }
    }
  }

  predicate Separates(c: char) {
    c == ',' || c == '\n'
  }

  /** The entries of a text are what stands between its commas and line ends, trimmed and
    * without the blank ones. */
  ghost predicate AreEntries(s: string, entries: seq<string>) {
    exists parts, seps :: Text.AreParts(s, parts, seps, Separates) && AreKept(parts, entries, Entry)
  }

  lemma SplitsIntoEntries(s: string)
    ensures AreEntries(s, SplitDelimited(s))
  {
    var parts := Text.SplitOn(s, c => c == ',' || c == '\n');
    var seps := Text.SplitIsParts(s, c => c == ',' || c == '\n');
    NonEmptyAreKept(parts);
    assert Text.AreParts(s, parts, seps, Separates);
  }

  // ---------- Bytes ----------

  /** `s` is a decimal number of one byte, perhaps with a plus sign and leading zeros. */
  ghost predicate SpellsByte(s: string, n: nat) {
    n < 256 && exists sign, zeros ::
      (sign == "" || sign == "+") && Text.AreZeros(zeros) && s == sign + zeros + Text.Decimal(n)
  }

  lemma SpelledBy(sign: string, digits: string)
    requires sign == "" || sign == "+"
    requires digits != "" && Text.AreDigits(digits) && Text.Value(digits) < 256
    ensures SpellsByte(sign + digits, Text.Value(digits))
  {
    var zeros := Text.DigitsSpell(digits);
    assert sign + digits == sign + zeros + Text.Decimal(Text.Value(digits));
  }

  lemma ParsedIsSpelled(s: string)
    requires ParseByte(s).Some?
    ensures SpellsByte(s, ParseByte(s).value)
  {
    if s != "" && s[0] == '+' {
      SpelledBy("+", s[1..]);
      assert "+" + s[1..] == s;
    } else {
      SpelledBy("", s);
      assert "" + s == s;
    }
  }

  lemma SpelledIsParsed(sign: string, zeros: string, n: nat)
    requires (sign == "" || sign == "+") && Text.AreZeros(zeros) && n < 256
    ensures ParseByte(sign + zeros + Text.Decimal(n)) == Some(n)
  {
    var digits, s := zeros + Text.Decimal(n), sign + zeros + Text.Decimal(n);
    Text.ValueUndoesDecimal(n);
    Text.ZerosAddNothing(zeros, Text.Decimal(n));
    assert s == sign + digits && Text.IsDigit(digits[0]) && !Text.IsDigit('+');
    assert s[|sign|..] == digits;
  }

  /** A text is read as a byte exactly when it spells one. */
  lemma ParsesByteExactly(s: string, n: nat)
    ensures ParseByte(s) == Some(n) <==> SpellsByte(s, n)
  {
    if ParseByte(s).Some? {
      ParsedIsSpelled(s);
    }
    if SpellsByte(s, n) {
      var sign, zeros :| (sign == "" || sign == "+") && Text.AreZeros(zeros) && s == sign + zeros + Text.Decimal(n);
      SpelledIsParsed(sign, zeros, n);
    }
  }

  /** The number an entry spells. */
  ghost predicate ByteEntry(entry: string, byte: Option<Json>) {
    match byte
    case Some(Num(n)) => n >= 0 && SpellsByte(entry, n)
    case Some(_) => false
    case None => forall n: nat :: !SpellsByte(entry, n)
  }

  function ByteOf(entry: string): Option<Json> {
    var n := ParseByte(entry);
    if n.Some? then Some(Num(n.value)) else None
  }

  lemma ByteOfEntry(entry: string)
    ensures ByteEntry(entry, ByteOf(entry))
  {
    forall n: nat ensures ParseByte(entry) == Some(n) <==> SpellsByte(entry, n) {
      ParsesByteExactly(entry, n);
    }
  }

  lemma {:induction false} BytesAreKept(parts: seq<string>)
    ensures AreKept(parts, Bytes(parts), ByteOf)
  {
    if parts != [] {
      BytesAreKept(parts[1..]);
      assert ByteOf(parts[0]).None? ==> Bytes(parts) == Bytes(parts[1..]);
      assert ByteOf(parts[0]).Some? ==> Bytes(parts)[1..] == Bytes(parts[1..]);
    }
  }

  /** A text becomes the list of its entries; anything else stays. */
  lemma ListsAreEntries(v: Json)
    ensures var r := CsvToArray(v);
            if v.Str? then r.Arr? && exists entries :: AreEntries(v.s, entries) && AreTexts(entries, r.items)
            else r == v
  {
    if v.Str? {
      SplitsIntoEntries(v.s);
      assert AreTexts(SplitDelimited(v.s), CsvToArray(v).items);
    }
  }

  ghost predicate AreTexts(entries: seq<string>, items: seq<Json>) {
    |items| == |entries| && forall i | 0 <= i < |items| :: items[i] == Str(entries[i])
  }

  /** A text of reserved bytes becomes the list of those of its entries that spell one. */
  lemma BytesAreEntries(v: Json)
    ensures var r := ReservedToBytes(v);
            if v.Str?
            then r.Arr? && exists entries :: AreEntries(v.s, entries) && AreKept(entries, r.items, ByteOf)
            else r == v
  {
    if v.Str? {
      SplitsIntoEntries(v.s);
      BytesAreKept(SplitDelimited(v.s));
    }
  }

  // ---------- Names ----------

  predicate TakesPlain(kind: string) {
    kind == "ws" || kind == "h2" || kind == "httpupgrade" || kind == "xhttp" || kind == "tcp"
  }

  predicate TakesHeaderType(kind: string) {
    kind == "kcp" || kind == "quic" || kind == "tcp"
  }

  predicate TakesUpgrade(kind: string) {
    kind == "ws" || kind == "httpupgrade"
  }

  predicate TakesTimeouts(kind: string) {
    kind == "grpc" || kind == "h2"
  }

  /** Under which name a network takes a field, field by field. */
  function TakenAs(kind: string, k: string): Option<string> {
    if k == "host" || k == "path" then (if TakesPlain(kind) then Some(k) else None)
    else if k == "headerType" then (if TakesHeaderType(kind) then Some(k) else None)
    else if k == "wsEarlyData" then (if TakesUpgrade(kind) then Some("earlyData") else None)
    else if k == "acceptProxyProtocol" then (if TakesUpgrade(kind) then Some(k) else None)
    else if k == "wsEarlyDataHeader" then (if kind == "ws" then Some("earlyDataHeader") else None)
    else if k == "wsHeartbeatPeriod" then (if kind == "ws" then Some("heartbeatPeriod") else None)
    else if k == "grpcIdleTimeout" then (if TakesTimeouts(kind) then Some("idleTimeout") else None)
    else if k == "grpcPingTimeout" then (if TakesTimeouts(kind) then Some("pingTimeout") else None)
    else if kind == "grpc" then GrpcName(k)
    else if kind == "xhttp" then
      if k == "xhttpMode" then Some("mode") else if k == "xhttpExtra" then Some("extra") else None
    else if kind == "kcp" then KcpName(k)
    else None
  }

  function GrpcName(k: string): Option<string> {
    if k == "grpcMode" then Some("mode")
    else if k == "grpcHealthCheckTimeout" then Some("healthCheckTimeout")
    else if k == "grpcPermitWithoutStream" then Some("permitWithoutStream")
    else if k == "grpcInitialWindowsSize" then Some("initialWindowSize")
    else if k == "userAgent" then Some(k)
    else None
  }

  function KcpName(k: string): Option<string> {
    if k == "kcpSeed" then Some("seed")
    else if k == "kcpMtu" then Some("mtu")
    else if k == "kcpTti" then Some("tti")
    else if k == "kcpUplink" then Some("uplink")
    else if k == "kcpDownlink" then Some("downlink")
    else if k == "kcpCwndMultiplier" then Some("cwndMultiplier")
    else if k == "kcpMaxSendingWindow" then Some("maxSendingWindow")
    else None
  }

  lemma UpgradeMovesAreNamed(kind: string, h: string, k: string)
    requires TakesUpgrade(kind)
    ensures (h, k) in MovesOf(kind) <==> TakenAs(kind, k) == Some(h)
  {}

  lemma GrpcMovesAreNamed(kind: string, h: string, k: string)
    requires kind == "grpc"
    ensures (h, k) in MovesOf(kind) <==> TakenAs(kind, k) == Some(h)
  {}

  lemma KcpMovesAreNamed(kind: string, h: string, k: string)
    requires kind == "kcp"
    ensures (h, k) in MovesOf(kind) <==> TakenAs(kind, k) == Some(h)
  {}

  lemma FewMovesAreNamed(kind: string, h: string, k: string)
    requires kind == "h2" || kind == "xhttp" || kind == "quic" || kind == "tcp"
    ensures (h, k) in MovesOf(kind) <==> TakenAs(kind, k) == Some(h)
  {}

  /** The moves of every network, field by field. */
  lemma MovesAreNamed(kind: string, h: string, k: string)
    requires IsNetwork(kind) || kind == "tcp"
    ensures (h, k) in MovesOf(kind) <==> TakenAs(kind, k) == Some(h)
  {
    if TakesUpgrade(kind) {
      UpgradeMovesAreNamed(kind, h, k);
    } else if kind == "grpc" {
      GrpcMovesAreNamed(kind, h, k);
    } else if kind == "kcp" {
      KcpMovesAreNamed(kind, h, k);
    } else {
      FewMovesAreNamed(kind, h, k);
    }
  }
}
