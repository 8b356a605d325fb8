/** The two readers of `KEY=value` files: `services.conf`, where the last valid line wins,
    and `.env`, where the first line wins and a set variable is never changed. */
module Config {
  import opened Options
  import opened Text

  /** Key and raw value of a line; none for a blank line, a comment or a line without `=`. */
  function ParseLine(line: string): Option<(string, string)> {
    var trimmed := Trim(line);
    var eq := IndexOf(trimmed, '=');
    if trimmed == "" || trimmed[0] == '#' || eq == -1 then None
    else Some((Trim(trimmed[..eq]), Trim(trimmed[eq + 1..])))
  }

  function Lookup<V>(m: map<string, V>, key: string): Option<V> {
    if key in m then Some(m[key]) else None
  }

  // ---------- services.conf ----------

  const DEFAULT_SCALE: map<string, nat> := map[
    "obs" := 1, "postgres" := 1, "redis" := 1, "rabbitmq" := 1, "s3mock" := 1, "gateway" := 1,
    "user-service" := 1, "notification-service" := 1, "media-service" := 1,
    "hotel-service" := 1, "booking-service" := 1, "loadtest" := 0]

  function ScaleLine(line: string): Option<(string, nat)> {
    match ParseLine(line)
    case None => None
    case Some((key, raw)) =>
      match NumberOf(raw)
      case None => None
      case Some(n) => Some((key, n))
  }

  /** The value of the last line that validly assigns the key. */
  function LastValue(lines: seq<string>, key: string): Option<nat> {
    if lines == [] then None
    else
      match ScaleLine(lines[|lines| - 1])
      case Some((k, n)) => if k == key then Some(n) else LastValue(lines[..|lines| - 1], key)
      case None => LastValue(lines[..|lines| - 1], key)
  }

  function ScaleAt(lines: seq<string>, key: string): Option<nat> {
    match LastValue(lines, key)
    case Some(n) => Some(n)
    case None => Lookup(DEFAULT_SCALE, key)
  }

  lemma LastPush(lines: seq<string>, line: string, key: string)
    ensures LastValue(lines + [line], key) ==
      if ScaleLine(line).Some? && ScaleLine(line).value.0 == key then Some(ScaleLine(line).value.1)
      else LastValue(lines, key)
  {
    assert (lines + [line])[..|lines|] == lines;
  }

  /** A valid line sets its key; any other line does nothing. */
  function Assign(scale: map<string, nat>, line: string): map<string, nat> {
    match ScaleLine(line)
    case Some((key, n)) => scale[key := n]
    case None => scale
  }

  /** The defaults with the lines applied one after another. */
  function Assigned(lines: seq<string>): map<string, nat> {
    if lines == [] then DEFAULT_SCALE else Assign(Assigned(lines[..|lines| - 1]), lines[|lines| - 1])
  }

  lemma {:induction false} AssignedHolds(lines: seq<string>, key: string)
    ensures Lookup(Assigned(lines), key) == ScaleAt(lines, key)
  {
    if lines != [] {
      var n := |lines| - 1;
      AssignedHolds(lines[..n], key);
      assert lines == lines[..n] + [lines[n]];
      LastPush(lines[..n], lines[n], key);
    }
  }

  lemma AssignedNext(lines: seq<string>, i: nat)
    requires i < |lines|
    ensures Assigned(lines[..i + 1]) == Assign(Assigned(lines[..i]), lines[i])
  {
    assert lines[..i + 1][..i] == lines[..i];
  }

  lemma AssignedMeans(lines: seq<string>)
    ensures forall key :: Lookup(Assigned(lines), key) == ScaleAt(lines, key)
  {
    forall key ensures Lookup(Assigned(lines), key) == ScaleAt(lines, key) { AssignedHolds(lines, key); }
  }

  method LoadServicesConf(file: Option<string>) returns (scale: map<string, nat>)
    ensures file.None? ==> scale == DEFAULT_SCALE
    ensures file.Some? ==> forall key :: Lookup(scale, key) == ScaleAt(Lines(file.value), key)
  {
    scale := DEFAULT_SCALE;
    if file.None? { return; }
    var lines := Lines(file.value);
    var i := 0;
    while i < |lines|
      invariant 0 <= i <= |lines|
      invariant scale == Assigned(lines[..i])
    {
      AssignedNext(lines, i);
      var trimmed := Trim(lines[i]);
      if trimmed != "" && trimmed[0] != '#' {
        var eq := IndexOf(trimmed, '=');
        if eq != -1 {
          var key := Trim(trimmed[..eq]);
          var n := NumberOf(Trim(trimmed[eq + 1..]));
          if n.Some? { scale := scale[key := n.value]; }
        }
      }
      i := i + 1;
    }
    assert lines[..i] == lines;
    AssignedMeans(lines);
  }

  lemma Regroup(a: seq<string>, b: seq<string>)
    requires b != []
    ensures a + b == a + b[..|b| - 1] + [b[|b| - 1]]
  {
  }

  /** Comments, blank lines and invalid lines have no effect, wherever they stand. */
  lemma {:induction false} InvalidLinesIgnored(before: seq<string>, line: string, after: seq<string>, key: string)
    requires ScaleLine(line).None?
    ensures LastValue(before + [line] + after, key) == LastValue(before + after, key)
    decreases |after|
  {
    if after == [] {
      LastPush(before, line, key);
      assert before + [line] + after == before + [line] && before + after == before;
    } else {
      var n := |after| - 1;
      InvalidLinesIgnored(before, line, after[..n], key);
      Regroup(before + [line], after);
      Regroup(before, after);
      LastPush(before + [line] + after[..n], after[n], key);
      LastPush(before + after[..n], after[n], key);
    }
  }

  /** A key that a line can carry. */
  predicate WellFormedKey(key: string) {
    Trimmed(key) && '=' !in key && '\n' !in key && (key != "" ==> key[0] != '#')
  }

  /** The first `=` of a line splits it. */
  lemma SplitParses(line: string, left: string, right: string)
    requires Trim(line) == left + "=" + right && '=' !in left && (left != "" ==> left[0] != '#')
    ensures ParseLine(line) == Some((Trim(left), Trim(right)))
  {
    var trimmed := left + "=" + right;
    assert trimmed[|left|] == '=' && trimmed[..|left|] == left && trimmed[|left| + 1..] == right;
    IndexOfFirst(trimmed, '=', |left|);
  }

  lemma KeyValueParses(key: string, raw: string)
    requires WellFormedKey(key) && Trimmed(raw)
    ensures ParseLine(key + "=" + raw) == Some((key, raw))
  {
    var line := key + "=" + raw;
    assert line[|line| - 1] == if raw == "" then '=' else raw[|raw| - 1];
    assert Trimmed(line);
    TrimGivesTrimmed(line);
    TrimGivesTrimmed(key);
    TrimGivesTrimmed(raw);
    SplitParses(line, key, raw);
  }

  function PrintLine(entry: (string, nat)): string {
    entry.0 + "=" + Decimal(entry.1)
  }

  function PrintLines(entries: seq<(string, nat)>): seq<string> {
    seq(|entries|, i requires 0 <= i < |entries| => PrintLine(entries[i]))
  }

  lemma PrintedLineParses(entry: (string, nat))
    requires WellFormedKey(entry.0)
    ensures OneLine(PrintLine(entry)) && ScaleLine(PrintLine(entry)) == Some(entry)
  {
    NumberOfDecimal(entry.1);
    DecimalIsOneLine(entry.0, entry.1);
    KeyValueParses(entry.0, Decimal(entry.1));
  }

  lemma DecimalIsOneLine(key: string, n: nat)
    requires WellFormedKey(key)
    ensures OneLine(key + "=" + Decimal(n)) && Trimmed(Decimal(n))
  {
    assert IsDigit(Decimal(n)[0]) && IsDigit(Decimal(n)[|Decimal(n)| - 1]);
    assert (key + "=" + Decimal(n))[|key| + |Decimal(n)|] == Decimal(n)[|Decimal(n)| - 1];
  }

  /** Printing entries, with either line break, and reading them back: every key gets its last entry. */
  lemma PrintedConfReadsBack(entries: seq<(string, nat)>, crlf: bool, key: string)
    requires forall i :: 0 <= i < |entries| ==> WellFormedKey(entries[i].0)
    ensures LastValue(Lines(Join(PrintLines(entries), crlf)), key) == LastEntry(entries, key)
  {
    if entries == [] {
      NothingPrinted(key);
      return;
    }
    forall i | 0 <= i < |entries| ensures OneLine(PrintLines(entries)[i]) { PrintedLineParses(entries[i]); }
    LinesOfJoin(PrintLines(entries), crlf);
    LastOfPrinted(entries, key);
  }

  lemma NothingPrinted(key: string)
    ensures LastValue(Lines(""), key) == None
  {
    assert Lines("") == [""] && [""][..0] == [];
    assert ScaleLine("").None?;
  }

  function LastEntry(entries: seq<(string, nat)>, key: string): Option<nat> {
    if entries == [] then None
    else if entries[|entries| - 1].0 == key then Some(entries[|entries| - 1].1)
    else LastEntry(entries[..|entries| - 1], key)
  }

  lemma {:induction false} LastOfPrinted(entries: seq<(string, nat)>, key: string)
    requires forall i :: 0 <= i < |entries| ==> WellFormedKey(entries[i].0)
    ensures LastValue(PrintLines(entries), key) == LastEntry(entries, key)
  {
    if entries != [] {
      var n := |entries| - 1;
      PrintedLineParses(entries[n]);
      assert PrintLines(entries)[..n] == PrintLines(entries[..n]);
      LastOfPrinted(entries[..n], key);
    }
  }

  /** Printing a scale map, in any order of its keys and with either line break, and parsing it gives the defaults
      overridden by that map. */
  lemma ScaleRoundTrip(m: map<string, nat>, keys: seq<string>, crlf: bool, key: string)
    requires (forall k :: k in m <==> k in keys) && forall k :: k in m ==> WellFormedKey(k)
    ensures var entries := seq(|keys|, i requires 0 <= i < |keys| => (keys[i], m[keys[i]]));
      ScaleAt(Lines(Join(PrintLines(entries), crlf)), key)
        == if key in m then Some(m[key]) else Lookup(DEFAULT_SCALE, key)
  {
    var entries := seq(|keys|, i requires 0 <= i < |keys| => (keys[i], m[keys[i]]));
    PrintedConfReadsBack(entries, crlf, key);
    EntriesOfMap(m, entries, key);
    if key in m {
      var i :| 0 <= i < |keys| && keys[i] == key;
      assert entries[i].0 == key;
    }
  }

  lemma {:induction false} EntriesOfMap(m: map<string, nat>, entries: seq<(string, nat)>, key: string)
    requires forall i :: 0 <= i < |entries| ==> entries[i].0 in m && entries[i].1 == m[entries[i].0]
    ensures LastEntry(entries, key).Some? <==> exists i :: 0 <= i < |entries| && entries[i].0 == key
    ensures LastEntry(entries, key).Some? ==> key in m && LastEntry(entries, key).value == m[key]
  {
    if entries != [] {
      var n := |entries| - 1;
      EntriesOfMap(m, entries[..n], key);
      if LastEntry(entries[..n], key).Some? {
        var i :| 0 <= i < n && entries[..n][i].0 == key;
        assert entries[i].0 == key;
      }
      forall i | 0 <= i < n ensures entries[i] == entries[..n][i] {}
    }
  }

  /** `Number('')` is 0, so a key with nothing after its `=` is switched off. */
  lemma EmptyValueIsZero(key: string)
    requires WellFormedKey(key)
    ensures ScaleLine(key + "=") == Some((key, 0))
  {
    KeyValueParses(key, "");
    assert key + "=" + "" == key + "=";
    ScaleOf(key + "=", key, "");
    assert NumberOf("") == Some(DigitsValue(""));
  }

  lemma ScaleOf(line: string, key: string, raw: string)
    requires ParseLine(line) == Some((key, raw))
    ensures ScaleLine(line) == if NumberOf(raw).Some? then Some((key, NumberOf(raw).value)) else None
  {
  }

  /** A key and its text give the number the text is, and nothing if it is none. */
  lemma AssignmentExactly(key: string, raw: string)
    requires WellFormedKey(key) && Trimmed(raw)
    ensures ScaleLine(key + "=" + raw) == if NumberOf(raw).Some? then Some((key, NumberOf(raw).value)) else None
  {
    KeyValueParses(key, raw);
    ScaleOf(key + "=" + raw, key, raw);
  }

  /** A negative count is as good as no line. */
  lemma NegativeIgnored(key: string, n: nat)
    requires WellFormedKey(key) && n > 0
    ensures ScaleLine(key + "=" + ("-" + Decimal(n))) == None
  {
    NegativeIsNone(n);
    MinusTrimmed(n);
    AssignmentExactly(key, "-" + Decimal(n));
  }

  lemma MinusTrimmed(n: nat)
    ensures Trimmed("-" + Decimal(n))
  {
    assert ("-" + Decimal(n))[|Decimal(n)|] == Decimal(n)[|Decimal(n)| - 1];
    assert IsDigit(Decimal(n)[|Decimal(n)| - 1]);
  }

  /** Blank lines, comments and lines without `=` assign nothing, in either file. */
  lemma NothingAssigned(line: string)
    requires
      || AllSpace(line)
      || '=' !in line
      || exists i :: 0 <= i < |line| && AllSpace(line[..i]) && line[i] == '#'
    ensures ParseLine(line) == None && ScaleLine(line) == None && EnvLine(line) == None
  {
    TrimGivesTrimmed(line);
    if AllSpace(line) {
      TrimStartSkips(line, "");
      assert line + "" == line;
    } else if '=' in line {
      var i :| 0 <= i < |line| && AllSpace(line[..i]) && line[i] == '#';
      TrimStartSkips(line[..i], line[i..]);
      assert line == line[..i] + line[i..] && line[i..][0] == '#';
      TrimEndShape(line[i..]);
      TrimEndKeepsHead(line[i..]);
    }
  }

  lemma {:induction false} TrimEndKeepsHead(s: string)
    requires s != "" && !IsSpace(s[0])
    ensures TrimEnd(s) != "" && TrimEnd(s)[0] == s[0]
  {
    if IsSpace(s[|s| - 1]) { TrimEndKeepsHead(s[..|s| - 1]); }
  }

  /** White space around the line, the key and the value does not matter. */
  lemma SpacesAround(left: string, key: string, beforeEq: string, afterEq: string, raw: string, right: string)
    requires AllSpace(left) && AllSpace(beforeEq) && AllSpace(afterEq) && AllSpace(right)
    requires WellFormedKey(key) && key != "" && Trimmed(raw) && raw != ""
    ensures ParseLine(left + (key + beforeEq + "=" + (afterEq + raw)) + right) == Some((key, raw))
  {
    BodyTrimmed(key, beforeEq, afterEq, raw);
    TrimAround(left, key + beforeEq + "=" + (afterEq + raw), right);
    SpacedParts(key, beforeEq, afterEq, raw);
    SplitParses(left + (key + beforeEq + "=" + (afterEq + raw)) + right, key + beforeEq, afterEq + raw);
  }

  lemma BodyTrimmed(key: string, beforeEq: string, afterEq: string, raw: string)
    requires Trimmed(key) && key != "" && Trimmed(raw) && raw != ""
    ensures Trimmed(key + beforeEq + "=" + (afterEq + raw))
  {
    var body := key + beforeEq + "=" + (afterEq + raw);
    assert body[0] == key[0] && body[|body| - 1] == raw[|raw| - 1];
  }

  lemma SpacedParts(key: string, beforeEq: string, afterEq: string, raw: string)
    requires AllSpace(beforeEq) && AllSpace(afterEq) && WellFormedKey(key) && key != "" && Trimmed(raw)
    ensures Trim(key + beforeEq) == key && Trim(afterEq + raw) == raw
    ensures '=' !in key + beforeEq && (key + beforeEq)[0] != '#'
  {
    TrimAround("", key, beforeEq);
    TrimAround(afterEq, raw, "");
    assert "" + key + beforeEq == key + beforeEq && afterEq + raw + "" == afterEq + raw;
  }

  lemma TrimAround(left: string, s: string, right: string)
    requires AllSpace(left) && AllSpace(right) && Trimmed(s)
    ensures Trim(left + s + right) == s
  {
    assert left + s + right == left + (s + right);
    TrimStartSkips(left, s + right);
    TrimSkipsEnd(s, right);
    TrimGivesTrimmed(s);
  }

  // ---------- .env ----------

  /** A value wrapped in one pair of equal quotes loses them; `slice(1, -1)` of a single
      quote character is empty. */
  function Unquote(value: string): string {
    if value != "" && (value[0] == '"' == value[|value| - 1] || value[0] == '\'' == value[|value| - 1])
    then if |value| == 1 then "" else value[1..|value| - 1]
    else value
  }

  function EnvLine(line: string): Option<(string, string)> {
    match ParseLine(line)
    case None => None
    case Some((key, raw)) => Some((key, Unquote(raw)))
  }

  /** The value of the first line that assigns the key. */
  function FirstValue(lines: seq<string>, key: string): Option<string> {
    if lines == [] then None
    else
      match EnvLine(lines[0])
      case Some((k, value)) => if k == key then Some(value) else FirstValue(lines[1..], key)
      case None => FirstValue(lines[1..], key)
  }

  datatype Quote = Single | Double

  function Quoted(value: string, q: Quote): string {
    var mark := if q == Single then "'" else "\"";
    mark + value + mark
  }

  lemma QuotesRemoved(value: string, q: Quote)
    ensures Unquote(Quoted(value, q)) == value && Trimmed(Quoted(value, q))
  {
    assert Quoted(value, q)[1..|Quoted(value, q)| - 1] == value;
  }

  /** A quoted value is read as it is, white space, `#`, `=` and quotes included. */
  lemma QuotedLineParses(key: string, value: string, q: Quote)
    requires WellFormedKey(key)
    ensures EnvLine(key + "=" + Quoted(value, q)) == Some((key, value))
  {
    QuotesRemoved(value, q);
    KeyValueParses(key, Quoted(value, q));
  }

  function FirstEntry(entries: seq<(string, string)>, key: string): Option<string> {
    if entries == [] then None
    else if entries[0].0 == key then Some(entries[0].1)
    else FirstEntry(entries[1..], key)
  }

  function PrintQuoted(entries: seq<(string, string)>, q: Quote): seq<string> {
    seq(|entries|, i requires 0 <= i < |entries| => entries[i].0 + "=" + Quoted(entries[i].1, q))
  }

  /** Writing variables in quotes, with either line break, and reading them back: every key
      gets its first entry. */
  lemma PrintedEnvReadsBack(entries: seq<(string, string)>, q: Quote, crlf: bool, key: string)
    requires |entries| >= 1
    requires forall i :: 0 <= i < |entries| ==> WellFormedKey(entries[i].0) && '\n' !in entries[i].1
    ensures FirstValue(Lines(Join(PrintQuoted(entries, q), crlf)), key) == FirstEntry(entries, key)
  {
    forall i | 0 <= i < |entries| ensures OneLine(PrintQuoted(entries, q)[i]) {
      QuotedIsOneLine(entries[i].0, entries[i].1, q);
    }
    LinesOfJoin(PrintQuoted(entries, q), crlf);
    FirstOfPrinted(entries, q, key);
  }

  lemma QuotedIsOneLine(key: string, value: string, q: Quote)
    requires WellFormedKey(key) && '\n' !in value
    ensures OneLine(key + "=" + Quoted(value, q))
  {
    var mark := if q == Single then "'" else "\"";
    assert key + "=" + Quoted(value, q) == key + "=" + mark + value + mark;
  }

  lemma FirstOfPrinted(entries: seq<(string, string)>, q: Quote, key: string)
    requires forall i :: 0 <= i < |entries| ==> WellFormedKey(entries[i].0)
    ensures FirstValue(PrintQuoted(entries, q), key) == FirstEntry(entries, key)
  {
    forall i | 0 <= i < |entries| ensures EnvLine(PrintQuoted(entries, q)[i]) == Some(entries[i]) {
      QuotedLineParses(entries[i].0, entries[i].1, q);
    }
    FirstOfParsed(PrintQuoted(entries, q), entries, key);
  }

  lemma {:induction false} FirstOfParsed(lines: seq<string>, entries: seq<(string, string)>, key: string)
    requires |lines| == |entries| && forall i :: 0 <= i < |lines| ==> EnvLine(lines[i]) == Some(entries[i])
    ensures FirstValue(lines, key) == FirstEntry(entries, key)
  {
    if lines != [] { FirstOfParsed(lines[1..], entries[1..], key); }
  }

  /** The value starts and ends with the same quote character; one character does both. */
  predicate InQuotes(value: string) {
    value != "" && value[0] == value[|value| - 1] && value[0] in {'"', '\''}
  }

  /** A value that is not in quotes is read as it stands. */
  lemma PlainLineParses(key: string, value: string)
    requires WellFormedKey(key) && Trimmed(value) && !InQuotes(value)
    ensures EnvLine(key + "=" + value) == Some((key, value))
  {
    KeyValueParses(key, value);
  }

  /** One quote character alone is read as the empty value. */
  lemma LoneQuoteIsEmpty(key: string, q: Quote)
    requires WellFormedKey(key)
    ensures EnvLine(key + "=" + if q == Single then "'" else "\"") == Some((key, ""))
  {
    KeyValueParses(key, if q == Single then "'" else "\"");
  }

  function PrintPlain(entries: seq<(string, string)>): seq<string> {
    seq(|entries|, i requires 0 <= i < |entries| => entries[i].0 + "=" + entries[i].1)
  }

  /** Writing variables without quotes, with either line break, and reading them back: every
      key gets its first entry. */
  lemma PlainEnvReadsBack(entries: seq<(string, string)>, crlf: bool, key: string)
    requires |entries| >= 1
    requires forall i :: 0 <= i < |entries| ==>
      WellFormedKey(entries[i].0) && Trimmed(entries[i].1) && !InQuotes(entries[i].1) && '\n' !in entries[i].1
    ensures FirstValue(Lines(Join(PrintPlain(entries), crlf)), key) == FirstEntry(entries, key)
  {
    forall i | 0 <= i < |entries|
      ensures OneLine(PrintPlain(entries)[i]) && EnvLine(PrintPlain(entries)[i]) == Some(entries[i])
    {
      PlainIsOneLine(entries[i].0, entries[i].1);
      PlainLineParses(entries[i].0, entries[i].1);
    }
    LinesOfJoin(PrintPlain(entries), crlf);
    FirstOfParsed(PrintPlain(entries), entries, key);
  }

  lemma PlainIsOneLine(key: string, value: string)
    requires WellFormedKey(key) && Trimmed(value) && '\n' !in value
    ensures OneLine(key + "=" + value)
  {
    var line := key + "=" + value;
    assert line[|line| - 1] == if value == "" then '=' else value[|value| - 1];
  }

  /** `after` is `before` with every unset key given its first assignment in the text. */
  ghost predicate Loaded(before: map<string, string>, text: string, after: map<string, string>) {
    forall key :: Lookup(after, key) == if key in before then Some(before[key]) else FirstValue(Lines(text), key)
  }

  /** A valid line sets its key unless it is set; any other line does nothing. */
  function Default(vars: map<string, string>, line: string): map<string, string> {
    match EnvLine(line)
    case Some((key, value)) => if key in vars then vars else vars[key := value]
    case None => vars
  }

  /** The lines taken as defaults one after another. */
  function Defaulted(vars: map<string, string>, lines: seq<string>): map<string, string> {
    if lines == [] then vars else Default(Defaulted(vars, lines[..|lines| - 1]), lines[|lines| - 1])
  }

  lemma {:induction false} FirstPush(lines: seq<string>, line: string, key: string)
    ensures FirstValue(lines + [line], key) ==
      if FirstValue(lines, key).Some? then FirstValue(lines, key) else FirstValue([line], key)
  {
    if lines == [] {
      assert lines + [line] == [line];
    } else {
      assert (lines + [line])[1..] == lines[1..] + [line];
      FirstPush(lines[1..], line, key);
    }
  }

  lemma {:induction false} DefaultedHolds(vars: map<string, string>, lines: seq<string>, key: string)
    ensures Lookup(Defaulted(vars, lines), key) == if key in vars then Some(vars[key]) else FirstValue(lines, key)
  {
    if lines != [] {
      var n := |lines| - 1;
      DefaultedHolds(vars, lines[..n], key);
      assert lines == lines[..n] + [lines[n]];
      FirstPush(lines[..n], lines[n], key);
      OneDefault(Defaulted(vars, lines[..n]), lines[n], key);
    }
  }

  lemma OneDefault(vars: map<string, string>, line: string, key: string)
    ensures Lookup(Default(vars, line), key) == if key in vars then Some(vars[key]) else FirstValue([line], key)
  {
    assert [line][1..] == [];
  }

  lemma DefaultedNext(vars: map<string, string>, lines: seq<string>, i: nat)
    requires i < |lines|
    ensures Defaulted(vars, lines[..i + 1]) == Default(Defaulted(vars, lines[..i]), lines[i])
  {
    assert lines[..i + 1][..i] == lines[..i];
  }

  lemma DefaultedLoads(vars: map<string, string>, text: string)
    ensures Loaded(vars, text, Defaulted(vars, Lines(text)))
  {
    forall key
      ensures Lookup(Defaulted(vars, Lines(text)), key)
           == if key in vars then Some(vars[key]) else FirstValue(Lines(text), key)
    {
      DefaultedHolds(vars, Lines(text), key);
    }
  }

  class Environment {
    var vars: map<string, string>

    constructor (vars: map<string, string>)
      ensures this.vars == vars
    {
      this.vars := vars;
    }

    method LoadEnvFile(file: Option<string>)
      modifies this
      ensures file.None? ==> vars == old(vars)
      ensures file.Some? ==> Loaded(old(vars), file.value, vars)
    {
      if file.None? { return; }
      var lines := Lines(file.value);
      var i := 0;
      while i < |lines|
        invariant 0 <= i <= |lines|
        invariant vars == Defaulted(old(vars), lines[..i])
      {
        DefaultedNext(old(vars), lines, i);
        var trimmed := Trim(lines[i]);
        if trimmed != "" && trimmed[0] != '#' {
          var eq := IndexOf(trimmed, '=');
          if eq != -1 {
            var key := Trim(trimmed[..eq]);
            var value := Unquote(Trim(trimmed[eq + 1..]));
            if key !in vars { vars := vars[key := value]; }
          }
        }
        i := i + 1;
      }
      assert lines[..i] == lines;
      DefaultedLoads(old(vars), file.value);
    }
  }

  /** Loading changes no variable already set, is determined by the text, and a second load
      of the same file does nothing. */
  lemma LoadIsIdempotent(before: map<string, string>, text: string, once: map<string, string>,
                         twice: map<string, string>)
    requires Loaded(before, text, once) && Loaded(once, text, twice)
    ensures twice == once
    ensures forall key :: key in before ==> key in once && once[key] == before[key]
    ensures forall other :: Loaded(before, text, other) ==> other == once
  {
    forall key ensures Lookup(twice, key) == Lookup(once, key) {
      assert Lookup(once, key) == if key in before then Some(before[key]) else FirstValue(Lines(text), key);
      assert Lookup(twice, key) == if key in once then Some(once[key]) else FirstValue(Lines(text), key);
    }
    LookupDetermines(once, twice);
    forall key | key in before ensures key in once && once[key] == before[key] {
      assert Lookup(once, key) == Some(before[key]);
    }
    forall other | Loaded(before, text, other) ensures other == once {
      forall key ensures Lookup(other, key) == Lookup(once, key) {}
      LookupDetermines(once, other);
    }
  }

  lemma LookupDetermines<V>(m: map<string, V>, n: map<string, V>)
    requires forall key :: Lookup(m, key) == Lookup(n, key)
    ensures m == n
  {
    forall key ensures key in m <==> key in n { assert Lookup(m, key) == Lookup(n, key); }
    forall key | key in m ensures m[key] == n[key] { assert Lookup(m, key) == Lookup(n, key); }
  }
}
