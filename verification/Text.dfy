/** The string operations the JavaScript sources use, on ASCII case and decimal digits. */
module Text {
  import opened Options

  // ---------- white space and case ----------

  /** What `trim` strips and `\s` matches. */
  predicate IsSpace(c: char) {
    var n := c as int;
    9 <= n <= 13 || n == 0x20 || n == 0xA0 || n == 0x1680 || 0x2000 <= n <= 0x200A
    || n == 0x2028 || n == 0x2029 || n == 0x202F || n == 0x205F || n == 0x3000 || n == 0xFEFF
  }

  /** The white space and line terminators of ECMAScript. */
  const SPACES: set<int> := {
    0x9, 0xA, 0xB, 0xC, 0xD, 0x20, 0xA0, 0x1680, 0x2000, 0x2001, 0x2002, 0x2003, 0x2004, 0x2005, 0x2006,
    0x2007, 0x2008, 0x2009, 0x200A, 0x2028, 0x2029, 0x202F, 0x205F, 0x3000, 0xFEFF}

  lemma SpacesExactly(c: char)
    ensures IsSpace(c) <==> c as int in SPACES
  {
  }

  function TrimStart(s: string): string {
    if s != "" && IsSpace(s[0]) then TrimStart(s[1..]) else s
  }

  function TrimEnd(s: string): string {
    if s != "" && IsSpace(s[|s| - 1]) then TrimEnd(s[..|s| - 1]) else s
  }

  function Trim(s: string): string {
    TrimEnd(TrimStart(s))
  }

  predicate Trimmed(s: string) {
    s == "" || (!IsSpace(s[0]) && !IsSpace(s[|s| - 1]))
  }

  lemma {:induction false} TrimStartShape(s: string)
    ensures TrimStart(s) == "" || !IsSpace(TrimStart(s)[0])
    ensures exists k :: 0 <= k <= |s| && TrimStart(s) == s[k..]
  {
    if s != "" && IsSpace(s[0]) {
      TrimStartShape(s[1..]);
      var k :| 0 <= k <= |s[1..]| && TrimStart(s[1..]) == s[1..][k..];
      assert s[1..][k..] == s[k + 1..];
    } else {
      assert s == s[0..];
    }
  }

  lemma {:induction false} TrimEndShape(s: string)
    ensures TrimEnd(s) == "" || !IsSpace(TrimEnd(s)[|TrimEnd(s)| - 1])
    ensures TrimEnd(s) <= s
  {
    if s != "" && IsSpace(s[|s| - 1]) { TrimEndShape(s[..|s| - 1]); }
  }

  lemma TrimGivesTrimmed(s: string)
    ensures Trimmed(Trim(s))
    ensures Trimmed(s) ==> Trim(s) == s
    ensures forall c :: c in Trim(s) ==> c in s
  {
    TrimStartShape(s);
    TrimEndShape(TrimStart(s));
  }

  function Lower(c: char): char {
    if 'A' <= c <= 'Z' then c - 'A' + 'a' else c
  }

  function ToLower(s: string): string {
    seq(|s|, i requires 0 <= i < |s| => Lower(s[i]))
  }

  /** Emails are looked up and stored as `email.trim().toLowerCase()`. */
  function Normalise(email: string): string {
    ToLower(Trim(email))
  }

  lemma NormaliseSettles(email: string)
    ensures Normalise(Normalise(email)) == Normalise(email)
    ensures ToLower(Normalise(email)) == Normalise(email)
  {
    TrimGivesTrimmed(email);
    var n := Normalise(email);
    assert Trimmed(n);
    TrimGivesTrimmed(n);
    assert ToLower(n) == n;
  }

  predicate AllSpace(s: string) { forall i :: 0 <= i < |s| ==> IsSpace(s[i]) }

  /** The same text up to the case of ASCII letters. */
  predicate SameLetters(a: string, b: string) {
    |a| == |b| && forall i :: 0 <= i < |a| ==> SameLetter(a[i], b[i])
  }

  predicate SameLetter(c: char, d: char) {
    c == d || ('A' <= c <= 'Z' && d as int == c as int + 32) || ('A' <= d <= 'Z' && c as int == d as int + 32)
  }

  lemma {:induction false} TrimStartSkips(left: string, s: string)
    requires AllSpace(left)
    ensures TrimStart(left + s) == TrimStart(s)
  {
    if left == "" {
      assert left + s == s;
    } else {
      assert (left + s)[1..] == left[1..] + s;
      TrimStartSkips(left[1..], s);
    }
  }

  lemma {:induction false} TrimEndSkips(s: string, right: string)
    requires AllSpace(right)
    ensures TrimEnd(s + right) == TrimEnd(s)
  {
    if right == "" {
      assert s + right == s;
    } else {
      var n := |right| - 1;
      assert (s + right)[..|s + right| - 1] == s + right[..n];
      TrimEndSkips(s, right[..n]);
    }
  }

  lemma {:induction false} TrimSkipsEnd(s: string, right: string)
    requires AllSpace(right)
    ensures Trim(s + right) == Trim(s)
  {
    if s == "" {
      TrimStartSkips(right, "");
      assert s + right == right && right + "" == right;
    } else if IsSpace(s[0]) {
      assert (s + right)[1..] == s[1..] + right;
      TrimSkipsEnd(s[1..], right);
    } else {
      TrimEndSkips(s, right);
    }
  }

  lemma {:induction false} TrimStartSameLetters(a: string, b: string)
    requires SameLetters(a, b)
    ensures SameLetters(TrimStart(a), TrimStart(b))
  {
    if a != "" && IsSpace(a[0]) {
      assert SameLetter(a[0], b[0]);
      TrimStartSameLetters(a[1..], b[1..]);
    } else if a != "" {
      assert SameLetter(a[0], b[0]);
    }
  }

  lemma {:induction false} TrimEndSameLetters(a: string, b: string)
    requires SameLetters(a, b)
    ensures SameLetters(TrimEnd(a), TrimEnd(b))
  {
    if a != "" {
      assert SameLetter(a[|a| - 1], b[|b| - 1]);
      if IsSpace(a[|a| - 1]) { TrimEndSameLetters(a[..|a| - 1], b[..|b| - 1]); }
    }
  }

  /** White space around an email and the case of its letters do not matter. */
  lemma TypedDifferently(left: string, email: string, right: string, other: string)
    requires AllSpace(left) && AllSpace(right) && SameLetters(email, other)
    ensures Normalise(left + email + right) == Normalise(other)
  {
    assert left + email + right == left + (email + right);
    TrimStartSkips(left, email + right);
    TrimSkipsEnd(email, right);
    TrimStartSameLetters(email, other);
    TrimEndSameLetters(TrimStart(email), TrimStart(other));
    assert ToLower(Trim(email)) == ToLower(Trim(other));
  }

  /** And nothing else is forgiven: emails that normalise alike have the same letters. */
  lemma NormaliseDistinguishes(email: string, other: string)
    requires Normalise(email) == Normalise(other)
    ensures SameLetters(Trim(email), Trim(other))
  {
    var a, b := Trim(email), Trim(other);
    assert |ToLower(a)| == |a| && |ToLower(b)| == |b|;
    forall i | 0 <= i < |a| ensures SameLetter(a[i], b[i]) {
      assert ToLower(a)[i] == ToLower(b)[i];
    }
  }

  // ---------- decimal numbers ----------

  predicate IsDigit(c: char) { '0' <= c <= '9' }

  predicate AllDigits(s: string) { forall i :: 0 <= i < |s| ==> IsDigit(s[i]) }

  function DigitsValue(s: string): nat
    requires AllDigits(s)
  {
    if s == "" then 0 else 10 * DigitsValue(s[..|s| - 1]) + (s[|s| - 1] as int - '0' as int)
  }

  /** `String(n)` for a natural number. */
  function Decimal(n: nat): (s: string)
    ensures s != "" && AllDigits(s)
  {
    if n < 10 then [('0' as int + n) as char] else Decimal(n / 10) + [('0' as int + n % 10) as char]
  }

  lemma {:induction false} DecimalRoundTrip(n: nat)
    ensures DigitsValue(Decimal(n)) == n
  {
    if n >= 10 {
      DecimalRoundTrip(n / 10);
      assert Decimal(n)[..|Decimal(n)| - 1] == Decimal(n / 10);
    } else {
      assert Decimal(n)[..0] == "";
    }
  }

  /** `Number(raw)` where it is a natural number: empty text is 0, a sign is allowed. */
  function NumberOf(raw: string): Option<nat> {
    if raw != "" && raw[0] == '+' && |raw| > 1 && AllDigits(raw[1..]) then Some(DigitsValue(raw[1..]))
    else if raw != "" && raw[0] == '-' && |raw| > 1 && AllDigits(raw[1..]) && DigitsValue(raw[1..]) == 0 then Some(0)
    else if AllDigits(raw) then Some(DigitsValue(raw))
    else None
  }

  lemma NumberOfDecimal(n: nat)
    ensures NumberOf(Decimal(n)) == Some(n)
    ensures Trim(Decimal(n)) == Decimal(n)
  {
    DecimalRoundTrip(n);
    TrimGivesTrimmed(Decimal(n));
  }

  /** Exactly which texts are natural numbers, and which one: empty text is 0, a plus sign needs
      digits after it, and after a minus sign only zeros count. */
  predicate Reads(raw: string, sign: string, digits: string, n: nat) {
    && raw == sign + digits && AllDigits(digits) && DigitsValue(digits) == n
    && (sign == "" || (sign == "+" && digits != "") || (sign == "-" && digits != "" && n == 0))
  }

  lemma NumberOfExactly(raw: string, n: nat)
    ensures NumberOf(raw) == Some(n) <==> exists sign, digits :: Reads(raw, sign, digits, n)
  {
    if NumberOf(raw) == Some(n) {
      if raw != "" && raw[0] in {'+', '-'} {
        assert raw == raw[..1] + raw[1..];
        assert Reads(raw, raw[..1], raw[1..], n);
      } else {
        assert Reads(raw, "", raw, n);
      }
    }
    forall sign, digits | Reads(raw, sign, digits, n) ensures NumberOf(raw) == Some(n) {
      if sign == "" {
        assert raw == digits;
        if raw != "" { assert IsDigit(digits[0]); }
      } else {
        assert raw[0] == sign[0] && raw[1..] == digits;
      }
    }
  }

  lemma {:induction false} LeadingZero(digits: string)
    requires AllDigits(digits)
    ensures AllDigits("0" + digits) && DigitsValue("0" + digits) == DigitsValue(digits)
  {
    if digits == "" {
      assert "0" + digits == "0" && "0"[..0] == "";
    } else {
      var n := |digits| - 1;
      LeadingZero(digits[..n]);
      assert ("0" + digits)[..n + 1] == "0" + digits[..n];
    }
  }

  /** A text with any character that is neither a digit nor a sign in front is no number. */
  lemma NotANumber(raw: string, i: nat)
    requires i < |raw| && !IsDigit(raw[i]) && (i > 0 || raw[i] !in {'+', '-'})
    ensures NumberOf(raw) == None
  {
    if i > 0 { assert raw[1..][i - 1] == raw[i]; }
  }

  lemma NegativeIsNone(n: nat)
    requires n > 0
    ensures NumberOf("-" + Decimal(n)) == None
  {
    assert ("-" + Decimal(n))[1..] == Decimal(n);
    DecimalRoundTrip(n);
  }

  // ---------- searching ----------

  /** `indexOf` of one character. */
  function IndexOf(s: string, c: char): (i: int)
    ensures i == -1 <==> c !in s
    ensures i != -1 ==> 0 <= i < |s| && s[i] == c && c !in s[..i]
  {
    if s == "" then -1
    else if s[0] == c then 0
    else
      var k := IndexOf(s[1..], c);
      if k == -1 then -1
      else
        assert s[..k + 1] == [s[0]] + s[1..][..k];
        k + 1
  }

  lemma {:induction false} IndexOfFirst(s: string, c: char, i: nat)
    requires i < |s| && s[i] == c && c !in s[..i]
    ensures IndexOf(s, c) == i
  {
    if i > 0 {
      assert s[0] == s[..i][0];
      assert s[1..][..i - 1] == s[..i][1..];
      IndexOfFirst(s[1..], c, i - 1);
    }
  }

  // ---------- lines ----------

  /** `text.split(/\r?\n/)`. */
  function Lines(text: string): (ls: seq<string>)
    ensures |ls| >= 1
  {
    LinesFrom(text, "")
  }

  /** The lines of `text`, the first of which `start` has already begun. */
  function LinesFrom(text: string, start: string): (ls: seq<string>)
    ensures |ls| >= 1
    decreases |text|
  {
    if text == "" then [start]
    else if text[0] == '\n' then [start] + LinesFrom(text[1..], "")
    else if text[0] == '\r' && |text| > 1 && text[1] == '\n' then [start] + LinesFrom(text[2..], "")
    else LinesFrom(text[1..], start + [text[0]])
  }

  /** Lines joined by either line break. */
  function Join(ls: seq<string>, crlf: bool): string {
    if |ls| == 0 then "" else if |ls| == 1 then ls[0] else ls[0] + Break(crlf) + Join(ls[1..], crlf)
  }

  function Break(crlf: bool): string { if crlf then "\r\n" else "\n" }

  /** A line that `Lines` gives back unchanged. */
  predicate OneLine(s: string) {
    '\n' !in s && (s != "" ==> s[|s| - 1] != '\r')
  }

  lemma {:induction false} LinesOfJoin(ls: seq<string>, crlf: bool)
    requires |ls| >= 1 && forall i :: 0 <= i < |ls| ==> OneLine(ls[i])
    ensures Lines(Join(ls, crlf)) == ls
  {
    if |ls| == 1 {
      LinesSkip(ls[0], "", "");
      assert ls[0] + "" == ls[0] && "" + ls[0] == ls[0] && ls == [ls[0]];
    } else {
      LinesOfJoin(ls[1..], crlf);
      var rest := Break(crlf) + Join(ls[1..], crlf);
      LinesSkip(ls[0], rest, "");
      LinesBreak(Join(ls[1..], crlf), crlf, ls[0]);
      assert ls[0] + Break(crlf) + Join(ls[1..], crlf) == ls[0] + rest;
      assert "" + ls[0] == ls[0] && ls == [ls[0]] + ls[1..];
    }
  }

  lemma LinesBreak(text: string, crlf: bool, start: string)
    ensures LinesFrom(Break(crlf) + text, start) == [start] + LinesFrom(text, "")
  {
    if crlf {
      assert (Break(crlf) + text)[2..] == text;
    } else {
      assert (Break(crlf) + text)[1..] == text;
    }
  }

  /** Reading a line that has no line break in it. */
  lemma {:induction false} LinesSkip(line: string, rest: string, start: string)
    requires OneLine(line) && (rest == "" || rest[0] == '\n' || (|rest| > 1 && rest[0] == '\r' && rest[1] == '\n'))
    ensures LinesFrom(line + rest, start) == LinesFrom(rest, start + line)
    decreases |line|
  {
    if line == "" {
      assert line + rest == rest && start + line == start;
    } else {
      assert (line + rest)[1..] == line[1..] + rest;
      assert |line| > 1 ==> (line + rest)[1] == line[1];
      LinesSkip(line[1..], rest, start + [line[0]]);
      assert start + [line[0]] + line[1..] == start + line;
    }
  }
}
