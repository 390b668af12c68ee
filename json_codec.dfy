/**
 * The JSON text the extension keeps in its settings store, written the way
 * `json_encode` writes it with its default flags, and read back the way
 * `json_decode(..., true)` reads it.
 *
 * Three shapes occur: a string (the OAuth token), a list of strings (the
 * backup directories) and a list of log entries, each an object with the
 * string fields timestamp, level and message in that order.
 */
module JsonCodec {
  import opened PhpRuntime

  // ---------------------------------------------------------------------
  // Hexadecimal digits of \uXXXX escapes
  // ---------------------------------------------------------------------

  /** json_encode writes lower-case hexadecimal digits. */
  function HexDigit(d: nat): (c: char)
    requires d < 16
  {
    if d < 10 then ('0' as int + d) as char else ('a' as int + d - 10) as char
  }

  /** json_decode accepts either case. */
  function HexValue(c: char): (r: Option<nat>)
    ensures r.Some? ==> r.value < 16
  {
    if '0' <= c <= '9' then Some(c as int - '0' as int)
    else if 'a' <= c <= 'f' then Some(c as int - 'a' as int + 10)
    else if 'A' <= c <= 'F' then Some(c as int - 'A' as int + 10)
    else None
  }

  function Hex4(v: nat): (s: string)
    requires v < 0x10000
    ensures |s| == 4
  {
    var v1 := v / 16;
    var v2 := v1 / 16;
    [HexDigit(v2 / 16), HexDigit(v2 % 16), HexDigit(v1 % 16), HexDigit(v % 16)]
  }

  function ParseHex4(s: string): (r: Option<nat>)
    requires |s| == 4
    ensures r.Some? ==> r.value < 0x10000
  {
    match (HexValue(s[0]), HexValue(s[1]), HexValue(s[2]), HexValue(s[3]))
    case (Some(a), Some(b), Some(c), Some(d)) => Some(a * 0x1000 + b * 0x100 + c * 16 + d)
    case _ => None
  }

  lemma {:induction false} Hex4RoundTrip(v: nat)
    requires v < 0x10000
    ensures ParseHex4(Hex4(v)) == Some(v)
  {
    var v1 := v / 16;
    var v2 := v1 / 16;
    HexDigitRoundTrip(v2 / 16);
    HexDigitRoundTrip(v2 % 16);
    HexDigitRoundTrip(v1 % 16);
    HexDigitRoundTrip(v % 16);
  }

  lemma {:induction false} HexDigitRoundTrip(d: nat)
    requires d < 16
    ensures HexValue(HexDigit(d)) == Some(d)
  {
  }

  // ---------------------------------------------------------------------
  // Strings
  // ---------------------------------------------------------------------

  function HighSurrogate(n: int): (h: nat)
    requires 0x10000 <= n < 0x110000
    ensures 0xD800 <= h < 0xDC00
  {
    0xD800 + (n - 0x10000) / 0x400
  }

  function LowSurrogate(n: int): (l: nat)
    requires 0x10000 <= n < 0x110000
    ensures 0xDC00 <= l < 0xE000
  {
    0xDC00 + (n - 0x10000) % 0x400
  }

  function CombineSurrogates(h: nat, l: nat): (n: int)
    requires 0xD800 <= h < 0xDC00 && 0xDC00 <= l < 0xE000
    ensures 0x10000 <= n < 0x110000
  {
    0x10000 + (h - 0xD800) * 0x400 + (l - 0xDC00)
  }

  /** The text json_encode writes for one character of a string. */
  function EscapeChar(c: char): (s: string)
    ensures |s| > 0
  {
    var n := c as int;
    if c == '"' then "\\\""
    else if c == '\\' then "\\\\"
    else if c == '/' then "\\/"
    else if n == 8 then "\\b"
    else if n == 12 then "\\f"
    else if c == '\n' then "\\n"
    else if c == '\r' then "\\r"
    else if c == '\t' then "\\t"
    else if n < 0x20 then "\\u" + Hex4(n)
    else if n < 0x80 then [c]
    else if n < 0x10000 then "\\u" + Hex4(n)
    else "\\u" + Hex4(HighSurrogate(n)) + "\\u" + Hex4(LowSurrogate(n))
  }

  function EscapeBody(x: string): string
    decreases |x|
  {
    if |x| == 0 then "" else EscapeChar(x[0]) + EscapeBody(x[1..])
  }

  /** `json_encode($x)` for a string. */
  function Quote(x: string): (s: string)
    ensures |s| >= 2 && s[0] == '"'
  {
    "\"" + EscapeBody(x) + "\""
  }

  /** The character a one-letter escape after a backslash stands for. */
  function SimpleUnescape(e: char): Option<char>
  {
    if e == '"' then Some('"')
    else if e == '\\' then Some('\\')
    else if e == '/' then Some('/')
    else if e == 'b' then Some(8 as char)
    else if e == 'f' then Some(12 as char)
    else if e == 'n' then Some('\n')
    else if e == 'r' then Some('\r')
    else if e == 't' then Some('\t')
    else None
  }

  function Prepend(c: char, r: Option<(string, string)>): Option<(string, string)>
  {
    if r.None? then None else Some(([c] + r.value.0, r.value.1))
  }

  /**
   * Reads the characters of a string literal up to and including its closing
   * quote; gives the characters and the text after the quote. A raw control
   * character, an unknown escape or an unpaired surrogate is an error, as in
   * json_decode.
   */
  function ParseStringBody(s: string): (r: Option<(string, string)>)
    ensures r.Some? ==> |r.value.1| < |s|
    decreases |s|
  {
    if |s| == 0 then None
    else if s[0] == '"' then Some(("", s[1..]))
    else if s[0] == '\\' then
      if |s| < 2 then None
      else if s[1] == 'u' then
        if |s| < 6 then None
        else match ParseHex4(s[2..6])
          case None => None
          case Some(v) =>
            if 0xD800 <= v < 0xDC00 then
              if |s| < 12 || s[6] != '\\' || s[7] != 'u' then None
              else match ParseHex4(s[8..12])
                case None => None
                case Some(w) =>
                  if 0xDC00 <= w < 0xE000 then Prepend(CombineSurrogates(v, w) as char, ParseStringBody(s[12..]))
                  else None
            else if 0xDC00 <= v < 0xE000 then None
            else Prepend(v as char, ParseStringBody(s[6..]))
      else match SimpleUnescape(s[1])
        case None => None
        case Some(c) => Prepend(c, ParseStringBody(s[2..]))
    else if (s[0] as int) < 0x20 then None
    else Prepend(s[0], ParseStringBody(s[1..]))
  }

  /** Reads one string literal from the front of s. */
  function ParseString(s: string): (r: Option<(string, string)>)
    ensures r.Some? ==> |r.value.1| < |s|
  {
    if |s| > 0 && s[0] == '"' then ParseStringBody(s[1..]) else None
  }

  /** `json_decode($s)` when s must hold exactly one string. */
  function DecodeString(s: string): Option<string>
  {
    match ParseString(s)
    case Some((x, rest)) => if rest == "" then Some(x) else None
    case None => None
  }

  lemma {:induction false} EscapeCharThenParse(c: char, t: string)
    ensures ParseStringBody(EscapeChar(c) + t) == Prepend(c, ParseStringBody(t))
  {
    var n := c as int;
    var s := EscapeChar(c) + t;
    if c == '"' || c == '\\' || c == '/' || n == 8 || n == 12 || c == '\n' || c == '\r' || c == '\t' {
      assert s[0] == '\\' && s[2..] == t;
      assert s[1] != 'u' && SimpleUnescape(s[1]) == Some(c);
    } else if n < 0x20 || (0x80 <= n < 0x10000) {
      assert s[0] == '\\' && s[1] == 'u' && s[2..6] == Hex4(n) && s[6..] == t;
      Hex4RoundTrip(n);
      assert !(0xD800 <= n < 0xE000);
      assert n as char == c;
    } else if n < 0x80 {
      assert s[0] == c && s[1..] == t;
    } else {
      var h, l := HighSurrogate(n), LowSurrogate(n);
      assert s[0] == '\\' && s[1] == 'u' && s[2..6] == Hex4(h);
      assert s[6] == '\\' && s[7] == 'u' && s[8..12] == Hex4(l) && s[12..] == t;
      Hex4RoundTrip(h);
      Hex4RoundTrip(l);
      assert CombineSurrogates(h, l) == n;
      assert CombineSurrogates(h, l) as char == c;
    }
  }

  lemma {:induction false} StringBodyRoundTrip(x: string, rest: string)
    ensures ParseStringBody(EscapeBody(x) + "\"" + rest) == Some((x, rest))
    decreases |x|
  {
    if |x| == 0 {
      assert EscapeBody(x) + "\"" + rest == "\"" + rest;
    } else {
      var t := EscapeBody(x[1..]) + "\"" + rest;
      assert EscapeBody(x) + "\"" + rest == EscapeChar(x[0]) + t;
      EscapeCharThenParse(x[0], t);
      StringBodyRoundTrip(x[1..], rest);
      assert [x[0]] + x[1..] == x;
    }
  }

  /** A string literal is read back whole, whatever follows it. */
  lemma {:induction false} QuoteRoundTrip(x: string, rest: string)
    ensures ParseString(Quote(x) + rest) == Some((x, rest))
  {
    assert (Quote(x) + rest)[1..] == EscapeBody(x) + "\"" + rest;
    StringBodyRoundTrip(x, rest);
  }

  /** `json_decode(json_encode($x))` gives back the string x. */
  lemma {:induction false} DecodeStringRoundTrip(x: string)
    ensures DecodeString(Quote(x)) == Some(x)
  {
    QuoteRoundTrip(x, "");
    assert Quote(x) + "" == Quote(x);
  }

  // ---------------------------------------------------------------------
  // Lists of strings
  // ---------------------------------------------------------------------

  function JoinQuoted(xs: seq<string>): string
    decreases |xs|
  {
    if |xs| == 0 then ""
    else if |xs| == 1 then Quote(xs[0])
    else Quote(xs[0]) + "," + JoinQuoted(xs[1..])
  }

  /** `json_encode($xs)` for a list of strings. */
  function EncodeStrings(xs: seq<string>): string
  {
    "[" + JoinQuoted(xs) + "]"
  }

  /** Reads the elements of a non-empty string list after its opening bracket. */
  function ParseStringElements(s: string): Option<seq<string>>
    decreases |s|
  {
    match ParseString(s)
    case None => None
    case Some((x, rest)) =>
      if rest == "]" then Some([x])
      else if |rest| > 0 && rest[0] == ',' then
        match ParseStringElements(rest[1..])
        case None => None
        case Some(xs) => Some([x] + xs)
      else None
  }

  /** `json_decode($s, true)` when s must hold a list of strings. */
  function DecodeStrings(s: string): Option<seq<string>>
  {
    if s == "[]" then Some([])
    else if |s| > 0 && s[0] == '[' then ParseStringElements(s[1..])
    else None
  }

  lemma {:induction false} StringElementsRoundTrip(xs: seq<string>)
    requires |xs| > 0
    ensures ParseStringElements(JoinQuoted(xs) + "]") == Some(xs)
    decreases |xs|
  {
    if |xs| == 1 {
      SingleStringRoundTrip(xs[0]);
      assert xs == [xs[0]];
    } else {
      StringElementsRoundTrip(xs[1..]);
      StringElementsCons(xs);
    }
  }

  /** A list of one string is read back. */
  lemma {:induction false} SingleStringRoundTrip(x: string)
    ensures ParseStringElements(JoinQuoted([x]) + "]") == Some([x])
  {
    QuoteRoundTrip(x, "]");
  }

  /** A string list whose tail is read back is read back whole. */
  lemma {:induction false} StringElementsCons(xs: seq<string>)
    requires |xs| > 1 && ParseStringElements(JoinQuoted(xs[1..]) + "]") == Some(xs[1..])
    ensures ParseStringElements(JoinQuoted(xs) + "]") == Some(xs)
  {
    HeadTail(xs);
    JoinAppend(Quote(xs[0]), JoinQuoted(xs[1..]));
    StringElementsStep(xs[0], JoinQuoted(xs[1..]) + "]", xs[1..]);
  }

  /** One more string in front of a list that parses. */
  lemma {:induction false} StringElementsStep(x: string, tail: string, xs: seq<string>)
    requires ParseStringElements(tail) == Some(xs)
    ensures ParseStringElements(Quote(x) + ("," + tail)) == Some([x] + xs)
  {
    QuoteRoundTrip(x, "," + tail);
    assert ("," + tail)[1..] == tail;
  }

  /** The directory list stored by saveSettings is read back unchanged. */
  lemma {:induction false} StringsRoundTrip(xs: seq<string>)
    ensures DecodeStrings(EncodeStrings(xs)) == Some(xs)
  {
    if |xs| == 0 {
      assert EncodeStrings(xs) == "[]";
    } else {
      assert JoinQuoted(xs)[0] == '"';
      Bracketed(JoinQuoted(xs), '"');
      StringElementsRoundTrip(xs);
    }
  }

  // ---------------------------------------------------------------------
  // Lists of log entries
  // ---------------------------------------------------------------------

  /** One element of the stored backup log. */
  datatype LogEntry = LogEntry(timestamp: string, level: string, message: string)

  const TimestampKey: string := "{\"timestamp\":"
  const LevelKey: string := ",\"level\":"
  const MessageKey: string := ",\"message\":"

  /** `json_encode(['timestamp' => ..., 'level' => ..., 'message' => ...])`. */
  function EncodeEntry(e: LogEntry): (s: string)
    ensures |s| > 0 && s[0] == '{'
  {
    TimestampKey + (Quote(e.timestamp) + (LevelKey + (Quote(e.level) + (MessageKey + (Quote(e.message) + "}")))))
  }

  /** Consumes a fixed piece of text from the front of s. */
  function ParseLiteral(lit: string, s: string): (r: Option<string>)
    ensures r.Some? ==> |r.value| == |s| - |lit|
  {
    if IsPrefix(lit, s) then Some(s[|lit|..]) else None
  }

  lemma {:induction false} LiteralRoundTrip(lit: string, rest: string)
    ensures ParseLiteral(lit, lit + rest) == Some(rest)
  {
    assert (lit + rest)[..|lit|] == lit;
    assert (lit + rest)[|lit|..] == rest;
  }

  /** Reads `key` followed by a string literal from the front of s. */
  function ParseField(key: string, s: string): (r: Option<(string, string)>)
    ensures r.Some? ==> |r.value.1| < |s|
  {
    match ParseLiteral(key, s)
    case None => None
    case Some(s1) => ParseString(s1)
  }

  lemma {:induction false} FieldRoundTrip(key: string, x: string, rest: string)
    ensures ParseField(key, key + (Quote(x) + rest)) == Some((x, rest))
  {
    LiteralRoundTrip(key, Quote(x) + rest);
    QuoteRoundTrip(x, rest);
  }

  /** Reads one entry object from the front of s. */
  function ParseEntry(s: string): (r: Option<(LogEntry, string)>)
    ensures r.Some? ==> |r.value.1| < |s|
  {
    match ParseField(TimestampKey, s)
    case None => None
    case Some((ts, s1)) =>
      match ParseField(LevelKey, s1)
      case None => None
      case Some((level, s2)) =>
        match ParseField(MessageKey, s2)
        case None => None
        case Some((message, s3)) =>
          match ParseLiteral("}", s3)
          case None => None
          case Some(s4) => Some((LogEntry(ts, level, message), s4))
  }

  lemma {:induction false} EntryRoundTrip(e: LogEntry, rest: string)
    ensures ParseEntry(EncodeEntry(e) + rest) == Some((e, rest))
  {
    var s3 := "}" + rest;
    var s2 := MessageKey + (Quote(e.message) + s3);
    var s1 := LevelKey + (Quote(e.level) + s2);
    EntryShape(Quote(e.timestamp), Quote(e.level), Quote(e.message), rest);
    FieldRoundTrip(TimestampKey, e.timestamp, s1);
    FieldRoundTrip(LevelKey, e.level, s2);
    FieldRoundTrip(MessageKey, e.message, s3);
    LiteralRoundTrip("}", rest);
  }

  /** An encoded entry followed by more text, regrouped so that each field is followed by the rest. */
  lemma {:induction false} EntryShape(q1: string, q2: string, q3: string, rest: string)
    ensures (TimestampKey + (q1 + (LevelKey + (q2 + (MessageKey + (q3 + "}")))))) + rest
            == TimestampKey + (q1 + (LevelKey + (q2 + (MessageKey + (q3 + ("}" + rest))))))
  {
  }

  function JoinEntries(es: seq<LogEntry>): string
    decreases |es|
  {
    if |es| == 0 then ""
    else if |es| == 1 then EncodeEntry(es[0])
    else EncodeEntry(es[0]) + "," + JoinEntries(es[1..])
  }

  /** `json_encode($logsArray)`. */
  function EncodeLog(es: seq<LogEntry>): string
  {
    "[" + JoinEntries(es) + "]"
  }

  function ParseEntries(s: string): Option<seq<LogEntry>>
    decreases |s|
  {
    match ParseEntry(s)
    case None => None
    case Some((e, rest)) =>
      if rest == "]" then Some([e])
      else if |rest| > 0 && rest[0] == ',' then
        match ParseEntries(rest[1..])
        case None => None
        case Some(es) => Some([e] + es)
      else None
  }

  /** `json_decode($logs, true)` when the text must hold a list of log entries. */
  function DecodeLog(s: string): Option<seq<LogEntry>>
  {
    if s == "[]" then Some([])
    else if |s| > 0 && s[0] == '[' then ParseEntries(s[1..])
    else None
  }

  lemma {:induction false} EntriesRoundTrip(es: seq<LogEntry>)
    requires |es| > 0
    ensures ParseEntries(JoinEntries(es) + "]") == Some(es)
    decreases |es|
  {
    if |es| == 1 {
      SingleEntryRoundTrip(es[0]);
      assert es == [es[0]];
    } else {
      EntriesRoundTrip(es[1..]);
      EntriesCons(es);
    }
  }

  /** A list of one entry is read back. */
  lemma {:induction false} SingleEntryRoundTrip(e: LogEntry)
    ensures ParseEntries(JoinEntries([e]) + "]") == Some([e])
  {
    EntryRoundTrip(e, "]");
  }

  /** A list whose tail is read back is read back whole. */
  lemma {:induction false} EntriesCons(es: seq<LogEntry>)
    requires |es| > 1 && ParseEntries(JoinEntries(es[1..]) + "]") == Some(es[1..])
    ensures ParseEntries(JoinEntries(es) + "]") == Some(es)
  {
    HeadTail(es);
    JoinAppend(EncodeEntry(es[0]), JoinEntries(es[1..]));
    EntriesStep(es[0], JoinEntries(es[1..]) + "]", es[1..]);
  }

  /** A non-empty list is its head followed by its tail. */
  lemma {:induction false} HeadTail<T>(s: seq<T>)
    requires |s| > 0
    ensures [s[0]] + s[1..] == s
  {
  }

  /** Text joined after an item and a comma, then closed, is the item followed by the closed rest. */
  lemma {:induction false} JoinAppend(x: string, y: string)
    ensures x + "," + y + "]" == x + ("," + (y + "]"))
  {
  }

  /** One more entry in front of a list that parses. */
  lemma {:induction false} EntriesStep(e: LogEntry, tail: string, es: seq<LogEntry>)
    requires ParseEntries(tail) == Some(es)
    ensures ParseEntries(EncodeEntry(e) + ("," + tail)) == Some([e] + es)
  {
    EntryRoundTrip(e, "," + tail);
    assert ("," + tail)[1..] == tail;
  }

  lemma {:induction false} JoinEntriesHead(es: seq<LogEntry>)
    requires |es| > 0
    ensures |JoinEntries(es)| > 0 && JoinEntries(es)[0] == '{'
  {
    if |es| > 1 {
      assert JoinEntries(es) == EncodeEntry(es[0]) + "," + JoinEntries(es[1..]);
    }
  }

  lemma {:induction false} DecodeLogOpen(s: string)
    requires |s| > 1 && s[0] == '[' && s[1] != ']'
    ensures DecodeLog(s) == ParseEntries(s[1..])
  {
  }

  /** The stored log is read back as the list that was written. */
  lemma {:induction false} LogRoundTrip(es: seq<LogEntry>)
    ensures DecodeLog(EncodeLog(es)) == Some(es)
  {
    if |es| == 0 {
      assert EncodeLog(es) == "[]";
    } else {
      JoinEntriesHead(es);
      Bracketed(JoinEntries(es), '{');
      DecodeLogOpen(EncodeLog(es));
      EntriesRoundTrip(es);
    }
  }

  /** A list text whose items start with `c`: what follows the bracket is the items and the closing bracket. */
  lemma {:induction false} Bracketed(j: string, c: char)
    requires |j| > 0 && j[0] == c
    ensures var s := "[" + j + "]"; |s| > 1 && s[0] == '[' && s[1] == c && s[1..] == j + "]"
  {
    var s := "[" + j + "]";
    assert s[1..] == j + "]";
  }
}
