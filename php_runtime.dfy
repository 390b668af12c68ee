/**
 * The small part of PHP's runtime behaviour that the extension's rules
 * depend on: `empty()` on strings and scalars, the `(int)` cast of a
 * string, the decimal string an integer is stored as, `strpos(...) !== false`,
 * `basename()` and `htmlspecialchars()`.
 */
module PhpRuntime {

  datatype Option<+T> = None | Some(value: T)

  /** A PHP call that either returns a value or throws an \Exception with a message. */
  datatype Result<+T> = Ok(value: T) | Thrown(message: string)

  /**
   * A request parameter as it reaches a controller: decoded JSON or a
   * form field, so a string, an integer, a boolean or null.
   */
  datatype Scalar = PStr(s: string) | PInt(i: int) | PBool(b: bool) | PNull

  /** `empty($s)` for a string: the empty string and "0" are both empty. */
  predicate EmptyString(s: string)
  {
    s == "" || s == "0"
  }

  /** `empty($v)` for a scalar. */
  predicate EmptyScalar(v: Scalar)
  {
    match v
    case PStr(s) => EmptyString(s)
    case PInt(i) => i == 0
    case PBool(b) => !b
    case PNull => true
  }

  /** `(string)$v`: the text PHP turns a scalar into. */
  function ScalarText(v: Scalar): string
  {
    match v
    case PStr(s) => s
    case PInt(i) => DecimalString(i)
    case PBool(b) => if b then "1" else ""
    case PNull => ""
  }

  /** `(int)$v`: the integer PHP turns a scalar into. */
  function IntOf(v: Scalar): int
  {
    match v
    case PStr(s) => CastInt(s)
    case PInt(i) => i
    case PBool(b) => if b then 1 else 0
    case PNull => 0
  }

  // ---------------------------------------------------------------------
  // Integers written as decimal text and read back with (int)
  // ---------------------------------------------------------------------

  predicate IsDigit(c: char)
  {
    '0' <= c <= '9'
  }

  function DigitValue(c: char): (d: nat)
    requires IsDigit(c)
    ensures d < 10
  {
    c as int - '0' as int
  }

  function DigitChar(d: nat): (c: char)
    requires d < 10
    ensures IsDigit(c) && DigitValue(c) == d
  {
    ('0' as int + d) as char
  }

  /** The decimal digits of a natural number, most significant first, no leading zeros. */
  function NatDigits(n: nat): (s: string)
    ensures |s| > 0
    ensures forall i :: 0 <= i < |s| ==> IsDigit(s[i])
    decreases n
  {
    if n < 10 then [DigitChar(n)] else NatDigits(n / 10) + [DigitChar(n % 10)]
  }

  /** The text an integer is stored as: `strval($n)`, a minus sign and the digits. */
  function DecimalString(n: int): string
  {
    if n < 0 then "-" + NatDigits(-n) else NatDigits(n)
  }

  predicate IsBlank(c: char)
  {
    c == ' ' || c == '\t' || c == '\n' || c == '\r' || c == 11 as char || c == 12 as char
  }

  /** The value of the longest run of digits starting at position i, read left to right on top of acc. */
  function DigitsValue(s: string, acc: nat): nat
    decreases |s|
  {
    if |s| > 0 && IsDigit(s[0]) then DigitsValue(s[1..], acc * 10 + DigitValue(s[0])) else acc
  }

  /** The integer denoted by the digits after an optional sign. */
  function SignedDigits(s: string): int
  {
    if |s| > 0 && s[0] == '-' then -(DigitsValue(s[1..], 0) as int)
    else if |s| > 0 && s[0] == '+' then DigitsValue(s[1..], 0)
    else DigitsValue(s, 0)
  }

  /**
   * `(int)$s`: skip leading blanks, read an optional sign and the longest
   * run of decimal digits; a string with no leading number gives 0.
   */
  function CastInt(s: string): int
    decreases |s|
  {
    if |s| > 0 && IsBlank(s[0]) then CastInt(s[1..]) else SignedDigits(s)
  }

  lemma {:induction false} DigitsValueAppend(s: string, acc: nat, c: char)
    requires forall i :: 0 <= i < |s| ==> IsDigit(s[i])
    requires IsDigit(c)
    ensures DigitsValue(s + [c], acc) == DigitsValue(s, acc) * 10 + DigitValue(c)
    decreases |s|
  {
    if |s| == 0 {
      assert (s + [c])[1..] == [];
    } else {
      assert (s + [c])[1..] == s[1..] + [c];
      DigitsValueAppend(s[1..], acc * 10 + DigitValue(s[0]), c);
    }
  }

  lemma {:induction false} NatDigitsValue(n: nat)
    ensures DigitsValue(NatDigits(n), 0) == n
    decreases n
  {
    if n < 10 {
      assert NatDigits(n)[1..] == [];
    } else {
      NatDigitsValue(n / 10);
      DigitsValueAppend(NatDigits(n / 10), 0, DigitChar(n % 10));
    }
  }

  /** Reading back the text an integer is stored as gives the same integer. */
  lemma {:induction false} DecimalStringRoundTrip(n: int)
    ensures CastInt(DecimalString(n)) == n
  {
    if n < 0 {
      var s := DecimalString(n);
      assert s[0] == '-' && s[1..] == NatDigits(-n);
      NatDigitsValue(-n);
    } else {
      var s := NatDigits(n);
      assert IsDigit(s[0]);
      NatDigitsValue(n);
    }
  }

  // ---------------------------------------------------------------------
  // Strings
  // ---------------------------------------------------------------------

  predicate IsPrefix(p: string, s: string)
  {
    |p| <= |s| && s[..|p|] == p
  }

  /** `strpos($haystack, $needle) !== false`. */
  predicate Contains(haystack: string, needle: string)
    decreases |haystack|
  {
    IsPrefix(needle, haystack) || (|haystack| > 0 && Contains(haystack[1..], needle))
  }

  lemma {:induction false} ContainsItself(s: string, pre: string, post: string)
    ensures Contains(pre + s + post, s)
    decreases |pre|
  {
    if |pre| == 0 {
      assert pre + s + post == s + post;
      assert (s + post)[..|s|] == s;
    } else {
      assert (pre + s + post)[1..] == pre[1..] + s + post;
      ContainsItself(s, pre[1..], post);
    }
  }

  /** The path with its trailing slashes removed (a path of only slashes keeps one). */
  function TrimTrailingSlashes(path: string): string
    decreases |path|
  {
    if |path| > 1 && path[|path| - 1] == '/' then TrimTrailingSlashes(path[..|path| - 1]) else path
  }

  /** What follows the last slash of s, or all of s when it has none. */
  function AfterLastSlash(s: string): (r: string)
    ensures forall i :: 0 <= i < |r| ==> r[i] != '/'
    decreases |s|
  {
    if |s| == 0 then ""
    else if s[|s| - 1] == '/' then ""
    else AfterLastSlash(s[..|s| - 1]) + [s[|s| - 1]]
  }

  /** `basename($path)` for a POSIX path. */
  function Basename(path: string): (r: string)
    ensures forall i :: 0 <= i < |r| ==> r[i] != '/'
  {
    AfterLastSlash(TrimTrailingSlashes(path))
  }

  /** Trailing slashes after a last character that is not one are all removed. */
  lemma {:induction false} TrimSlashesAfter(q: string, t: string)
    requires |q| > 1 && q[|q| - 1] != '/'
    requires forall i :: 0 <= i < |t| ==> t[i] == '/'
    ensures TrimTrailingSlashes(q + t) == q
    decreases |t|
  {
    if |t| == 0 {
      assert q + t == q;
    } else {
      var s := q + t;
      assert s[..|s| - 1] == q + t[..|t| - 1];
      TrimSlashesAfter(q, t[..|t| - 1]);
    }
  }

  /** What follows a slash, when it holds none, is what AfterLastSlash returns. */
  lemma {:induction false} AfterLastSlashOf(q: string, n: string)
    requires |q| > 0 && q[|q| - 1] == '/'
    requires forall i :: 0 <= i < |n| ==> n[i] != '/'
    ensures AfterLastSlash(q + n) == n
    decreases |n|
  {
    if |n| == 0 {
      assert q + n == q;
    } else {
      var s := q + n;
      assert s[..|s| - 1] == q + n[..|n| - 1];
      AfterLastSlashOf(q, n[..|n| - 1]);
      assert n == n[..|n| - 1] + [n[|n| - 1]];
    }
  }

  /** The basename of a path is its last component, whatever precedes it and however many slashes follow it. */
  lemma {:induction false} BasenameLastComponent(p: string, n: string, t: string)
    requires |n| > 0 && forall i :: 0 <= i < |n| ==> n[i] != '/'
    requires forall i :: 0 <= i < |t| ==> t[i] == '/'
    ensures Basename(p + "/" + n + t) == n
  {
    TrimSlashesAfter(p + "/" + n, t);
    AfterLastSlashOf(p + "/", n);
  }

  /** The entity htmlspecialchars writes for one character (ENT_QUOTES, the default). */
  function HtmlEscapeChar(c: char): string
  {
    if c == '&' then "&amp;"
    else if c == '<' then "&lt;"
    else if c == '>' then "&gt;"
    else if c == '"' then "&quot;"
    else if c == '\'' then "&#039;"
    else [c]
  }

  /** `htmlspecialchars($s)`. */
  function HtmlEscape(s: string): string
    decreases |s|
  {
    if |s| == 0 then "" else HtmlEscapeChar(s[0]) + HtmlEscape(s[1..])
  }

  predicate IsHtmlSpecial(c: char)
  {
    c == '&' || c == '<' || c == '>' || c == '"' || c == '\''
  }

  /** Escaped text holds no markup character, so it cannot open a tag or leave an attribute. */
  lemma {:induction false} HtmlEscapeIsInert(s: string)
    ensures forall i :: 0 <= i < |HtmlEscape(s)| ==> !(HtmlEscape(s)[i] in "<>\"'")
    decreases |s|
  {
    if |s| > 0 {
      HtmlEscapeIsInert(s[1..]);
      var h := HtmlEscapeChar(s[0]);
      assert forall i :: 0 <= i < |h| ==> !(h[i] in "<>\"'");
      var r := HtmlEscape(s);
      assert r == h + HtmlEscape(s[1..]);
      forall i | 0 <= i < |r| ensures !(r[i] in "<>\"'") {
        if i >= |h| { assert r[i] == HtmlEscape(s[1..])[i - |h|]; }
      }
    }
  }

  /** Text without markup characters passes through htmlspecialchars unchanged. */
  lemma {:induction false} HtmlEscapePlain(s: string)
    requires forall i :: 0 <= i < |s| ==> !IsHtmlSpecial(s[i])
    ensures HtmlEscape(s) == s
    decreases |s|
  {
    if |s| > 0 {
      HtmlEscapePlain(s[1..]);
      assert s == [s[0]] + s[1..];
    }
  }
}
