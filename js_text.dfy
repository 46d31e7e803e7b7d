/** The JavaScript string and value operations that the book handlers rely on,
    stated over Dafny strings (sequences of Unicode scalar values).

    `toLowerCase` is modelled on ASCII letters only; every other operation
    follows the ECMAScript definition for the inputs the handlers give it. */
module JsText {

  /** `undefined` / `null` versus a present value. */
  datatype Option<T> = None | Some(value: T) {
    function GetOr(default: T): T {
      if Some? then value else default
    }
  }

  /** JavaScript truthiness of an optional string: present and not empty. */
  predicate TruthyStr(o: Option<string>) {
    o.Some? && o.value != ""
  }

  /** JavaScript truthiness of an optional number: present and not zero. */
  predicate TruthyInt(o: Option<int>) {
    o.Some? && o.value != 0
  }

  /** `x || 0` for a number that may be missing. */
  function OrZero(o: Option<int>): int {
    if TruthyInt(o) then o.value else 0
  }

  /** `x || null` for a number: missing and zero both become null. */
  function NonZero(o: Option<int>): Option<int> {
    if TruthyInt(o) then o else None
  }

  /** `x || null` for a string: missing and empty both become null. */
  function NonEmpty(o: Option<string>): Option<string> {
    if TruthyStr(o) then o else None
  }

  // ---------------------------------------------------------------------------
  // Case, search and replacement

  function LowerChar(c: char): char {
    if 'A' <= c <= 'Z' then (c as int + 32) as char else c
  }

  /** `s.toLowerCase()` on ASCII letters. */
  function Lower(s: string): (r: string)
    ensures |r| == |s|
    ensures forall i :: 0 <= i < |s| ==> r[i] == LowerChar(s[i])
  {
    seq(|s|, i requires 0 <= i < |s| => LowerChar(s[i]))
  }

  /** `t` occurs in `s` starting at position `i`. */
  predicate OccursAt(s: string, t: string, i: nat) {
    i + |t| <= |s| && s[i..i + |t|] == t
  }

  /** `s.includes(t)`: `t` occurs in `s` at some position. */
  predicate Contains(s: string, t: string) {
    exists i: nat | i <= |s| :: OccursAt(s, t, i)
  }

  /** Occurrence is transitive: a string containing `m` contains everything `m` contains. */
  lemma ContainsTransitive(s: string, m: string, t: string)
    requires Contains(s, m) && Contains(m, t)
    ensures Contains(s, t)
  {
    var i: nat :| i <= |s| && OccursAt(s, m, i);
    var j: nat :| j <= |m| && OccursAt(m, t, j);
    assert forall k :: 0 <= k < |m| ==> s[i + k] == m[k];
    assert OccursAt(s, t, i + j);
  }

  /** A string contains each of its own slices. */
  lemma ContainsSlice(s: string, i: nat, j: nat)
    requires i <= j <= |s|
    ensures Contains(s, s[i..j])
  {
    assert OccursAt(s, s[i..j], i);
  }

  /** `s.indexOf(t)`: the first position where `t` occurs, or None (-1). */
  function IndexOf(s: string, t: string): (r: Option<nat>)
    ensures r.Some? ==> r.value + |t| <= |s| && s[r.value..r.value + |t|] == t
    decreases |s|
  {
    if |s| < |t| then None
    else if s[..|t|] == t then Some(0)
    else match IndexOf(s[1..], t)
      case None => None
      case Some(k) => Some(k + 1)
  }

  /** A slice of the tail is the slice one further along. */
  lemma SliceOfTail(s: string, i: nat, n: nat)
    requires i + 1 + n <= |s|
    ensures s[1..][i..i + n] == s[i + 1..i + 1 + n]
  {
    var u := s[1..][i..i + n];
    assert forall x :: 0 <= x < n ==> u[x] == s[i + 1..i + 1 + n][x];
  }

  /** `indexOf` fails exactly when `t` does not occur in `s`. */
  lemma {:induction false} IndexOfNoneIffAbsent(s: string, t: string)
    ensures IndexOf(s, t).None? <==> !Contains(s, t)
    decreases |s|
  {
    if |s| < |t| {
    } else if s[..|t|] == t {
      assert OccursAt(s, t, 0);
    } else {
      IndexOfNoneIffAbsent(s[1..], t);
      if Contains(s, t) {
        var i: nat :| i <= |s| && OccursAt(s, t, i);
        assert i != 0;
        SliceOfTail(s, i - 1, |t|);
        assert OccursAt(s[1..], t, i - 1);
      }
      if Contains(s[1..], t) {
        var i: nat :| i <= |s[1..]| && OccursAt(s[1..], t, i);
        SliceOfTail(s, i, |t|);
        assert OccursAt(s, t, i + 1);
      }
    }
  }

  /** `indexOf` reports the first occurrence: none lies before it. */
  lemma {:induction false} IndexOfIsFirst(s: string, t: string, k: nat)
    requires IndexOf(s, t).Some? && k < IndexOf(s, t).value
    ensures !OccursAt(s, t, k)
    decreases |s|
  {
    assert |t| <= |s| && s[..|t|] != t;
    var rest := IndexOf(s[1..], t);
    assert rest.Some? && k - 1 < rest.value;
    if k == 0 {
      assert s[0..|t|] == s[..|t|];
    } else {
      IndexOfIsFirst(s[1..], t, k - 1);
      if k + |t| <= |s| {
        SliceOfTail(s, k - 1, |t|);
      }
    }
  }

  /** `s.replace(pat, rep)` with a string pattern: the first occurrence only. */
  function ReplaceFirst(s: string, pat: string, rep: string): string {
    match IndexOf(s, pat)
    case None => s
    case Some(i) => s[..i] + rep + s[i + |pat|..]
  }

  predicate StartsWith(s: string, p: string) {
    |p| <= |s| && s[..|p|] == p
  }

  /** A string that begins with the pattern has that beginning replaced. */
  lemma ReplaceFirstAtStart(s: string, pat: string, rep: string)
    requires StartsWith(s, pat)
    ensures ReplaceFirst(s, pat, rep) == rep + s[|pat|..]
    ensures StartsWith(ReplaceFirst(s, pat, rep), rep)
  {
  }

  /** A string without the pattern is left as it is. */
  lemma ReplaceFirstAbsent(s: string, pat: string, rep: string)
    requires !Contains(s, pat)
    ensures ReplaceFirst(s, pat, rep) == s
  {
    IndexOfNoneIffAbsent(s, pat);
  }

  // ---------------------------------------------------------------------------
  // Split and join

  /** `s.split(sep)` for a one-character separator: the fields between separators,
      empty fields included, and `[""]` for the empty string. */
  function Split(s: string, sep: char): (r: seq<string>)
    ensures |r| >= 1
    ensures forall k :: 0 <= k < |r| ==> sep !in r[k]
  {
    if s == [] then [""]
    else
      var rest := Split(s[1..], sep);
      if s[0] == sep then [""] + rest
      else [[s[0]] + rest[0]] + rest[1..]
  }

  /** `xs.join(sep)`. */
  function Join(xs: seq<string>, sep: string): string {
    if |xs| == 0 then ""
    else if |xs| == 1 then xs[0]
    else xs[0] + sep + Join(xs[1..], sep)
  }

  /** Joining the fields of a split with the separator gives back the string. */
  lemma {:induction false} JoinSplit(s: string, sep: char)
    ensures Join(Split(s, sep), [sep]) == s
  {
    if s != [] {
      JoinSplit(s[1..], sep);
      var rest := Split(s[1..], sep);
      if s[0] != sep {
        if |rest| == 1 {
          assert s == [s[0]] + s[1..];
        } else {
          var tail := rest[1..];
          assert [[s[0]] + rest[0]] + rest[1..] == [[s[0]] + rest[0]] + tail;
          assert ([[s[0]] + rest[0]] + tail)[1..] == tail;
          assert Join(rest, [sep]) == rest[0] + [sep] + Join(tail, [sep]);
          assert s == [s[0]] + s[1..];
        }
      } else {
        assert ([""] + rest)[1..] == rest;
        assert s == [sep] + s[1..];
      }
    }
  }

  /** A string without the separator splits into itself alone. */
  lemma {:induction false} SplitNoSeparator(s: string, sep: char)
    requires sep !in s
    ensures Split(s, sep) == [s]
  {
    if s != [] {
      SplitNoSeparator(s[1..], sep);
      assert s == [s[0]] + s[1..];
    }
  }

  /** Two separator-free fields joined by the separator split back into those two fields. */
  lemma {:induction false} SplitPair(x: string, y: string, sep: char)
    requires sep !in x && sep !in y
    ensures Split(x + [sep] + y, sep) == [x, y]
  {
    if x == [] {
      SplitNoSeparator(y, sep);
      assert [sep] + y == x + [sep] + y;
      assert ([sep] + y)[1..] == y;
    } else {
      SplitPair(x[1..], y, sep);
      var s := x + [sep] + y;
      assert s[1..] == x[1..] + [sep] + y;
      assert [x[0]] + x[1..] == x;
    }
  }

  // ---------------------------------------------------------------------------
  // Whitespace and length

  /** ECMAScript WhiteSpace and LineTerminator code points: what `trim` and
      `parseInt` skip. */
  predicate IsJsSpace(c: char) {
    c in {'\t', '\n', '\U{B}', '\U{C}', '\r', ' ', '\U{A0}', '\U{1680}',
          '\U{2028}', '\U{2029}', '\U{202F}', '\U{205F}', '\U{3000}', '\U{FEFF}'}
    || '\U{2000}' <= c <= '\U{200A}'
  }

  function TrimStart(s: string): (r: string)
    ensures |r| <= |s| && r == s[|s| - |r|..]
    ensures r != [] ==> !IsJsSpace(r[0])
  {
    if s != [] && IsJsSpace(s[0]) then TrimStart(s[1..]) else s
  }

  function TrimEnd(s: string): (r: string)
    ensures |r| <= |s| && r == s[..|r|]
    ensures r != [] ==> !IsJsSpace(r[|r| - 1])
  {
    if s != [] && IsJsSpace(s[|s| - 1]) then TrimEnd(s[..|s| - 1]) else s
  }

  /** `s.trim()`: a slice of `s` with no white space at either end, and only
      white space removed. */
  function Trim(s: string): (r: string)
    ensures r != [] ==> !IsJsSpace(r[0]) && !IsJsSpace(r[|r| - 1])
    ensures Contains(s, r)
  {
    var t := TrimStart(s);
    var r := TrimEnd(t);
    ContainsSlice(s, |s| - |t|, |s| - |t| + |r|);
    assert s[|s| - |t|..|s| - |t| + |r|] == r;
    r
  }

  lemma {:induction false} TrimStartRemovesSpace(s: string)
    ensures forall k :: 0 <= k < |s| - |TrimStart(s)| ==> IsJsSpace(s[k])
  {
    if s != [] && IsJsSpace(s[0]) {
      var tail := s[1..];
      TrimStartRemovesSpace(tail);
      assert TrimStart(s) == TrimStart(tail);
      forall k | 1 <= k < |s| - |TrimStart(s)|
        ensures IsJsSpace(s[k])
      {
        assert s[k] == tail[k - 1];
      }
    }
  }

  lemma {:induction false} TrimEndRemovesSpace(s: string)
    ensures forall k :: |TrimEnd(s)| <= k < |s| ==> IsJsSpace(s[k])
  {
    if s != [] && IsJsSpace(s[|s| - 1]) {
      TrimEndRemovesSpace(s[..|s| - 1]);
    }
  }

  /** White space at the end of a suffix of `s` is white space of `s`. */
  lemma TrimEndOfSuffix(s: string, a: nat)
    requires a <= |s|
    ensures a + |TrimEnd(s[a..])| <= |s|
    ensures TrimEnd(s[a..]) == s[a..a + |TrimEnd(s[a..])|]
    ensures forall k :: a + |TrimEnd(s[a..])| <= k < |s| ==> IsJsSpace(s[k])
  {
    var t := s[a..];
    TrimEndRemovesSpace(t);
    forall k | a + |TrimEnd(t)| <= k < |s|
      ensures IsJsSpace(s[k])
    {
      assert s[k] == t[k - a];
    }
  }

  /** What `trim` keeps is one slice of the text, and everything before and
      after that slice is white space. */
  lemma TrimSlice(s: string)
    ensures exists a, b ::
      && 0 <= a <= b <= |s|
      && Trim(s) == s[a..b]
      && (forall k :: 0 <= k < a ==> IsJsSpace(s[k]))
      && (forall k :: b <= k < |s| ==> IsJsSpace(s[k]))
  {
    var a := |s| - |TrimStart(s)|;
    TrimStartRemovesSpace(s);
    TrimEndOfSuffix(s, a);
    assert Trim(s) == TrimEnd(s[a..]);
    var b := a + |Trim(s)|;
    assert Trim(s) == s[a..b];
  }

  /** Trimming a trimmed text changes nothing. */
  lemma TrimTrimmed(s: string)
    ensures Trim(Trim(s)) == Trim(s)
  {
  }

  /** `s.length`: the number of UTF-16 code units, so a character outside the
      Basic Multilingual Plane counts twice. */
  function Utf16Length(s: string): (n: nat)
    ensures |s| <= n <= 2 * |s|
  {
    if s == [] then 0
    else (if s[0] as int >= 0x10000 then 2 else 1) + Utf16Length(s[1..])
  }

  // ---------------------------------------------------------------------------
  // Numbers as text

  function DigitChar(d: nat): char
    requires d < 10
  {
    "0123456789"[d]
  }

  predicate IsDigit(c: char) {
    '0' <= c <= '9'
  }

  /** The decimal rendering of a natural number, as template literals print it. */
  function NatToString(n: nat): (r: string)
    ensures r != [] && forall k :: 0 <= k < |r| ==> IsDigit(r[k])
  {
    if n < 10 then [DigitChar(n)] else NatToString(n / 10) + [DigitChar(n % 10)]
  }

  /** The decimal rendering of an integer, with a leading minus sign when negative. */
  function IntToString(i: int): string {
    if i < 0 then "-" + NatToString(-i) else NatToString(i)
  }

  /** The value of a string of decimal digits. */
  function DecimalValue(ds: string): nat
    requires forall k :: 0 <= k < |ds| ==> IsDigit(ds[k])
  {
    if ds == [] then 0
    else
      assert IsDigit(ds[|ds| - 1]);
      DecimalValue(ds[..|ds| - 1]) * 10 + (ds[|ds| - 1] as int - '0' as int)
  }

  /** The longest prefix of `s` made of characters satisfying `digit`. */
  function LeadingRun(s: string, digit: char -> bool): (r: string)
    ensures |r| <= |s| && r == s[..|r|]
    ensures forall k :: 0 <= k < |r| ==> digit(r[k])
    ensures |r| < |s| ==> !digit(s[|r|])
  {
    if s != [] && digit(s[0]) then [s[0]] + LeadingRun(s[1..], digit) else []
  }

  predicate IsHexDigit(c: char) {
    '0' <= c <= '9' || 'a' <= c <= 'f' || 'A' <= c <= 'F'
  }

  function HexDigitValue(c: char): nat
    requires IsHexDigit(c)
  {
    if '0' <= c <= '9' then c as int - '0' as int
    else if 'a' <= c <= 'f' then c as int - 'a' as int + 10
    else c as int - 'A' as int + 10
  }

  function HexValue(ds: string): nat
    requires forall k :: 0 <= k < |ds| ==> IsHexDigit(ds[k])
  {
    if ds == [] then 0
    else HexValue(ds[..|ds| - 1]) * 16 + HexDigitValue(ds[|ds| - 1])
  }

  /** `parseInt(s)` with no radix: leading white space is skipped, one sign is
      accepted, a `0x`/`0X` prefix selects base 16, and the longest run of digits
      that follows is read; None stands for NaN (no digit at all). */
  function ParseInt(s: string): Option<int> {
    var t := TrimStart(s);
    var sign := if t != [] && t[0] == '-' then -1 else 1;
    var u := if t != [] && (t[0] == '-' || t[0] == '+') then t[1..] else t;
    if |u| >= 2 && u[0] == '0' && (u[1] == 'x' || u[1] == 'X') then
      var ds := LeadingRun(u[2..], IsHexDigit);
      if ds == [] then None else Some(sign * HexValue(ds))
    else
      var ds := LeadingRun(u, IsDigit);
      if ds == [] then None else Some(sign * DecimalValue(ds))
  }

  lemma {:induction false} DecimalValueOfNatToString(n: nat)
    ensures DecimalValue(NatToString(n)) == n
  {
    if n >= 10 {
      DecimalValueOfNatToString(n / 10);
      var r := NatToString(n);
      assert r[..|r| - 1] == NatToString(n / 10);
    }
  }

  lemma {:induction false} LeadingRunAll(s: string, digit: char -> bool)
    requires forall k :: 0 <= k < |s| ==> digit(s[k])
    ensures LeadingRun(s, digit) == s
  {
  }

  /** `parseInt` of a string of decimal digits is the value of those digits. */
  lemma ParseIntDigits(ds: string)
    requires ds != [] && forall k :: 0 <= k < |ds| ==> IsDigit(ds[k])
    ensures ParseInt(ds) == Some(DecimalValue(ds))
  {
    DigitNotSpace(ds[0]);
    assert TrimStart(ds) == ds;
    assert ds[0] != '-' && ds[0] != '+';
    assert |ds| >= 2 ==> ds[1] != 'x' && ds[1] != 'X';
    LeadingRunAll(ds, IsDigit);
  }

  lemma DigitNotSpace(c: char)
    requires IsDigit(c)
    ensures !IsJsSpace(c)
  {
  }

  /** `parseInt` reads back what the decimal rendering wrote. */
  lemma ParseIntOfNatToString(n: nat)
    ensures ParseInt(NatToString(n)) == Some(n)
  {
    ParseIntDigits(NatToString(n));
    DecimalValueOfNatToString(n);
  }

  /** Text in which `parseInt` finds no numeral: after leading white space and
      one optional sign, no digit follows. */
  predicate StartsNoNumeral(s: string) {
    var t := TrimStart(s);
    var u := if t != [] && (t[0] == '-' || t[0] == '+') then t[1..] else t;
    u == [] || !IsDigit(u[0])
  }

  /** `parseInt(s) || 0`: NaN and 0 both become 0. */
  function ParseIntOrZero(s: string): int {
    OrZero(ParseInt(s))
  }

  // ---------------------------------------------------------------------------
  // encodeURIComponent

  /** The characters `encodeURIComponent` leaves as they are. */
  predicate Unreserved(c: char) {
    'A' <= c <= 'Z' || 'a' <= c <= 'z' || '0' <= c <= '9'
    || c in {'-', '_', '.', '!', '~', '*', '\'', '(', ')'}
  }

  function HexUpper(d: nat): char
    requires d < 16
  {
    "0123456789ABCDEF"[d]
  }

  /** The UTF-8 encoding of one code point. */
  function Utf8Bytes(cp: nat): seq<nat> {
    if cp < 0x80 then [cp]
    else if cp < 0x800 then [0xC0 + cp / 64, 0x80 + cp % 64]
    else if cp < 0x10000 then [0xE0 + cp / 4096, 0x80 + (cp / 64) % 64, 0x80 + cp % 64]
    else [0xF0 + (cp / 262144) % 8, 0x80 + (cp / 4096) % 64, 0x80 + (cp / 64) % 64, 0x80 + cp % 64]
  }

  function PercentBytes(bs: seq<nat>): string {
    if bs == [] then ""
    else ['%', HexUpper((bs[0] / 16) % 16), HexUpper(bs[0] % 16)] + PercentBytes(bs[1..])
  }

  function EncodeChar(c: char): string {
    if Unreserved(c) then [c] else PercentBytes(Utf8Bytes(c as int))
  }

  /** `encodeURIComponent(s)`: unreserved characters as they are, every other
      character as `%XX` escapes of its UTF-8 bytes. */
  function EncodeUriComponent(s: string): string {
    if s == [] then "" else EncodeChar(s[0]) + EncodeUriComponent(s[1..])
  }

  /** What may appear in an encoded component: unreserved characters and `%`. */
  predicate UriSafe(s: string) {
    forall k :: 0 <= k < |s| ==> Unreserved(s[k]) || s[k] == '%'
  }

  lemma {:induction false} PercentBytesSafe(bs: seq<nat>)
    ensures UriSafe(PercentBytes(bs))
  {
    if bs != [] {
      PercentBytesSafe(bs[1..]);
    }
  }

  /** An encoded component never holds a space, `&`, `=`, `?`, `#` or `+`, so it
      cannot end or split the query parameter it is placed in. */
  lemma {:induction false} EncodeUriComponentSafe(s: string)
    ensures UriSafe(EncodeUriComponent(s))
  {
    if s != [] {
      PercentBytesSafe(Utf8Bytes(s[0] as int));
      EncodeUriComponentSafe(s[1..]);
    }
  }

  /** A component made only of unreserved characters is left unchanged. */
  lemma {:induction false} EncodeUriComponentUnreserved(s: string)
    requires forall k :: 0 <= k < |s| ==> Unreserved(s[k])
    ensures EncodeUriComponent(s) == s
  {
    if s != [] {
      EncodeUriComponentUnreserved(s[1..]);
    }
  }

  // ---------------------------------------------------------------------------
  // Reading an encoded component back

  function HexDigitOf(c: char): Option<nat> {
    if '0' <= c <= '9' then Some(c as int - '0' as int)
    else if 'A' <= c <= 'F' then Some(c as int - 'A' as int + 10)
    else if 'a' <= c <= 'f' then Some(c as int - 'a' as int + 10)
    else None
  }

  /** The byte a `%XX` escape at position `i` stands for. */
  function EscapedByte(s: string, i: nat): Option<nat> {
    if i + 3 <= |s| && s[i] == '%' && HexDigitOf(s[i + 1]).Some? && HexDigitOf(s[i + 2]).Some?
    then Some(16 * HexDigitOf(s[i + 1]).value + HexDigitOf(s[i + 2]).value)
    else None
  }

  /** The bytes of `n` consecutive escapes at the start of `s`. */
  function EscapedBytes(s: string, n: nat): Option<seq<nat>> {
    if n == 0 then Some([])
    else if EscapedByte(s, 0).None? then None
    else
      var rest := EscapedBytes(s[3..], n - 1);
      if rest.None? then None else Some([EscapedByte(s, 0).value] + rest.value)
  }

  /** How many bytes the UTF-8 sequence a lead byte opens has; 0 for a byte
      that opens none. */
  function Utf8SequenceLength(b: nat): nat {
    if b < 0x80 then 1
    else if 0xC0 <= b < 0xE0 then 2
    else if 0xE0 <= b < 0xF0 then 3
    else if 0xF0 <= b < 0xF8 then 4
    else 0
  }

  predicate Continuation(b: nat) {
    0x80 <= b < 0xC0
  }

  /** The code point a shortest-form UTF-8 sequence encodes. */
  function Utf8CodePoint(bs: seq<nat>): Option<nat> {
    if |bs| == 1 && bs[0] < 0x80 then Some(bs[0])
    else if |bs| == 2 && 0xC0 <= bs[0] < 0xE0 && Continuation(bs[1])
      && (bs[0] - 0xC0) * 64 + (bs[1] - 0x80) >= 0x80
    then Some((bs[0] - 0xC0) * 64 + (bs[1] - 0x80))
    else if |bs| == 3 && 0xE0 <= bs[0] < 0xF0 && Continuation(bs[1]) && Continuation(bs[2])
      && (bs[0] - 0xE0) * 4096 + (bs[1] - 0x80) * 64 + (bs[2] - 0x80) >= 0x800
    then Some((bs[0] - 0xE0) * 4096 + (bs[1] - 0x80) * 64 + (bs[2] - 0x80))
    else if |bs| == 4 && 0xF0 <= bs[0] < 0xF8 && Continuation(bs[1]) && Continuation(bs[2])
      && Continuation(bs[3])
      && (bs[0] - 0xF0) * 262144 + (bs[1] - 0x80) * 4096 + (bs[2] - 0x80) * 64 + (bs[3] - 0x80) >= 0x10000
    then Some((bs[0] - 0xF0) * 262144 + (bs[1] - 0x80) * 4096 + (bs[2] - 0x80) * 64 + (bs[3] - 0x80))
    else None
  }

  /** A Unicode scalar value: a code point that is not a surrogate. */
  predicate ScalarValue(cp: nat) {
    cp < 0xD800 || 0xE000 <= cp < 0x110000
  }

  /** `decodeURIComponent(s)`: every run of escapes is read as the UTF-8
      encoding of one character, every other character stands for itself;
      None where the call throws (a malformed escape or byte sequence). */
  function DecodeUriComponent(s: string): Option<string>
    decreases |s|
  {
    if s == [] then Some("")
    else if s[0] != '%' then
      var rest := DecodeUriComponent(s[1..]);
      if rest.None? then None else Some([s[0]] + rest.value)
    else if EscapedByte(s, 0).None? then None
    else
      var n := Utf8SequenceLength(EscapedByte(s, 0).value);
      var bs := EscapedBytes(s, n);
      if n == 0 || |s| < 3 * n || bs.None? then None
      else
        var cp := Utf8CodePoint(bs.value);
        if cp.None? || !ScalarValue(cp.value) then None
        else
          var rest := DecodeUriComponent(s[3 * n..]);
          if rest.None? then None else Some([cp.value as char] + rest.value)
  }

  lemma HexDigitOfUpper(d: nat)
    requires d < 16
    ensures HexDigitOf(HexUpper(d)) == Some(d)
  {
  }

  lemma EscapedPercentByte(b: nat, t: string)
    requires b < 256
    ensures EscapedByte(['%', HexUpper((b / 16) % 16), HexUpper(b % 16)] + t, 0) == Some(b)
  {
    var hi, lo := (b / 16) % 16, b % 16;
    var s := ['%', HexUpper(hi), HexUpper(lo)] + t;
    HexDigitOfUpper(hi);
    HexDigitOfUpper(lo);
    assert s[0] == '%' && s[1] == HexUpper(hi) && s[2] == HexUpper(lo);
    assert 16 * hi + lo == b;
  }

  lemma {:induction false} PercentBytesLength(bs: seq<nat>)
    ensures |PercentBytes(bs)| == 3 * |bs|
  {
    if bs != [] {
      PercentBytesLength(bs[1..]);
    }
  }

  /** One escape in front of escapes that read back adds its byte in front. */
  lemma EscapedBytesCons(b: nat, rest: string, n: nat, tail: seq<nat>)
    requires b < 256 && EscapedBytes(rest, n) == Some(tail)
    ensures EscapedBytes(['%', HexUpper((b / 16) % 16), HexUpper(b % 16)] + rest, n + 1) == Some([b] + tail)
  {
    var s := ['%', HexUpper((b / 16) % 16), HexUpper(b % 16)] + rest;
    EscapedPercentByte(b, rest);
    assert s[3..] == rest;
  }

  lemma PercentBytesHead(bs: seq<nat>, t: string)
    requires bs != []
    ensures PercentBytes(bs) + t
         == ['%', HexUpper((bs[0] / 16) % 16), HexUpper(bs[0] % 16)] + (PercentBytes(bs[1..]) + t)
  {
  }

  lemma EscapedBytesStep(bs: seq<nat>, t: string)
    requires bs != [] && bs[0] < 256
    requires EscapedBytes(PercentBytes(bs[1..]) + t, |bs| - 1) == Some(bs[1..])
    ensures EscapedBytes(PercentBytes(bs) + t, |bs|) == Some(bs)
  {
    PercentBytesHead(bs, t);
    EscapedBytesCons(bs[0], PercentBytes(bs[1..]) + t, |bs| - 1, bs[1..]);
    assert [bs[0]] + bs[1..] == bs;
  }

  /** The escapes of a list of bytes read back as those bytes. */
  lemma {:induction false} EscapedBytesOfPercentBytes(bs: seq<nat>, t: string)
    requires forall k :: 0 <= k < |bs| ==> bs[k] < 256
    ensures EscapedBytes(PercentBytes(bs) + t, |bs|) == Some(bs)
  {
    if bs != [] {
      EscapedBytesOfPercentBytes(bs[1..], t);
      EscapedBytesStep(bs, t);
    }
  }

  lemma Utf8TwoBytes(cp: nat)
    requires 0x80 <= cp < 0x800
    ensures Utf8Bytes(cp) == [0xC0 + cp / 64, 0x80 + cp % 64]
    ensures Utf8SequenceLength(0xC0 + cp / 64) == 2
    ensures Utf8CodePoint(Utf8Bytes(cp)) == Some(cp)
  {
    var a, r := cp / 64, cp % 64;
    assert cp == 64 * a + r && 2 <= a < 32 && r < 64;
  }

  lemma Utf8ThreeBytes(cp: nat)
    requires 0x800 <= cp < 0x10000
    ensures Utf8Bytes(cp) == [0xE0 + cp / 4096, 0x80 + (cp / 64) % 64, 0x80 + cp % 64]
    ensures Utf8SequenceLength(0xE0 + cp / 4096) == 3
    ensures Utf8CodePoint(Utf8Bytes(cp)) == Some(cp)
  {
    var a, r0 := cp / 64, cp % 64;
    var b, r1 := a / 64, a % 64;
    assert cp == 64 * a + r0 && a == 64 * b + r1;
    assert b == cp / 4096 && r1 == (cp / 64) % 64;
    assert b < 16 && 32 <= a;
  }

  lemma Utf8FourBytes(cp: nat)
    requires 0x10000 <= cp < 0x110000
    ensures Utf8Bytes(cp)
         == [0xF0 + (cp / 262144) % 8, 0x80 + (cp / 4096) % 64, 0x80 + (cp / 64) % 64, 0x80 + cp % 64]
    ensures Utf8SequenceLength(0xF0 + (cp / 262144) % 8) == 4
    ensures Utf8CodePoint(Utf8Bytes(cp)) == Some(cp)
  {
    var a, r0 := cp / 64, cp % 64;
    var b, r1 := a / 64, a % 64;
    var c, r2 := b / 64, b % 64;
    assert cp == 64 * a + r0 && a == 64 * b + r1 && b == 64 * c + r2;
    assert b == cp / 4096 && r1 == (cp / 64) % 64;
    assert c == cp / 262144 && r2 == (cp / 4096) % 64;
    assert c < 5 && c % 8 == c && 16 <= b;
  }

  /** The UTF-8 encoding of a character decodes back to it. */
  lemma Utf8RoundTrip(c: char)
    ensures var bs := Utf8Bytes(c as int);
      && 1 <= |bs| <= 4
      && (forall k :: 0 <= k < |bs| ==> bs[k] < 256)
      && Utf8SequenceLength(bs[0]) == |bs|
      && Utf8CodePoint(bs) == Some(c as int)
  {
    var cp := c as int;
    if cp < 0x80 {
    } else if cp < 0x800 {
      Utf8TwoBytes(cp);
    } else if cp < 0x10000 {
      Utf8ThreeBytes(cp);
    } else {
      Utf8FourBytes(cp);
    }
  }

  /** Decoding the encoding of one character followed by more text gives the
      character followed by the decoding of that text. */
  lemma DecodeEncodeChar(c: char, t: string)
    ensures DecodeUriComponent(EncodeChar(c) + t)
         == (var rest := DecodeUriComponent(t); if rest.None? then None else Some([c] + rest.value))
  {
    var s := EncodeChar(c) + t;
    if Unreserved(c) {
      assert s[0] == c && s[1..] == t;
    } else {
      var bs := Utf8Bytes(c as int);
      Utf8RoundTrip(c);
      PercentBytesLength(bs);
      EscapedBytesOfPercentBytes(bs, t);
      assert EscapedByte(s, 0) == Some(bs[0]);
      assert s[3 * |bs|..] == t;
    }
  }

  /** `decodeURIComponent(encodeURIComponent(s)) === s`. */
  lemma {:induction false} DecodeEncode(s: string)
    ensures DecodeUriComponent(EncodeUriComponent(s)) == Some(s)
  {
    if s != [] {
      DecodeEncode(s[1..]);
      DecodeEncodeChar(s[0], EncodeUriComponent(s[1..]));
      assert [s[0]] + s[1..] == s;
    }
  }
}
