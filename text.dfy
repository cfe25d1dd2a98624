/** The Python `str` operations the readers and writers are built from:
    `split` with and without `maxsplit`, whitespace splitting, `strip`,
    `join`, prefix and suffix removal, line iteration over a stream opened in
    text mode, and `int()` / `str()` on integers. `int()` is modelled on
    ASCII digits only. */
module Text {
  import opened Results

  /** The characters for which Python's `str.isspace()` holds; `strip()`
      and `split()` use this set. */
  predicate IsSpace(c: char) {
    || '\t' <= c <= '\r' || '\U{1C}' <= c <= ' ' || c == '\U{85}' || c == '\U{A0}'
    || c == '\U{1680}' || '\U{2000}' <= c <= '\U{200A}' || c == '\U{2028}' || c == '\U{2029}'
    || c == '\U{202F}' || c == '\U{205F}' || c == '\U{3000}'
  }

  /** The whitespace `int()` skips around a number. CPython first maps every
      non-ASCII whitespace character to a space and leaves ASCII characters
      as they are, then skips only ASCII whitespace; so the four separators
      U+001C to U+001F, which `isspace()` accepts, are not skipped. */
  predicate IsIntSpace(c: char) {
    IsSpace(c) && !('\U{1C}' <= c <= '\U{1F}')
  }

  /** The `chars` argument of `strip`, `lstrip` and `rstrip`: omitted
      (whitespace) or an explicit set of characters. `IntSpace` is the
      whitespace `int()` skips. */
  datatype Chars = Space | IntSpace | Among(cs: set<char>)

  predicate In(c: char, chars: Chars) {
    match chars
    case Space => IsSpace(c)
    case IntSpace => IsIntSpace(c)
    case Among(cs) => c in cs
  }

  predicate StartsWith(s: string, prefix: string) {
    prefix <= s
  }

  /** `s.removeprefix(p)` */
  function RemovePrefix(s: string, p: string): string {
    if p <= s then s[|p|..] else s
  }

  /** `s.removesuffix(p)` */
  function RemoveSuffix(s: string, p: string): string {
    if |p| <= |s| && s[|s| - |p|..] == p then s[..|s| - |p|] else s
  }

  /** `s.lstrip(chars)` */
  function LStrip(s: string, chars: Chars): (r: string)
    ensures |r| <= |s| && r == s[|s| - |r|..]
    ensures r == [] || !In(r[0], chars)
    ensures forall i :: 0 <= i < |s| - |r| ==> In(s[i], chars)
  {
    if |s| > 0 && In(s[0], chars) then LStrip(s[1..], chars) else s
  }

  /** `s.rstrip(chars)` */
  function RStrip(s: string, chars: Chars): (r: string)
    ensures |r| <= |s| && r == s[..|r|]
    ensures r == [] || !In(r[|r| - 1], chars)
    ensures forall i :: |r| <= i < |s| ==> In(s[i], chars)
  {
    if |s| > 0 && In(s[|s| - 1], chars) then RStrip(s[..|s| - 1], chars) else s
  }

  /** `rstrip` never removes a first character it would not strip. */
  lemma {:induction false} RStripKeepsFirst(s: string, chars: Chars)
    requires |s| > 0 && !In(s[0], chars)
    ensures |RStrip(s, chars)| > 0
  {
    if |s| > 1 && In(s[|s| - 1], chars) {
      RStripKeepsFirst(s[..|s| - 1], chars);
    }
  }

  /** `s.strip(chars)`; with `Space` it is the argument-less `s.strip()`. */
  function Strip(s: string, chars: Chars): string {
    RStrip(LStrip(s, chars), chars)
  }

  /** `strip` keeps a first character it would not strip. */
  lemma StripKeepsFirst(s: string, chars: Chars)
    requires |s| > 0 && !In(s[0], chars)
    ensures |Strip(s, chars)| > 0 && Strip(s, chars)[0] == s[0]
  {
    assert LStrip(s, chars) == s;
    RStripKeepsFirst(s, chars);
  }

  lemma StripUntouched(s: string, chars: Chars)
    requires s == [] || (!In(s[0], chars) && !In(s[|s| - 1], chars))
    ensures Strip(s, chars) == s
  {
  }

  /** `s.split(c, maxsplit=n)`: at most `n` splits, from the left, and the
      remainder stays whole in the last piece. */
  function SplitN(s: string, c: char, n: nat): (r: seq<string>)
    ensures 1 <= |r| <= n + 1
  {
    if n == 0 || |s| == 0 then [s]
    else if s[0] == c then [""] + SplitN(s[1..], c, n - 1)
    else
      var t := SplitN(s[1..], c, n);
      [[s[0]] + t[0]] + t[1..]
  }

  /** `s.split(c)` with no limit: a string of length |s| has at most |s| separators. */
  function Split(s: string, c: char): seq<string> {
    SplitN(s, c, |s|)
  }

  /** `sep.join(parts)` */
  function Join(parts: seq<string>, sep: string): string {
    if |parts| == 0 then ""
    else if |parts| == 1 then parts[0]
    else parts[0] + sep + Join(parts[1..], sep)
  }

  /** The concatenation of all pieces, `"".join(parts)`. */
  function Concat(parts: seq<string>): string {
    if |parts| == 0 then "" else parts[0] + Concat(parts[1..])
  }

  lemma {:induction false} JoinLength(parts: seq<string>, c: char)
    ensures |Join(parts, [c])| >= |parts| - 1
  {
    if |parts| > 1 {
      JoinLength(parts[1..], c);
    }
  }

  lemma {:induction false} SplitNFirst(p: string, c: char, rest: string, n: nat)
    requires n >= 1 && c !in p
    ensures SplitN(p + [c] + rest, c, n) == [p] + SplitN(rest, c, n - 1)
  {
    var s := p + [c] + rest;
    if p == [] {
      assert s[1..] == rest;
    } else {
      assert s[1..] == p[1..] + [c] + rest;
      SplitNFirst(p[1..], c, rest, n);
      assert [s[0]] + p[1..] == p;
    }
  }

  lemma {:induction false} SplitNWhole(p: string, c: char, n: nat)
    requires n == 0 || c !in p
    ensures SplitN(p, c, n) == [p]
  {
    if n > 0 && |p| > 0 {
      SplitNWhole(p[1..], c, n);
      assert [p[0]] + p[1..] == p;
    }
  }

  /** Splitting a joined text gives the pieces back, provided no piece holds the
      separator, except the last one when exactly `n` splits are made. */
  lemma {:induction false} SplitNJoin(parts: seq<string>, c: char, n: nat)
    requires 1 <= |parts| <= n + 1
    requires forall i :: 0 <= i < |parts| - 1 ==> c !in parts[i]
    requires |parts| - 1 < n ==> c !in parts[|parts| - 1]
    ensures SplitN(Join(parts, [c]), c, n) == parts
  {
    if |parts| == 1 {
      SplitNWhole(parts[0], c, n);
    } else {
      SplitNJoin(parts[1..], c, n - 1);
      SplitNFirst(parts[0], c, Join(parts[1..], [c]), n);
      assert [parts[0]] + parts[1..] == parts;
    }
  }

  /** The unlimited `split` inverts `join` on pieces free of the separator. */
  lemma SplitJoin(parts: seq<string>, c: char)
    requires |parts| >= 1
    requires forall i :: 0 <= i < |parts| ==> c !in parts[i]
    ensures Split(Join(parts, [c]), c) == parts
  {
    JoinLength(parts, c);
    SplitNJoin(parts, c, |Join(parts, [c])|);
  }

  /** Every piece with `p` in front. */
  function Prefixed(xs: seq<string>, p: string): (r: seq<string>)
    ensures |r| == |xs| && forall i :: 0 <= i < |xs| ==> r[i] == p + xs[i]
  {
    seq(|xs|, i requires 0 <= i < |xs| => p + xs[i])
  }

  /** Joining with `c` and a space is joining with `c` alone once every piece
      after the first carries the space in front. */
  lemma {:induction false} JoinSpaced(pre: string, first: string, rest: seq<string>, c: char)
    ensures pre + Join([first] + rest, [c, ' ']) == Join([pre + first] + Prefixed(rest, " "), [c])
    decreases |rest|
  {
    if rest != [] {
      JoinSpaced(" ", rest[0], rest[1..], c);
      assert [rest[0]] + rest[1..] == rest;
      assert ([first] + rest)[1..] == rest;
      assert Prefixed(rest, " ") == [" " + rest[0]] + Prefixed(rest[1..], " ");
      assert ([pre + first] + Prefixed(rest, " "))[1..] == Prefixed(rest, " ");
    }
  }

  /** `c` followed by a space as separator, moved into the pieces. */
  lemma JoinSpacedAll(items: seq<string>, c: char)
    requires |items| >= 1
    ensures Join(items, [c, ' ']) == Join([items[0]] + Prefixed(items[1..], " "), [c])
  {
    var rest := items[1..];
    assert [items[0]] + rest == items;
    assert "" + items[0] == items[0];
    assert "" + Join(items, [c, ' ']) == Join(items, [c, ' ']);
    JoinSpaced("", items[0], rest, c);
  }

  /** A join starts with its first piece's first character and ends with its
      last piece's last character. */
  lemma {:induction false} JoinEnds(parts: seq<string>, sep: string)
    requires |parts| >= 1 && forall i :: 0 <= i < |parts| ==> parts[i] != ""
    ensures var j := Join(parts, sep);
      |j| > 0 && j[0] == parts[0][0] && j[|j| - 1] == parts[|parts| - 1][|parts[|parts| - 1]| - 1]
  {
    var j := Join(parts, sep);
    if |parts| > 1 {
      var rest := Join(parts[1..], sep);
      JoinEnds(parts[1..], sep);
      assert j == parts[0] + sep + rest;
      assert parts[1..][|parts| - 2] == parts[|parts| - 1];
      assert j[|j| - 1] == rest[|rest| - 1];
    }
  }

  /** Length of the leading run of non-whitespace characters. */
  function TokenLength(s: string): (k: nat)
    ensures k <= |s|
    ensures forall i :: 0 <= i < k ==> !IsSpace(s[i])
    ensures k < |s| ==> IsSpace(s[k])
  {
    if |s| == 0 || IsSpace(s[0]) then 0 else 1 + TokenLength(s[1..])
  }

  /** `s.split(maxsplit=1)` (also written `s.split(None, 1)`): skip leading
      whitespace, cut one token at the next whitespace run, and keep the rest,
      minus its leading whitespace, as a second piece if anything remains. */
  function SplitWhitespaceOnce(s: string): (r: seq<string>)
    ensures |r| <= 2
  {
    var t := LStrip(s, Space);
    if t == "" then []
    else
      var k := TokenLength(t);
      var rest := LStrip(t[k..], Space);
      if rest == "" then [t[..k]] else [t[..k], rest]
  }

  lemma {:induction false} TokenLengthOf(token: string, rest: string)
    requires forall i :: 0 <= i < |token| ==> !IsSpace(token[i])
    requires rest == [] || IsSpace(rest[0])
    ensures TokenLength(token + rest) == |token|
  {
    if |token| > 0 {
      assert (token + rest)[1..] == token[1..] + rest;
      TokenLengthOf(token[1..], rest);
    }
  }

  lemma {:induction false} LStripPrefix(ws: string, s: string)
    requires forall i :: 0 <= i < |ws| ==> IsSpace(ws[i])
    ensures LStrip(ws + s, Space) == LStrip(s, Space)
  {
    if |ws| > 0 {
      assert (ws + s)[0] == ws[0];
      assert (ws + s)[1..] == ws[1..] + s;
      LStripPrefix(ws[1..], s);
    } else {
      assert ws + s == s;
    }
  }

  /** `strip()` removes leading whitespace up to a text that has none at
      either end. */
  lemma StripLeading(ws: string, s: string)
    requires forall i :: 0 <= i < |ws| ==> IsSpace(ws[i])
    requires s != [] && !IsSpace(s[0]) && !IsSpace(s[|s| - 1])
    ensures Strip(ws + s, Space) == s
  {
    LStripPrefix(ws, s);
    StripUntouched(s, Space);
  }

  /** A token followed by one space and a remainder that does not begin with
      whitespace splits back into exactly those two pieces (one piece when the
      remainder is empty or all whitespace). */
  lemma TokenSpaceRest(token: string, rest: string)
    requires token != [] && forall i :: 0 <= i < |token| ==> !IsSpace(token[i])
    requires rest == [] || !IsSpace(rest[0])
    ensures SplitWhitespaceOnce(token + " " + rest) == if rest == "" then [token] else [token, rest]
  {
    var s := token + (" " + rest);
    assert s == token + " " + rest;
    assert s[..|token|] == token;
    assert s[|token|..] == " " + rest;
    LStripUntouched(s, Space);
    TokenLengthOf(token, " " + rest);
    LStripPrefix(" ", rest);
    LStripUntouched(rest, Space);
  }

  lemma LStripUntouched(s: string, chars: Chars)
    requires s == [] || !In(s[0], chars)
    ensures LStrip(s, chars) == s
  {
  }

  /** The universal-newline translation of a stream opened in text mode:
      "\r\n" and a lone "\r" both become "\n". */
  function Newlines(text: string): (r: string)
    ensures '\r' !in r
  {
    if |text| == 0 then []
    else if text[0] == '\r' then
      if |text| > 1 && text[1] == '\n' then "\n" + Newlines(text[2..]) else "\n" + Newlines(text[1..])
    else [text[0]] + Newlines(text[1..])
  }

  /** A prefix without "\r" passes through the translation unchanged. */
  lemma {:induction false} NewlinesPrefix(p: string, text: string)
    requires '\r' !in p
    ensures Newlines(p + text) == p + Newlines(text)
  {
    if p != [] {
      assert p[0] in p;
      assert (p + text)[1..] == p[1..] + text;
      NewlinesPrefix(p[1..], text);
      assert [p[0]] + p[1..] == p;
    } else {
      assert p + text == text;
    }
  }

  /** Text without "\r" is not changed by the translation. */
  lemma NewlinesPlain(text: string)
    requires '\r' !in text
    ensures Newlines(text) == text
  {
    NewlinesPrefix(text, "");
    assert text + "" == text;
  }

  /** The lines of translated text: each runs up to and including the next
      "\n"; a final piece without "\n" is a line too. */
  function LinesOf(text: string): (lines: seq<string>)
    ensures Concat(lines) == text
  {
    if |text| == 0 then []
    else if text[0] == '\n' then
      assert text == "\n" + text[1..];
      ["\n"] + LinesOf(text[1..])
    else
      var t := LinesOf(text[1..]);
      if t == [] then [[text[0]]]
      else
        assert Concat(t) == t[0] + Concat(t[1..]);
        [[text[0]] + t[0]] + t[1..]
  }

  /** Python's line iteration over a stream opened in text mode (the default
      of `open`): newlines are translated, then the text is cut after each
      "\n". */
  function SplitLines(text: string): (lines: seq<string>)
    ensures Concat(lines) == Newlines(text)
  {
    LinesOf(Newlines(text))
  }

  lemma {:induction false} LinesOfFirst(body: string, rest: string)
    requires '\n' !in body
    ensures LinesOf(body + "\n" + rest) == [body + "\n"] + LinesOf(rest)
  {
    var s := body + "\n" + rest;
    if body == [] {
      assert s[1..] == rest;
    } else {
      assert s[0] == body[0] && s[1..] == body[1..] + "\n" + rest;
      LinesOfFirst(body[1..], rest);
      assert [s[0]] + (body[1..] + "\n") == body + "\n";
    }
  }

  /** A line as a writer emits it: text without a line break, then one "\n". */
  predicate IsTerminatedLine(line: string) {
    |line| > 0 && line[|line| - 1] == '\n' && '\n' !in line[..|line| - 1] && '\r' !in line
  }

  lemma {:induction false} LinesOfConcat(lines: seq<string>)
    requires forall i :: 0 <= i < |lines| ==> IsTerminatedLine(lines[i])
    ensures LinesOf(Concat(lines)) == lines
    ensures '\r' !in Concat(lines)
  {
    if |lines| > 0 {
      var l := lines[0];
      var body := l[..|l| - 1];
      assert l == body + "\n";
      LinesOfConcat(lines[1..]);
      LinesOfFirst(body, Concat(lines[1..]));
      assert [lines[0]] + lines[1..] == lines;
    }
  }

  /** Reading back text made of terminated lines yields exactly those lines. */
  lemma SplitLinesConcat(lines: seq<string>)
    requires forall i :: 0 <= i < |lines| ==> IsTerminatedLine(lines[i])
    ensures SplitLines(Concat(lines)) == lines
  {
    LinesOfConcat(lines);
    NewlinesPlain(Concat(lines));
  }

  predicate IsDigit(c: char) {
    '0' <= c <= '9'
  }

  function DigitChar(d: nat): (c: char)
    requires d < 10
    ensures IsDigit(c)
  {
    ('0' as int + d) as char
  }

  /** The digits of `int()`'s base-10 syntax: ASCII digits, with single
      underscores allowed between two digits. */
  predicate WellFormedDigits(b: string) {
    && |b| > 0 && IsDigit(b[0]) && IsDigit(b[|b| - 1])
    && (forall i :: 0 <= i < |b| ==> IsDigit(b[i]) || b[i] == '_')
    && NoDoubleUnderscore(b)
  }

  predicate NoDoubleUnderscore(b: string) {
    |b| < 2 || (!(b[0] == '_' && b[1] == '_') && NoDoubleUnderscore(b[1..]))
  }

  function DigitValue(c: char): (d: nat)
    requires IsDigit(c)
    ensures d < 10 && DigitChar(d) == c
  {
    c as int - '0' as int
  }

  /** The value of a digit string, underscores ignored. */
  function DigitsValue(b: string): nat
    requires forall i :: 0 <= i < |b| ==> IsDigit(b[i]) || b[i] == '_'
  {
    if |b| == 0 then 0
    else if b[|b| - 1] == '_' then DigitsValue(b[..|b| - 1])
    else 10 * DigitsValue(b[..|b| - 1]) + DigitValue(b[|b| - 1])
  }

  /** Python's `int(s)` on a string, `None` where it raises `ValueError`:
      surrounding whitespace (`IsIntSpace`) is ignored, one optional sign,
      then ASCII digits with single underscores between them. */
  function ParseInt(s: string): Option<int> {
    ParseSignedDigits(Strip(s, IntSpace))
  }

  /** `int()` once surrounding whitespace is gone: an optional sign, then digits. */
  function ParseSignedDigits(t: string): Option<int> {
    if |t| > 0 && (t[0] == '-' || t[0] == '+') then
      if WellFormedDigits(t[1..]) then
        var v: int := DigitsValue(t[1..]);
        Some(if t[0] == '-' then -v else v)
      else None
    else if WellFormedDigits(t) then Some(DigitsValue(t))
    else None
  }

  function NatToString(n: nat): (s: string)
    ensures |s| >= 1 && forall i :: 0 <= i < |s| ==> IsDigit(s[i])
  {
    if n < 10 then [DigitChar(n)] else NatToString(n / 10) + [DigitChar(n % 10)]
  }

  /** Python's `str(n)` for an integer. */
  function IntToString(n: int): string {
    if n < 0 then "-" + NatToString(-n) else NatToString(n)
  }

  lemma {:induction false} NoUnderscoreNoDouble(b: string)
    requires forall i :: 0 <= i < |b| ==> IsDigit(b[i])
    ensures NoDoubleUnderscore(b)
  {
    if |b| >= 2 {
      NoUnderscoreNoDouble(b[1..]);
    }
  }

  lemma {:induction false} NatToStringValue(n: nat)
    ensures WellFormedDigits(NatToString(n))
    ensures DigitsValue(NatToString(n)) == n
  {
    var s := NatToString(n);
    NoUnderscoreNoDouble(s);
    if n >= 10 {
      NatToStringValue(n / 10);
      assert s[..|s| - 1] == NatToString(n / 10);
    }
  }

  lemma DigitNotSpace(c: char)
    requires IsDigit(c) || c == '-'
    ensures !IsSpace(c)
  {
  }

  /** `int()` skips one whitespace character on each side of a number, a
      non-ASCII one such as U+00A0 included. */
  lemma IntSkipsSpace(a: char, t: string, b: char)
    requires IsIntSpace(a) && IsIntSpace(b) && WellFormedDigits(t)
    ensures ParseInt([a] + t + [b]) == Some(DigitsValue(t))
  {
    var s := [a] + t + [b];
    assert s[1..] == t + [b];
    assert (t + [b])[..|t|] == t;
    DigitNotSpace(t[0]);
    DigitNotSpace(t[|t| - 1]);
    assert LStrip(s, IntSpace) == LStrip(t + [b], IntSpace);
    assert LStrip(t + [b], IntSpace) == t + [b];
    assert RStrip(t + [b], IntSpace) == RStrip(t, IntSpace);
    StripUntouched(t, IntSpace);
    UnsignedDigits(t);
  }

  /** `int()` does not skip the separators U+001C to U+001F, although
      `str.isspace()` accepts them: one in front of any text fails. */
  lemma IntKeepsSeparator(c: char, t: string)
    requires '\U{1C}' <= c <= '\U{1F}'
    ensures IsSpace(c)
    ensures ParseInt([c] + t) == None
  {
    var s := [c] + t;
    assert !In(s[0], IntSpace);
    StripKeepsFirst(s, IntSpace);
    NotANumber(Strip(s, IntSpace));
  }

  /** Text whose first character is neither a sign nor a digit is no number. */
  lemma NotANumber(r: string)
    requires |r| > 0 && !IsDigit(r[0]) && r[0] != '-' && r[0] != '+'
    ensures ParseSignedDigits(r) == None
  {
  }

  /** `int(str(n)) == n` for every integer. */
  lemma IntRoundTrip(n: int)
    ensures ParseInt(IntToString(n)) == Some(n)
  {
    var m: nat := if n < 0 then -n else n;
    NatToStringValue(m);
    var s := IntToString(n);
    if n < 0 {
      assert s[1..] == NatToString(m);
      ParseSigned(s);
    } else {
      ParseUnsigned(s);
    }
  }

  lemma ParseUnsigned(t: string)
    requires WellFormedDigits(t)
    ensures ParseInt(t) == Some(DigitsValue(t))
  {
    DigitsUnstripped(t);
    UnsignedDigits(t);
  }

  lemma DigitsUnstripped(t: string)
    requires WellFormedDigits(t)
    ensures Strip(t, IntSpace) == t
  {
    DigitNotSpace(t[0]);
    DigitNotSpace(t[|t| - 1]);
    StripUntouched(t, IntSpace);
  }

  lemma UnsignedDigits(t: string)
    requires WellFormedDigits(t)
    ensures ParseSignedDigits(t) == Some(DigitsValue(t))
  {
  }

  lemma ParseSigned(t: string)
    requires |t| > 1 && t[0] == '-' && WellFormedDigits(t[1..])
    ensures ParseInt(t) == Some(-(DigitsValue(t[1..]) as int))
  {
    assert t[|t| - 1] == t[1..][|t| - 2];
    DigitNotSpace(t[0]);
    DigitNotSpace(t[|t| - 1]);
    StripUntouched(t, IntSpace);
    NegativeDigits(t);
  }

  lemma NegativeDigits(t: string)
    requires |t| > 1 && t[0] == '-' && WellFormedDigits(t[1..])
    ensures ParseSignedDigits(t) == Some(-(DigitsValue(t[1..]) as int))
  {
  }

  /** `str(n)` never contains a tab, a newline or any other whitespace. */
  lemma IntToStringPlain(n: int)
    ensures forall i :: 0 <= i < |IntToString(n)| ==> !IsSpace(IntToString(n)[i])
    ensures IntToString(n) != "."
  {
  }

  /** `s.split(c, 1)` cuts at the first `c`, and leaves `s` whole when it has none. */
  lemma {:induction false} SplitOnce(s: string, c: char)
    ensures |SplitN(s, c, 1)| == 2 <==> c in s
    ensures |SplitN(s, c, 1)| == 2 ==>
      s == SplitN(s, c, 1)[0] + [c] + SplitN(s, c, 1)[1] && c !in SplitN(s, c, 1)[0]
  {
    if |s| > 0 {
      if s[0] == c {
        SplitNWhole(s[1..], c, 0);
        assert s == [] + [c] + s[1..];
      } else {
        SplitOnce(s[1..], c);
        assert s == [s[0]] + s[1..];
      }
    }
  }

  /** `s.split(c, maxsplit=n)` has one piece more than the separators it
      cuts at, and it cuts at no more than `n` of them. */
  lemma {:induction false} SplitNCount(s: string, c: char, n: nat)
    ensures |SplitN(s, c, n)| == if multiset(s)[c] < n then multiset(s)[c] + 1 else n + 1
  {
    if n > 0 && |s| > 0 {
      assert s == [s[0]] + s[1..];
      assert multiset(s)[c] == multiset(s[1..])[c] + (if s[0] == c then 1 else 0);
      if s[0] == c {
        SplitNCount(s[1..], c, n - 1);
      } else {
        SplitNCount(s[1..], c, n);
      }
    }
  }

  /** A character found neither in the pieces nor in the separator is not in
      their join. */
  lemma {:induction false} JoinFree(parts: seq<string>, sep: string, c: char)
    requires c !in sep && forall i :: 0 <= i < |parts| ==> c !in parts[i]
    ensures c !in Join(parts, sep)
  {
    if |parts| > 1 {
      JoinFree(parts[1..], sep, c);
    }
  }

  /** `rstrip("\n")` takes off exactly the newline a writer put after a line. */
  lemma RStripNewline(body: string)
    requires '\n' !in body
    ensures RStrip(body + "\n", Among({'\n'})) == body
  {
    var s := body + "\n";
    assert s[..|s| - 1] == body;
    assert body == [] || body[|body| - 1] in body;
  }

  /** A non-empty sequence is its front followed by its last element. */
  lemma InitLast<T>(s: seq<T>)
    requires s != []
    ensures s[..|s| - 1] + [s[|s| - 1]] == s
  {
  }

  /** `"".join` over one more piece. */
  lemma {:induction false} ConcatSnoc(parts: seq<string>, last: string)
    ensures Concat(parts + [last]) == Concat(parts) + last
  {
    if parts != [] {
      assert (parts + [last])[1..] == parts[1..] + [last];
      ConcatSnoc(parts[1..], last);
    }
  }

  /** `lstrip()` leaves nothing exactly when the text is all whitespace. */
  lemma {:induction false} LStripAllSpace(s: string)
    ensures LStrip(s, Space) == [] <==> forall i :: 0 <= i < |s| ==> IsSpace(s[i])
  {
    if |s| > 0 && IsSpace(s[0]) {
      LStripAllSpace(s[1..]);
      if forall i :: 0 <= i < |s[1..]| ==> IsSpace(s[1..][i]) {
        forall i | 0 <= i < |s|
          ensures IsSpace(s[i])
        {
          if i > 0 {
            assert s[i] == s[1..][i - 1];
          }
        }
      }
    }
  }

  /** The pieces of `split(maxsplit=1)`: none for blank text, otherwise a
      token without whitespace, then possibly a remainder that does not start
      with whitespace. */
  lemma SplitWhitespaceOnceWords(s: string)
    ensures var r := SplitWhitespaceOnce(s);
      && (r == [] <==> forall i :: 0 <= i < |s| ==> IsSpace(s[i]))
      && (|r| >= 1 ==> r[0] != "" && forall i :: 0 <= i < |r[0]| ==> !IsSpace(r[0][i]))
      && (|r| == 2 ==> r[1] != "" && !IsSpace(r[1][0]))
  {
    LStripAllSpace(s);
    var t := LStrip(s, Space);
    if t != "" {
      var k := TokenLength(t);
      var token := t[..k];
      var rest := LStrip(t[k..], Space);
      assert !IsSpace(t[0]);
      assert k > 0;
      assert forall i :: 0 <= i < |token| ==> !IsSpace(token[i]) by {
        forall i | 0 <= i < |token|
          ensures !IsSpace(token[i])
        {
          assert token[i] == t[i];
        }
      }
      assert rest == [] || !IsSpace(rest[0]);
      assert SplitWhitespaceOnce(s) == if rest == "" then [token] else [token, rest];
    }
  }

  /** `"".join` over two lists is the two joins one after the other. */
  lemma {:induction false} ConcatAppend(a: seq<string>, b: seq<string>)
    ensures Concat(a + b) == Concat(a) + Concat(b)
  {
    if a == [] {
      assert a + b == b;
    } else {
      assert (a + b)[1..] == a[1..] + b;
      ConcatAppend(a[1..], b);
    }
  }

  /** A last line without a newline is read as it is. */
  lemma {:induction false} LinesOfUnterminated(s: string)
    requires s != "" && '\n' !in s
    ensures LinesOf(s) == [s]
  {
    assert s[0] in s;
    assert [s[0]] + s[1..] == s;
    var t := LinesOf(s[1..]);
    if |s| > 1 {
      LinesOfUnterminated(s[1..]);
      assert t[1..] == [];
      assert LinesOf(s) == [[s[0]] + t[0]] + t[1..];
    } else {
      assert s[1..] == [] && [s[0]] == s;
      assert t == [];
    }
  }
}
