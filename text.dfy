/** String helpers shared by the model: the JavaScript whitespace set and
    `trim`, ASCII case mapping, decimal digits, `padStart(2, '0')`,
    `split` on a set of separator characters and `join`. */
module Text {

  /** The characters JavaScript's `trim()` and the regular-expression class `\s`
      treat as white space (WhiteSpace and LineTerminator of ECMA-262). */
  predicate IsWhitespace(c: char) {
    || c == ' ' || c == '\t' || c == '\n' || c == '\r' || c == '\U{B}' || c == '\U{C}'
    || c == '\U{A0}' || c == '\U{1680}' || ('\U{2000}' <= c <= '\U{200A}')
    || c == '\U{2028}' || c == '\U{2029}' || c == '\U{202F}' || c == '\U{205F}'
    || c == '\U{3000}' || c == '\U{FEFF}'
  }

  predicate AllWhitespace(s: string) {
    forall i | 0 <= i < |s| :: IsWhitespace(s[i])
  }

  /** A string with no white space at either end. */
  predicate IsTrimmed(s: string) {
    s == [] || (!IsWhitespace(s[0]) && !IsWhitespace(s[|s| - 1]))
  }

  /** The number of white-space characters at the start of `s`. */
  function LeadingWhitespace(s: string): (k: nat)
    ensures k <= |s| && AllWhitespace(s[..k])
    ensures k < |s| ==> !IsWhitespace(s[k])
  {
    if s == [] || !IsWhitespace(s[0]) then 0
    else
      var k := 1 + LeadingWhitespace(s[1..]);
      assert forall i | 1 <= i < k :: s[..k][i] == s[1..][..k - 1][i - 1];
      k
  }

  /** The length of `s` without the white space at its end. */
  function TrailingStart(s: string): (j: nat)
    ensures j <= |s| && AllWhitespace(s[j..])
    ensures j > 0 ==> !IsWhitespace(s[j - 1])
  {
    if s == [] || !IsWhitespace(s[|s| - 1]) then |s|
    else
      var j := TrailingStart(s[..|s| - 1]);
      assert forall i | j <= i < |s| - 1 :: s[i] == s[..|s| - 1][i];
      j
  }

  function TrimStart(s: string): string {
    s[LeadingWhitespace(s)..]
  }

  function TrimEnd(s: string): string {
    s[..TrailingStart(s)]
  }

  /** JavaScript's `String.prototype.trim`. */
  function Trim(s: string): (r: string)
    ensures IsTrimmed(r)
    ensures r == [] <==> AllWhitespace(s)
  {
    var t := TrimStart(s);
    var k := LeadingWhitespace(s);
    var j := TrailingStart(t);
    assert AllWhitespace(s) ==> k == |s|;
    assert t == [] ==> s[..k] == s;
    assert j > 0 ==> t[0] == s[k];
    t[..j]
  }

  /** A string that is already trimmed is left alone by `Trim`. */
  lemma TrimOfTrimmed(s: string)
    requires IsTrimmed(s)
    ensures Trim(s) == s
  {
    assert LeadingWhitespace(s) == 0;
    assert s[0..] == s;
    assert TrailingStart(s) == |s|;
    assert s[..|s|] == s;
  }

  lemma TrimIdempotent(s: string)
    ensures Trim(Trim(s)) == Trim(s)
  {
    TrimOfTrimmed(Trim(s));
  }

  /** Trimming removes only white space: what it drops at both ends is white
      space and what it keeps is a contiguous slice of the input. */
  lemma TrimIsSlice(s: string)
    ensures exists i, j | 0 <= i <= j <= |s| ::
      Trim(s) == s[i..j] && AllWhitespace(s[..i]) && AllWhitespace(s[j..])
  {
    var i := LeadingWhitespace(s);
    var t := s[i..];
    var j := i + TrailingStart(t);
    assert Trim(s) == s[i..j];
    assert s[j..] == t[TrailingStart(t)..];
  }

  /** Trimming a string framed by white space on the left and on the right
      recovers the framed text when that text is itself trimmed and not empty. */
  lemma TrimFramed(pre: string, body: string, post: string)
    requires AllWhitespace(pre) && AllWhitespace(post)
    requires body != [] && IsTrimmed(body)
    ensures Trim(pre + body + post) == body
  {
    var s := pre + body + post;
    LeadingFramed(pre, body + post);
    assert pre + (body + post) == s;
    assert TrimStart(s) == body + post;
    TrailingFramed(body, post);
    assert (body + post)[..|body|] == body;
  }

  lemma {:induction false} LeadingFramed(pre: string, rest: string)
    requires AllWhitespace(pre) && rest != [] && !IsWhitespace(rest[0])
    ensures LeadingWhitespace(pre + rest) == |pre|
  {
    if pre != [] {
      assert (pre + rest)[1..] == pre[1..] + rest;
      LeadingFramed(pre[1..], rest);
    }
  }

  lemma {:induction false} TrailingFramed(body: string, post: string)
    requires AllWhitespace(post) && body != [] && !IsWhitespace(body[|body| - 1])
    ensures TrailingStart(body + post) == |body|
  {
    if post != [] {
      assert (body + post)[..|body + post| - 1] == body + post[..|post| - 1];
      TrailingFramed(body, post[..|post| - 1]);
    } else {
      assert body + post == body;
    }
  }

  /** `s` with every white-space character removed (`replace(/\s/g, '')`). */
  function RemoveWhitespace(s: string): (r: string)
    ensures |r| <= |s|
    ensures forall i | 0 <= i < |r| :: !IsWhitespace(r[i])
    ensures !AllWhitespace(s) ==> r != []
  {
    if s == [] then []
    else if IsWhitespace(s[|s| - 1]) then RemoveWhitespace(s[..|s| - 1])
    else RemoveWhitespace(s[..|s| - 1]) + [s[|s| - 1]]
  }

  /** A string without white space has nothing to remove. */
  lemma {:induction false} RemoveWhitespaceAbsent(s: string)
    requires forall i | 0 <= i < |s| :: !IsWhitespace(s[i])
    ensures RemoveWhitespace(s) == s
  {
    if s != [] {
      RemoveWhitespaceAbsent(s[..|s| - 1]);
      assert s[..|s| - 1] + [s[|s| - 1]] == s;
    }
  }

  // ASCII letter case.  JavaScript maps the whole of Unicode; see README.

  function UpperChar(c: char): char {
    if 'a' <= c <= 'z' then (c as int - 'a' as int + 'A' as int) as char else c
  }

  function LowerChar(c: char): char {
    if 'A' <= c <= 'Z' then (c as int - 'A' as int + 'a' as int) as char else c
  }

  function ToUpper(s: string): (r: string)
    ensures |r| == |s| && forall i | 0 <= i < |s| :: r[i] == UpperChar(s[i])
  {
    seq(|s|, i requires 0 <= i < |s| => UpperChar(s[i]))
  }

  function ToLower(s: string): (r: string)
    ensures |r| == |s| && forall i | 0 <= i < |s| :: r[i] == LowerChar(s[i])
  {
    seq(|s|, i requires 0 <= i < |s| => LowerChar(s[i]))
  }

  /** No lower-case ASCII letter occurs in `s`. */
  predicate NoLowerCase(s: string) {
    forall i | 0 <= i < |s| :: !('a' <= s[i] <= 'z')
  }

  lemma UpperUnchanged(s: string)
    requires NoLowerCase(s)
    ensures ToUpper(s) == s
  {
  }

  /** Upper-casing leaves white space where it was and is idempotent. */
  lemma UpperKeepsWhitespace(s: string)
    ensures forall i | 0 <= i < |s| :: IsWhitespace(ToUpper(s)[i]) <==> IsWhitespace(s[i])
    ensures NoLowerCase(ToUpper(s)) && ToUpper(ToUpper(s)) == ToUpper(s)
  {
    UpperUnchanged(ToUpper(s));
  }

  lemma {:induction false} LeadingWhitespaceUpper(s: string)
    ensures LeadingWhitespace(ToUpper(s)) == LeadingWhitespace(s)
    decreases |s|
  {
    if s != [] && IsWhitespace(s[0]) {
      assert ToUpper(s)[1..] == ToUpper(s[1..]);
      LeadingWhitespaceUpper(s[1..]);
    }
  }

  lemma {:induction false} TrailingStartUpper(s: string)
    ensures TrailingStart(ToUpper(s)) == TrailingStart(s)
    decreases |s|
  {
    if s != [] && IsWhitespace(s[|s| - 1]) {
      assert ToUpper(s)[..|s| - 1] == ToUpper(s[..|s| - 1]);
      TrailingStartUpper(s[..|s| - 1]);
    }
  }

  /** Trimming and upper-casing commute: letter case never changes what counts
      as white space. */
  lemma TrimUpper(s: string)
    ensures Trim(ToUpper(s)) == ToUpper(Trim(s))
  {
    LeadingWhitespaceUpper(s);
    var k := LeadingWhitespace(s);
    assert ToUpper(s)[k..] == ToUpper(s[k..]);
    TrailingStartUpper(s[k..]);
    var j := TrailingStart(s[k..]);
    assert ToUpper(s[k..])[..j] == ToUpper(s[k..][..j]);
  }

  /** True when `sub` occurs in `s` at some position (`String.prototype.includes`). */
  predicate Contains(s: string, sub: string)
    decreases |s|
  {
    |sub| <= |s| && (s[..|sub|] == sub || Contains(s[1..], sub))
  }

  // Decimal digits.

  predicate IsDigit(c: char) {
    '0' <= c <= '9'
  }

  predicate AllDigits(s: string) {
    forall i | 0 <= i < |s| :: IsDigit(s[i])
  }

  function DigitChar(d: nat): (c: char)
    requires d < 10
    ensures IsDigit(c) && DigitValue(c) == d
  {
    ('0' as int + d) as char
  }

  function DigitValue(c: char): nat
    requires IsDigit(c)
  {
    c as int - '0' as int
  }

  /** The number a string of decimal digits denotes (`parseInt` on such a string). */
  function ParseDigits(s: string): nat
    requires AllDigits(s)
  {
    if s == [] then 0 else ParseDigits(s[..|s| - 1]) * 10 + DigitValue(s[|s| - 1])
  }

  /** `String(n)` for a non-negative integer: decimal, no leading zero. */
  function NatToString(n: nat): (r: string)
    ensures r != [] && AllDigits(r)
    ensures n < 10 <==> |r| == 1
    ensures |r| > 1 ==> r[0] != '0'
    decreases n
  {
    if n < 10 then [DigitChar(n)] else NatToString(n / 10) + [DigitChar(n % 10)]
  }

  /** Reading back the decimal form of a number gives the number. */
  lemma {:induction false} ParseNatToString(n: nat)
    ensures ParseDigits(NatToString(n)) == n
    decreases n
  {
    var r := NatToString(n);
    if n >= 10 {
      ParseNatToString(n / 10);
      assert r[..|r| - 1] == NatToString(n / 10);
    }
  }

  /** Distinct numbers have distinct decimal forms. */
  lemma NatToStringInjective(a: nat, b: nat)
    requires NatToString(a) == NatToString(b)
    ensures a == b
  {
    ParseNatToString(a);
    ParseNatToString(b);
  }

  /** The number of decimal digits of `n`, as a bound. */
  lemma {:induction false} NatToStringLength(n: nat)
    ensures n < 100 ==> |NatToString(n)| <= 2
    ensures n >= 10 ==> |NatToString(n)| >= 2
  {
  }

  function IntToString(i: int): (r: string)
    ensures r != []
  {
    if i < 0 then "-" + NatToString(-i) else NatToString(i)
  }

  /** `String(n).padStart(2, '0')`. */
  function Pad2(n: nat): (r: string)
    ensures AllDigits(r) && ParseDigits(r) == n
    ensures n < 100 ==> |r| == 2
  {
    ParseNatToString(n);
    if n < 10 then
      var r := ['0', DigitChar(n)];
      assert r[..1] == ['0'];
      r
    else
      NatToStringLength(n);
      NatToString(n)
  }

  lemma Pad2Injective(a: nat, b: nat)
    requires Pad2(a) == Pad2(b)
    ensures a == b
  {
  }

  // Splitting and joining.

  /** JavaScript's `split` on a character class: every separator ends one piece,
      so there is always one more piece than there are separators. */
  function Split(s: string, seps: set<char>): (r: seq<string>)
    ensures |r| >= 1
    decreases |s|
  {
    if s == [] then [[]]
    else
      var rest := Split(s[..|s| - 1], seps);
      var c := s[|s| - 1];
      if c in seps then rest + [[]]
      else rest[..|rest| - 1] + [rest[|rest| - 1] + [c]]
  }

  /** Separators in `s`, counted. */
  function CountIn(s: string, seps: set<char>): nat {
    if s == [] then 0 else CountIn(s[..|s| - 1], seps) + (if s[|s| - 1] in seps then 1 else 0)
  }

  lemma {:induction false} SplitCount(s: string, seps: set<char>)
    ensures |Split(s, seps)| == CountIn(s, seps) + 1
  {
    if s != [] { SplitCount(s[..|s| - 1], seps); }
  }

  /** A string with no separator is one piece: itself. */
  lemma {:induction false} SplitNoSeparator(s: string, seps: set<char>)
    requires forall i | 0 <= i < |s| :: s[i] !in seps
    ensures Split(s, seps) == [s]
  {
    if s != [] {
      SplitNoSeparator(s[..|s| - 1], seps);
      assert s[..|s| - 1] + [s[|s| - 1]] == s;
    }
  }

  /** `parts.join(sep)`. */
  function Join(parts: seq<string>, sep: string): string {
    if parts == [] then []
    else if |parts| == 1 then parts[0]
    else Join(parts[..|parts| - 1], sep) + sep + parts[|parts| - 1]
  }

  /** A join starts with the first piece's first character ... */
  lemma {:induction false} JoinStart(parts: seq<string>, sep: string)
    requires parts != [] && parts[0] != []
    ensures Join(parts, sep) != [] && Join(parts, sep)[0] == parts[0][0]
  {
    if |parts| > 1 {
      JoinStart(parts[..|parts| - 1], sep);
    }
  }

  /** ... and ends with the last piece's last character. */
  lemma JoinEnd(parts: seq<string>, sep: string)
    requires parts != [] && parts[|parts| - 1] != []
    ensures var j := Join(parts, sep); var last := parts[|parts| - 1];
      j != [] && j[|j| - 1] == last[|last| - 1]
  {
  }

  /** Splitting the joined pieces on the separator character gives the pieces
      back when no piece contains that character. */
  lemma {:induction false} SplitJoin(parts: seq<string>, c: char)
    requires parts != []
    requires forall k | 0 <= k < |parts| :: forall i | 0 <= i < |parts[k]| :: parts[k][i] != c
    ensures Split(Join(parts, [c]), {c}) == parts
  {
    if |parts| == 1 {
      SplitNoSeparator(parts[0], {c});
    } else {
      var init := parts[..|parts| - 1];
      var last := parts[|parts| - 1];
      assert Join(parts, [c]) == Join(init, [c]) + [c] + last;
      assert forall k | 0 <= k < |init| :: init[k] == parts[k];
      SplitJoin(init, c);
      SplitAppend(Join(init, [c]), last, c);
      assert init + [last] == parts;
    }
  }

  lemma {:induction false} SplitAppend(s: string, t: string, c: char)
    requires forall i | 0 <= i < |t| :: t[i] != c
    ensures Split(s + [c] + t, {c}) == Split(s, {c}) + [t]
    decreases |t|
  {
    var w := s + [c] + t;
    if t == [] {
      assert w[..|w| - 1] == s;
      assert w[|w| - 1] == c;
    } else {
      var t' := t[..|t| - 1];
      var x := t[|t| - 1];
      SplitAppend(s, t', c);
      assert w[..|w| - 1] == s + [c] + t';
      assert w[|w| - 1] == x && x !in {c};
      var rest := Split(s + [c] + t', {c});
      assert Split(w, {c}) == rest[..|rest| - 1] + [rest[|rest| - 1] + [x]];
      assert t' + [x] == t;
    }
  }

  /** Removes every occurrence of `c` (PHP's `str_replace(c, '', s)`). */
  function RemoveChar(s: string, c: char): (r: string)
    ensures |r| <= |s| && c !in r
  {
    if s == [] then []
    else if s[|s| - 1] == c then RemoveChar(s[..|s| - 1], c)
    else RemoveChar(s[..|s| - 1], c) + [s[|s| - 1]]
  }

  lemma {:induction false} RemoveCharAppend(a: string, b: string, c: char)
    ensures RemoveChar(a + b, c) == RemoveChar(a, c) + RemoveChar(b, c)
    decreases |b|
  {
    if b != [] {
      var b' := b[..|b| - 1];
      RemoveCharAppend(a, b', c);
      assert (a + b)[..|a + b| - 1] == a + b';
    } else {
      assert a + b == a;
    }
  }

  lemma {:induction false} RemoveCharAbsent(s: string, c: char)
    requires c !in s
    ensures RemoveChar(s, c) == s
  {
    if s != [] {
      RemoveCharAbsent(s[..|s| - 1], c);
    }
  }
}
