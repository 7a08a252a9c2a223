/** The pieces of ECMAScript string and number behaviour that the components
    rely on: `trim`, the `\s` class of regular expressions, `toLowerCase` /
    `toUpperCase`, `includes`, `split` on one character, `join`,
    `Number.parseInt` (with `NaN` as `None`), the truncating `%`, number to
    string conversion and `padStart(2, "0")`. */
module JsStrings {
  import opened Wrappers

  // ---------------------------------------------------------------------------
  // White space
  // ---------------------------------------------------------------------------

  /** ECMAScript WhiteSpace and LineTerminator code points: the characters that
      `\s` matches and that `trim` and `parseInt` skip. */
  predicate IsWhitespace(c: char) {
    var n := c as int;
    (0x09 <= n <= 0x0D) || n == 0x20 || n == 0xA0 || n == 0x1680
    || (0x2000 <= n <= 0x200A) || n == 0x2028 || n == 0x2029
    || n == 0x202F || n == 0x205F || n == 0x3000 || n == 0xFEFF
  }

  predicate NoWhitespace(s: string) {
    forall i :: 0 <= i < |s| ==> !IsWhitespace(s[i])
  }

  /** Every character is white space (JavaScript: `!s.trim()`). */
  predicate IsBlank(s: string) {
    forall i :: 0 <= i < |s| ==> IsWhitespace(s[i])
  }

  /** The end of the white space that starts at position `i`. */
  function LeadingEnd(s: string, i: nat): (k: nat)
    requires i <= |s|
    ensures i <= k <= |s|
    ensures forall j :: i <= j < k ==> IsWhitespace(s[j])
    ensures k == |s| || !IsWhitespace(s[k])
    decreases |s| - i
  {
    if i < |s| && IsWhitespace(s[i]) then LeadingEnd(s, i + 1) else i
  }

  /** The start of the white space that ends just before position `j`. */
  function TrailingStart(s: string, j: nat): (k: nat)
    requires j <= |s|
    ensures k <= j
    ensures forall m :: k <= m < j ==> IsWhitespace(s[m])
    ensures k == 0 || !IsWhitespace(s[k - 1])
  {
    if j > 0 && IsWhitespace(s[j - 1]) then TrailingStart(s, j - 1) else j
  }

  /** White space from `i` up to a non-white character (or the end) is the
      whole leading run. */
  lemma {:induction false} LeadingEndIs(s: string, i: nat, k: nat)
    requires i <= k <= |s|
    requires forall j :: i <= j < k ==> IsWhitespace(s[j])
    requires k == |s| || !IsWhitespace(s[k])
    ensures LeadingEnd(s, i) == k
    decreases k - i
  {
    if i < k {
      LeadingEndIs(s, i + 1, k);
    }
  }

  /** `String.prototype.trimStart`: `s` with its leading white space removed. */
  function TrimStart(s: string): (r: string)
  {
    s[LeadingEnd(s, 0)..]
  }

  /** `String.prototype.trimEnd`: `s` with its trailing white space removed. */
  function TrimEnd(s: string): (r: string)
  {
    s[..TrailingStart(s, |s|)]
  }

  /** `String.prototype.trim`. */
  function Trim(s: string): (r: string)
  {
    TrimEnd(TrimStart(s))
  }

  /** `s` has no white space at either end. */
  predicate IsTrimmed(s: string) {
    s == [] || (!IsWhitespace(s[0]) && !IsWhitespace(s[|s| - 1]))
  }

  /** The trimmed string starts and ends with non-white space, and it is the
      piece of the input left after cutting white space off both ends. */
  lemma TrimSpec(s: string)
    ensures IsTrimmed(Trim(s))
    ensures var k := |s| - |TrimStart(s)|;
            k + |Trim(s)| <= |s| && Trim(s) == s[k..k + |Trim(s)|]
  {
    var k := LeadingEnd(s, 0);
    var a := s[k..];
    var n := TrailingStart(a, |a|);
    SliceOfSuffix(s, k, n);
    if n != 0 {
      assert a[..n][0] == a[0];
    }
  }

  lemma SliceOfSuffix(s: string, k: nat, n: nat)
    requires k + n <= |s|
    ensures s[k..][..n] == s[k..k + n]
  {
  }

  /** Trimming cuts off nothing from a string that has no white space at its ends. */
  lemma TrimOfTrimmed(s: string)
    requires IsTrimmed(s)
    ensures Trim(s) == s
  {
    assert LeadingEnd(s, 0) == 0;
    assert s[0..] == s;
    assert TrailingStart(s, |s|) == |s|;
  }

  /** A blank string trims to "" and every other string to a non-empty one. */
  lemma TrimEmptyIffBlank(s: string)
    ensures Trim(s) == [] <==> IsBlank(s)
  {
    if IsBlank(s) {
      BlankTrimStart(s);
    } else {
      var i :| 0 <= i < |s| && !IsWhitespace(s[i]);
      TrimKeepsNonWhitespace(s, i);
    }
  }

  /** A character that is not white space survives trimming. */
  lemma TrimKeepsNonWhitespace(s: string, i: nat)
    requires i < |s| && !IsWhitespace(s[i])
    ensures Trim(s) != []
  {
    var k := LeadingEnd(s, 0);
    assert k <= i;
    var a := s[k..];
    assert a[i - k] == s[i];
    assert TrailingStart(a, |a|) > i - k;
  }

  lemma BlankTrimStart(s: string)
    requires IsBlank(s)
    ensures TrimStart(s) == []
  {
    LeadingEndIs(s, 0, |s|);
  }

  /** Trimming twice is trimming once. */
  lemma TrimIdempotent(s: string)
    ensures Trim(Trim(s)) == Trim(s)
  {
    TrimSpec(s);
    TrimOfTrimmed(Trim(s));
  }

  /** One leading white-space character in front of a trimmed string is cut off by `trim`. */
  lemma TrimAfterSpace(c: char, x: string)
    requires IsWhitespace(c) && IsTrimmed(x)
    ensures Trim([c] + x) == x
  {
    LeadingEndIs([c] + x, 0, 1);
    assert ([c] + x)[1..] == x;
    TrimOfTrimmed(x);
  }

  // ---------------------------------------------------------------------------
  // Case mapping (ASCII letters only)
  // ---------------------------------------------------------------------------

  function LowerChar(c: char): char {
    if 'A' <= c <= 'Z' then (c as int + 32) as char else c
  }

  function UpperChar(c: char): char {
    if 'a' <= c <= 'z' then (c as int - 32) as char else c
  }

  /** `toLowerCase`, applied character by character. */
  function ToLower(s: string): (r: string)
    ensures |r| == |s|
    ensures forall i :: 0 <= i < |s| ==> r[i] == LowerChar(s[i])
  {
    seq(|s|, i requires 0 <= i < |s| => LowerChar(s[i]))
  }

  /** `toUpperCase`, applied character by character. */
  function ToUpper(s: string): (r: string)
    ensures |r| == |s|
    ensures forall i :: 0 <= i < |s| ==> r[i] == UpperChar(s[i])
  {
    seq(|s|, i requires 0 <= i < |s| => UpperChar(s[i]))
  }

  lemma LowerCharIdempotent(c: char)
    ensures LowerChar(LowerChar(c)) == LowerChar(c)
  {
  }

  lemma ToLowerIdempotent(s: string)
    ensures ToLower(ToLower(s)) == ToLower(s)
  {
  }

  lemma ToLowerConcat(a: string, b: string)
    ensures ToLower(a + b) == ToLower(a) + ToLower(b)
  {
  }

  /** Lowercasing never turns a character into white space or out of it. */
  lemma LowerCharWhitespace(c: char)
    ensures IsWhitespace(LowerChar(c)) == IsWhitespace(c)
  {
  }

  // ---------------------------------------------------------------------------
  // Substrings
  // ---------------------------------------------------------------------------

  /** `s.includes(sub)`: `sub` occurs in `s` as a contiguous substring. */
  predicate Contains(s: string, sub: string) {
    exists i :: 0 <= i <= |s| && sub <= s[i..]
  }

  /** The empty string is included in every string. */
  lemma ContainsEmpty(s: string)
    ensures Contains(s, "")
  {
    assert "" <= s[0..];
  }

  // ---------------------------------------------------------------------------
  // split and join
  // ---------------------------------------------------------------------------

  /** `s.split(sep)` for a one-character separator: the pieces between
      separators, at least one of them. */
  function Split(s: string, sep: char): (parts: seq<string>)
    ensures |parts| >= 1
    ensures forall k :: 0 <= k < |parts| ==> sep !in parts[k]
  {
    if s == [] then [""]
    else
      var rest := Split(s[1..], sep);
      if s[0] == sep then [""] + rest
      else [[s[0]] + rest[0]] + rest[1..]
  }

  /** `parts.join(sep)`. */
  function Join(parts: seq<string>, sep: string): string
  {
    if |parts| == 0 then ""
    else if |parts| == 1 then parts[0]
    else parts[0] + sep + Join(parts[1..], sep)
  }

  /** A string without the separator is one piece. */
  lemma {:induction false} SplitNoSeparator(s: string, sep: char)
    requires sep !in s
    ensures Split(s, sep) == [s]
  {
    if s != [] {
      SplitNoSeparator(s[1..], sep);
      assert [s[0]] + s[1..] == s;
    }
  }

  /** A separator-free prefix is glued onto the first piece. */
  lemma {:induction false} SplitPrefix(t: string, b: string, sep: char)
    requires sep !in t
    ensures Split(t + b, sep) == [t + Split(b, sep)[0]] + Split(b, sep)[1..]
  {
    if t != [] {
      var s := t + b;
      assert s[0] == t[0] && t[0] != sep;
      assert s[1..] == t[1..] + b;
      SplitPrefix(t[1..], b, sep);
      var rest := Split(s[1..], sep);
      assert rest == [t[1..] + Split(b, sep)[0]] + Split(b, sep)[1..];
      assert Split(s, sep) == [[s[0]] + rest[0]] + rest[1..];
      assert [t[0]] + (t[1..] + Split(b, sep)[0]) == t + Split(b, sep)[0];
    } else {
      assert t + b == b;
      var parts := Split(b, sep);
      assert parts == [parts[0]] + parts[1..];
      assert t + parts[0] == parts[0];
    }
  }

  /** Splitting at the first separator. */
  lemma SplitAtSeparator(a: string, b: string, sep: char)
    requires sep !in a
    ensures Split(a + [sep] + b, sep) == [a] + Split(b, sep)
  {
    assert a + [sep] + b == a + ([sep] + b);
    var c := [sep] + b;
    assert c[1..] == b;
    assert Split(c, sep) == [""] + Split(b, sep);
    SplitPrefix(a, c, sep);
    assert a + "" == a;
  }

  /** The first piece of a split is the text before the first separator
      (all of `s` when there is none). */
  lemma {:induction false} SplitFirstPiece(s: string, sep: char)
    ensures Split(s, sep)[0] <= s
    ensures |Split(s, sep)[0]| == |s| || s[|Split(s, sep)[0]|] == sep
  {
    if s != [] {
      SplitFirstPiece(s[1..], sep);
    }
  }

  /** Joining with `[sep] + t` and splitting on `sep` gives back the pieces,
      every piece after the first prefixed with `t`. */
  lemma {:induction false} SplitJoin(xs: seq<string>, sep: char, t: string)
    requires |xs| >= 1
    requires forall k :: 0 <= k < |xs| ==> sep !in xs[k]
    requires sep !in t
    ensures Split(Join(xs, [sep] + t), sep)
            == [xs[0]] + seq(|xs| - 1, k requires 0 <= k < |xs| - 1 => t + xs[k + 1])
  {
    if |xs| == 1 {
      SplitNoSeparator(xs[0], sep);
    } else {
      var tail := xs[1..];
      var rest := Join(tail, [sep] + t);
      assert Join(xs, [sep] + t) == xs[0] + [sep] + (t + rest);
      SplitAtSeparator(xs[0], t + rest, sep);
      SplitJoin(tail, sep, t);
      var later := seq(|tail| - 1, k requires 0 <= k < |tail| - 1 => t + tail[k + 1]);
      assert Split(rest, sep) == [tail[0]] + later;
      SplitPrefix(t, rest, sep);
      assert Split(t + rest, sep) == [t + tail[0]] + later;
      var all := seq(|xs| - 1, k requires 0 <= k < |xs| - 1 => t + xs[k + 1]);
      assert all == [t + tail[0]] + later by {
        assert all[0] == t + tail[0];
        forall k | 0 <= k < |later|
          ensures all[k + 1] == later[k]
        {
          assert later[k] == t + tail[k + 1];
        }
      }
    }
  }

  /** Splitting on the separator undoes joining with it. */
  lemma SplitJoinInverse(xs: seq<string>, sep: char)
    requires |xs| >= 1
    requires forall k :: 0 <= k < |xs| ==> sep !in xs[k]
    ensures Split(Join(xs, [sep]), sep) == xs
  {
    SplitJoin(xs, sep, "");
    assert [sep] + "" == [sep];
    var parts := Split(Join(xs, [sep]), sep);
    forall k | 0 <= k < |xs|
      ensures parts[k] == xs[k]
    {
      if k > 0 {
        assert parts[k] == "" + xs[k];
      }
    }
  }

  // ---------------------------------------------------------------------------
  // Numbers
  // ---------------------------------------------------------------------------

  predicate IsDigit(c: char) { '0' <= c <= '9' }

  function DigitChar(d: nat): char
    requires d < 10
  {
    ('0' as int + d) as char
  }

  function DigitValue(c: char): nat
    requires IsDigit(c)
  {
    c as int - '0' as int
  }

  /** The value of a string of decimal digits. */
  function DecimalValue(ds: string): nat
    requires forall i :: 0 <= i < |ds| ==> IsDigit(ds[i])
  {
    if ds == [] then 0 else DecimalValue(ds[..|ds| - 1]) * 10 + DigitValue(ds[|ds| - 1])
  }

  predicate IsHexDigit(c: char) {
    IsDigit(c) || 'a' <= c <= 'f' || 'A' <= c <= 'F'
  }

  function HexDigitValue(c: char): nat
    requires IsHexDigit(c)
  {
    if IsDigit(c) then DigitValue(c)
    else if 'a' <= c <= 'f' then c as int - 'a' as int + 10
    else c as int - 'A' as int + 10
  }

  /** The value of a string of hexadecimal digits. */
  function HexValue(ds: string): nat
    requires forall i :: 0 <= i < |ds| ==> IsHexDigit(ds[i])
  {
    if ds == [] then 0 else HexValue(ds[..|ds| - 1]) * 16 + HexDigitValue(ds[|ds| - 1])
  }

  /** The longest prefix of `s` whose characters satisfy `p`. */
  function LongestPrefix(s: string, p: char -> bool): (r: string)
    ensures r <= s
    ensures forall i :: 0 <= i < |r| ==> p(r[i])
    ensures |r| == |s| || !p(s[|r|])
  {
    if s != [] && p(s[0]) then [s[0]] + LongestPrefix(s[1..], p) else ""
  }

  /** The unsigned part of `Number.parseInt`: a `0x`/`0X` prefix selects
      base 16, and the longest run of digits that follows is the value; no
      digits is `NaN` (`None`). */
  function ParseMagnitude(u: string): Option<nat>
  {
    if |u| >= 2 && u[0] == '0' && (u[1] == 'x' || u[1] == 'X') then
      var ds := LongestPrefix(u[2..], IsHexDigit);
      if ds == [] then None else Some(HexValue(ds))
    else
      var ds := LongestPrefix(u, IsDigit);
      if ds == [] then None else Some(DecimalValue(ds))
  }

  /** `Number.parseInt(s)` with no radix: leading white space is skipped, an
      optional sign is read, and the magnitude follows it. */
  function ParseInt(s: string): Option<int>
  {
    var t := TrimStart(s);
    var sign := if t != [] && t[0] == '-' then -1 else 1;
    var u := if t != [] && (t[0] == '-' || t[0] == '+') then t[1..] else t;
    match ParseMagnitude(u)
    case None => None
    case Some(v) => Some(sign * v)
  }

  /** The decimal numeral of a natural number (`n.toString()`). */
  function NatToString(n: nat): (r: string)
    ensures |r| >= 1
    ensures forall i :: 0 <= i < |r| ==> IsDigit(r[i])
  {
    if n < 10 then [DigitChar(n)] else NatToString(n / 10) + [DigitChar(n % 10)]
  }

  /** The decimal numeral of an integer, with a leading `-` when negative. */
  function IntToString(n: int): string {
    if n < 0 then "-" + NatToString(-n) else NatToString(n)
  }

  /** `n.toString().padStart(2, "0")` for a natural number. */
  function Pad2(n: nat): (r: string)
    ensures |r| >= 2
    ensures forall i :: 0 <= i < |r| ==> IsDigit(r[i])
  {
    var d := NatToString(n);
    if |d| < 2 then "0" + d else d
  }

  /** Reading the numeral back gives the number. */
  lemma {:induction false} DecimalValueOfNatToString(n: nat)
    ensures DecimalValue(NatToString(n)) == n
  {
    if n >= 10 {
      var r := NatToString(n);
      assert r[..|r| - 1] == NatToString(n / 10);
      DecimalValueOfNatToString(n / 10);
    }
  }

  /** A numeral is read in full by `parseInt`, whatever follows it, as long
      as that does not start with a digit. */
  lemma ParseIntOfDigits(ds: string, rest: string)
    requires |ds| >= 1
    requires forall i :: 0 <= i < |ds| ==> IsDigit(ds[i])
    requires |ds| >= 2 || ds[0] != '0' || rest == [] || (rest[0] != 'x' && rest[0] != 'X')
    requires rest == [] || !IsDigit(rest[0])
    ensures ParseInt(ds + rest) == Some(DecimalValue(ds))
  {
    MagnitudeOfDigits(ds, rest);
    assert (ds + rest)[0] == ds[0];
    ParseIntUnsigned(ds + rest, DecimalValue(ds));
  }

  /** Text that starts with a digit is read without skipping or a sign. */
  lemma ParseIntUnsigned(s: string, v: nat)
    requires s != [] && IsDigit(s[0])
    requires ParseMagnitude(s) == Some(v)
    ensures ParseInt(s) == Some(v)
  {
    TrimStartOfDigit(s);
  }

  lemma TrimStartOfDigit(s: string)
    requires s != [] && IsDigit(s[0])
    ensures TrimStart(s) == s
  {
    assert s[0..] == s;
  }

  lemma MagnitudeOfDigits(ds: string, rest: string)
    requires |ds| >= 1
    requires forall i :: 0 <= i < |ds| ==> IsDigit(ds[i])
    requires |ds| >= 2 || ds[0] != '0' || rest == [] || (rest[0] != 'x' && rest[0] != 'X')
    requires rest == [] || !IsDigit(rest[0])
    ensures ParseMagnitude(ds + rest) == Some(DecimalValue(ds))
  {
    var s := ds + rest;
    assert !(|s| >= 2 && s[0] == '0' && (s[1] == 'x' || s[1] == 'X')) by {
      assert s[0] == ds[0];
      if |ds| >= 2 {
        assert s[1] == ds[1];
      } else if rest != [] {
        assert s[1] == rest[0];
      }
    }
    LongestPrefixAll(ds, rest, IsDigit);
  }

  lemma {:induction false} LongestPrefixAll(ds: string, rest: string, p: char -> bool)
    requires forall i :: 0 <= i < |ds| ==> p(ds[i])
    requires rest == [] || !p(rest[0])
    ensures LongestPrefix(ds + rest, p) == ds
  {
    if ds != [] {
      assert (ds + rest)[1..] == ds[1..] + rest;
      LongestPrefixAll(ds[1..], rest, p);
    }
  }

  /** What may follow a numeral without being read as part of it. */
  predicate EndsNumeral(rest: string) {
    rest == [] || (!IsDigit(rest[0]) && rest[0] != 'x' && rest[0] != 'X')
  }

  /** `parseInt` reads a natural number's numeral back. */
  lemma ParseNatToString(n: nat, rest: string)
    requires EndsNumeral(rest)
    ensures ParseInt(NatToString(n) + rest) == Some(n)
  {
    ParseIntOfDigits(NatToString(n), rest);
    DecimalValueOfNatToString(n);
  }

  /** `parseInt` reads a two-digit zero-padded numeral back. */
  lemma ParsePad2(n: nat, rest: string)
    requires n < 100
    requires EndsNumeral(rest)
    ensures ParseInt(Pad2(n) + rest) == Some(n)
  {
    if n < 10 {
      var p := ['0', DigitChar(n)];
      assert Pad2(n) == p;
      assert p[..1] == ['0'];
      assert ['0'][..0] == [];
      assert DecimalValue(['0']) == 0;
      assert DigitValue(DigitChar(n)) == n;
      assert DecimalValue(p) == n;
      ParseIntOfDigits(p, rest);
    } else {
      ParseNatToString(n, rest);
    }
  }

  /** A padded number below 100 is two digits whose value is the number. */
  lemma Pad2Value(n: nat)
    requires n < 100
    ensures |Pad2(n)| == 2 && DecimalValue(Pad2(n)) == n
  {
    Pad2Length(n);
    if n < 10 {
      var p := ['0', DigitChar(n)];
      assert Pad2(n) == p;
      assert p[..1] == ['0'];
      assert ['0'][..0] == [];
      assert DecimalValue(['0']) == 0;
      assert DigitValue(DigitChar(n)) == n;
    } else {
      DecimalValueOfNatToString(n);
    }
  }

  /** The numeral of a number below 100, padded, has exactly two digits. */
  lemma Pad2Length(n: nat)
    requires n < 100
    ensures |Pad2(n)| == 2
  {
    if n >= 10 {
      assert NatToString(n) == NatToString(n / 10) + [DigitChar(n % 10)];
    }
  }

  /** ECMAScript `a % b` on integers: the remainder takes the sign of `a`. */
  function JsRem(a: int, b: int): (r: int)
    requires b != 0
    ensures a >= 0 ==> 0 <= r < (if b < 0 then -b else b)
    ensures a < 0 ==> -(if b < 0 then -b else b) < r <= 0
  {
    var m := if b < 0 then -b else b;
    if a >= 0 then a % m else -((-a) % m)
  }
}
