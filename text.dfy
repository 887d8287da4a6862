/**
 * The handful of Python string operations the service relies on, written out
 * over `seq<char>`: substring and prefix tests (`k in s`, `s.startswith(p)`),
 * `find` / `rfind` of one character, `s.split('.')[0]`, `s.strip()`,
 * `s.zfill(w)` and `str(n)` for a non-negative integer.
 */
module Text {

  /** Python `s.startswith(p)`. */
  predicate IsPrefix(p: string, s: string) {
    |p| <= |s| && s[..|p|] == p
  }

  /** Python `key in text`: `key` occurs as a contiguous piece of `text` (the empty key always does). */
  predicate Contains(text: string, key: string)
    decreases |text|
  {
    IsPrefix(key, text) || (|text| > 0 && Contains(text[1..], key))
  }

  /** `key` sits in `text` starting at index `i`. */
  predicate OccursAt(text: string, key: string, i: int) {
    0 <= i <= |text| - |key| && text[i..i + |key|] == key
  }

  /** An occurrence in the tail of `text` is an occurrence in `text`, one place further on. */
  lemma OccursShift(text: string, key: string, i: int)
    requires |text| > 0 && 0 <= i
    ensures OccursAt(text[1..], key, i) <==> OccursAt(text, key, i + 1)
  {
    if 0 <= i <= |text| - 1 - |key| {
      assert text[1..][i..i + |key|] == text[i + 1..i + 1 + |key|];
    }
  }

  /** `Contains` agrees with the positional definition of a substring occurrence. */
  lemma {:induction false} ContainsAt(text: string, key: string)
    ensures Contains(text, key) <==> exists i :: OccursAt(text, key, i)
    decreases |text|
  {
    if IsPrefix(key, text) {
      assert OccursAt(text, key, 0);
    } else if |text| == 0 {
      forall i ensures !OccursAt(text, key, i) {
      }
    } else {
      ContainsAt(text[1..], key);
      if Contains(text[1..], key) {
        var i :| OccursAt(text[1..], key, i);
        OccursShift(text, key, i);
      } else {
        forall i | 0 < i ensures !OccursAt(text, key, i) {
          OccursShift(text, key, i - 1);
        }
      }
    }
  }

  /** Whatever is appended to a string is found in the result. */
  lemma ContainsSuffix(p: string, s: string)
    ensures Contains(p + s, s)
  {
    assert OccursAt(p + s, s, |p|);
    ContainsAt(p + s, s);
  }

  /** Python `s.find(c)`: the first index holding `c`, or -1. */
  function Find(s: string, c: char): (r: int)
    ensures -1 <= r < |s|
    ensures r == -1 <==> c !in s
    ensures 0 <= r ==> s[r] == c && c !in s[..r]
  {
    if |s| == 0 then -1
    else if s[0] == c then 0
    else
      var k := Find(s[1..], c);
      assert s == [s[0]] + s[1..];
      if k == -1 then -1
      else
        assert s[..k + 1] == [s[0]] + s[1..][..k];
        k + 1
  }

  /** Python `s.rfind(c)`: the last index holding `c`, or -1. */
  function RFind(s: string, c: char): (r: int)
    ensures -1 <= r < |s|
    ensures 0 <= r ==> s[r] == c
    ensures forall k :: r < k < |s| ==> s[k] != c
  {
    if |s| == 0 then -1
    else if s[|s| - 1] == c then |s| - 1
    else
      var k := RFind(s[..|s| - 1], c);
      assert forall j :: k < j < |s| - 1 ==> s[..|s| - 1][j] == s[j];
      k
  }

  /** `rfind` answers -1 exactly when the character is absent, and no later index holds it. */
  lemma RFindAbsent(s: string, c: char)
    ensures RFind(s, c) == -1 <==> c !in s
    ensures 0 <= RFind(s, c) ==> c !in s[RFind(s, c) + 1..]
  {
    var r := RFind(s, c);
    if r == -1 {
      forall k | 0 <= k < |s| ensures s[k] != c {
      }
    } else {
      var tail := s[r + 1..];
      forall k | 0 <= k < |tail| ensures tail[k] != c {
        assert tail[k] == s[r + 1 + k];
      }
    }
  }

  /** Python `s.split('.')[0]`: everything before the first '.', or all of `s` when it has none. */
  function BeforeDot(s: string): string
  {
    var k := Find(s, '.');
    if k == -1 then s else s[..k]
  }

  /** The cut is a prefix without '.', followed in `s` by the first '.'; a string without '.' is kept whole. */
  lemma BeforeDotSpec(s: string)
    ensures IsPrefix(BeforeDot(s), s) && '.' !in BeforeDot(s)
    ensures '.' in s ==> |BeforeDot(s)| < |s| && s[|BeforeDot(s)|] == '.'
    ensures '.' !in s ==> BeforeDot(s) == s
  {
  }

  /** Cutting at the first '.' a second time changes nothing. */
  lemma BeforeDotIdempotent(s: string)
    ensures BeforeDot(BeforeDot(s)) == BeforeDot(s)
  {
    BeforeDotSpec(s);
    BeforeDotSpec(BeforeDot(s));
  }

  /** Python `c.isspace()`: the characters `str.strip()` removes by default. */
  predicate IsSpace(c: char) {
    || c == ' ' || c == '\t' || c == '\n' || c == '\r' || c == '\U{000B}' || c == '\U{000C}'
    || ('\U{001C}' <= c <= '\U{001F}') || c == '\U{0085}' || c == '\U{00A0}' || c == '\U{1680}'
    || ('\U{2000}' <= c <= '\U{200A}') || c == '\U{2028}' || c == '\U{2029}'
    || c == '\U{202F}' || c == '\U{205F}' || c == '\U{3000}'
  }

  /** Python `s.lstrip()`. */
  function TrimStart(s: string): (r: string)
    ensures |r| <= |s| && r == s[|s| - |r|..]
    ensures forall k :: 0 <= k < |s| - |r| ==> IsSpace(s[k])
    ensures r == [] || !IsSpace(r[0])
    decreases |s|
  {
    if |s| > 0 && IsSpace(s[0]) then TrimStart(s[1..]) else s
  }

  /** Python `s.rstrip()`. */
  function TrimEnd(s: string): (r: string)
    ensures |r| <= |s| && r == s[..|r|]
    ensures forall k :: |r| <= k < |s| ==> IsSpace(s[k])
    ensures r == [] || !IsSpace(r[|r| - 1])
    decreases |s|
  {
    if |s| > 0 && IsSpace(s[|s| - 1]) then TrimEnd(s[..|s| - 1]) else s
  }

  /** Python `s.strip()`: `s` without its leading and trailing white space. */
  function Strip(s: string): (r: string)
    ensures r == [] <==> forall k :: 0 <= k < |s| ==> IsSpace(s[k])
    ensures r != [] ==> !IsSpace(r[0]) && !IsSpace(r[|r| - 1])
    ensures Contains(s, r)
    ensures exists i :: StrippedAt(s, r, i)
  {
    var t := TrimStart(s);
    var r := TrimEnd(t);
    StripContains(s, t, r);
    StripBlank(s, t, r);
    StripExact(s, t, r);
    r
  }

  /** `r` is `s` at index `i` with only white space before and after it. */
  predicate StrippedAt(s: string, r: string, i: int) {
    && 0 <= i <= |s| - |r|
    && s[i..i + |r|] == r
    && (forall k :: 0 <= k < i ==> IsSpace(s[k]))
    && (forall k :: i + |r| <= k < |s| ==> IsSpace(s[k]))
  }

  /** A white-space-padded prefix of a white-space-padded suffix: what `Strip` keeps is `s` less exactly its leading and trailing white space. */
  lemma StripExact(s: string, t: string, r: string)
    requires |t| <= |s| && t == s[|s| - |t|..] && forall k :: 0 <= k < |s| - |t| ==> IsSpace(s[k])
    requires |r| <= |t| && r == t[..|r|] && forall k :: |r| <= k < |t| ==> IsSpace(t[k])
    ensures StrippedAt(s, r, |s| - |t|)
  {
    var i := |s| - |t|;
    assert s[i..i + |r|] == t[..|r|];
    forall k | i + |r| <= k < |s| ensures IsSpace(s[k]) {
      assert s[k] == t[k - i];
    }
  }

  /** What `Strip` keeps is a piece of `s`. */
  lemma StripContains(s: string, t: string, r: string)
    requires t == TrimStart(s) && r == TrimEnd(t)
    ensures Contains(s, r)
  {
    PrefixOfSuffix(s, t, r);
  }

  /** A prefix of a suffix of `s` is a piece of `s`. */
  lemma PrefixOfSuffix(s: string, t: string, r: string)
    requires |t| <= |s| && t == s[|s| - |t|..]
    requires |r| <= |t| && r == t[..|r|]
    ensures Contains(s, r)
  {
    assert s[|s| - |t|..|s| - |t| + |r|] == r;
    assert OccursAt(s, r, |s| - |t|);
    ContainsAt(s, r);
  }

  /** When `Strip` keeps nothing, everything it cut off was white space. */
  lemma StripBlank(s: string, t: string, r: string)
    requires t == TrimStart(s) && r == TrimEnd(t)
    ensures r == [] ==> forall k :: 0 <= k < |s| ==> IsSpace(s[k])
  {
  }

  /** A run of `n` zero digits. */
  function Zeros(n: nat): (r: string)
    ensures |r| == n && forall k :: 0 <= k < n ==> r[k] == '0'
  {
    if n == 0 then [] else Zeros(n - 1) + ['0']
  }

  /** A leading sign, which Python's `zfill` keeps in front of the padding. */
  predicate HasSign(s: string) {
    |s| > 0 && (s[0] == '+' || s[0] == '-')
  }

  /**
   * Python `s.zfill(width)`: `s` padded on the left with '0' to `width` characters;
   * a leading sign stays in front of the padding; a string already that long is returned as is.
   */
  function ZFill(s: string, width: nat): (r: string)
    ensures |r| == if |s| >= width then |s| else width
    ensures |s| >= width ==> r == s
  {
    if |s| >= width then s
    else if HasSign(s) then [s[0]] + Zeros(width - |s|) + s[1..]
    else Zeros(width - |s|) + s
  }

  /** The added characters are all '0', placed after a leading sign and before everything else. */
  lemma ZFillPadding(s: string, width: nat)
    ensures var r := ZFill(s, width);
      && (!HasSign(s) ==> IsPrefix(Zeros(|r| - |s|), r) && r[|r| - |s|..] == s)
      && (HasSign(s) ==> r[0] == s[0] && r[1..][..|r| - |s|] == Zeros(|r| - |s|) && r[|r| - |s| + 1..] == s[1..])
  {
  }

  predicate IsDigit(c: char) {
    '0' <= c <= '9'
  }

  /** The character of a decimal digit. */
  function DigitChar(d: nat): (c: char)
    requires d < 10
    ensures IsDigit(c) && DigitValue(c) == d
  {
    ('0' as int + d) as char
  }

  /** The value of a decimal digit character. */
  function DigitValue(c: char): int {
    c as int - '0' as int
  }

  /** Python `str(n)` for a non-negative integer: its decimal digits, most significant first, no leading zero. */
  function Decimal(n: nat): (r: string)
    ensures |r| >= 1
    ensures n > 0 ==> r[0] != '0'
    decreases n
  {
    if n < 10 then [DigitChar(n)] else Decimal(n / 10) + [DigitChar(n % 10)]
  }

  /** `str(n)` is made of decimal digits only. */
  lemma {:induction false} DecimalDigits(n: nat)
    ensures forall k :: 0 <= k < |Decimal(n)| ==> IsDigit(Decimal(n)[k])
    decreases n
  {
    if n >= 10 {
      DecimalDigits(n / 10);
    }
  }

  /** Python `int(s)` for a string of decimal digits (leading zeros allowed). */
  function DecimalValue(s: string): int
  {
    if s == [] then 0 else DecimalValue(s[..|s| - 1]) * 10 + DigitValue(s[|s| - 1])
  }

  /** Reading back the decimal form of `n` gives `n`. */
  lemma {:induction false} DecimalRoundTrip(n: nat)
    ensures DecimalValue(Decimal(n)) == n
    decreases n
  {
    if n >= 10 {
      var d := Decimal(n);
      assert d[..|d| - 1] == Decimal(n / 10);
      DecimalRoundTrip(n / 10);
    }
  }

  /** Leading zeros do not change the value of a digit string. */
  lemma {:induction false} LeadingZerosValue(k: nat, s: string)
    ensures DecimalValue(Zeros(k) + s) == DecimalValue(s)
    decreases |s|, k
  {
    if s == [] {
      assert Zeros(k) + s == Zeros(k);
      if k > 0 {
        assert Zeros(k)[..k - 1] == Zeros(k - 1);
        LeadingZerosValue(k - 1, []);
        assert Zeros(k - 1) + [] == Zeros(k - 1);
      }
    } else {
      var t := Zeros(k) + s;
      assert t[..|t| - 1] == Zeros(k) + s[..|s| - 1];
      LeadingZerosValue(k, s[..|s| - 1]);
    }
  }

  /** Ten to the power `k`. */
  function Pow10(k: nat): (p: nat)
    ensures p >= 1
  {
    if k == 0 then 1 else 10 * Pow10(k - 1)
  }

  /** `str(n)` fits in `w >= 1` characters exactly when `n < 10^w`. */
  lemma {:induction false} DecimalWidth(n: nat, w: nat)
    requires w >= 1
    ensures |Decimal(n)| <= w <==> n < Pow10(w)
    decreases n
  {
    if n < 10 {
      assert Pow10(w) == 10 * Pow10(w - 1);
    } else if w == 1 {
      assert Pow10(1) == 10;
    } else {
      DecimalWidth(n / 10, w - 1);
      var q, p := n / 10, Pow10(w - 1);
      assert n == 10 * q + n % 10;
      assert Pow10(w) == 10 * p;
      if q < p {
        assert q <= p - 1;
        assert 10 * q <= 10 * p - 10;
      } else {
        assert 10 * q >= 10 * p;
      }
    }
  }
}
