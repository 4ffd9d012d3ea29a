/** Decimal numerals, code-point order on strings and Python's `str.split`/`str.strip`. */
module Text {

  // ---- decimal numerals -------------------------------------------------------

  predicate IsDigit(c: char) {
    '0' <= c <= '9'
  }

  predicate AllDigits(s: string) {
    forall i :: 0 <= i < |s| ==> IsDigit(s[i])
  }

  function DigitChar(d: nat): char
    requires d < 10
  {
    "0123456789"[d]
  }

  /** `str(n)` for a non-negative integer. */
  function Decimal(n: nat): string {
    if n < 10 then [DigitChar(n)] else Decimal(n / 10) + [DigitChar(n % 10)]
  }

  /** `int(s)` for a string of ASCII digits. */
  function NumeralValue(s: string): nat
    requires AllDigits(s)
  {
    if s == [] then 0
    else NumeralValue(s[..|s| - 1]) * 10 + (s[|s| - 1] as int - '0' as int)
  }

  lemma DigitValue(d: nat)
    requires d < 10
    ensures IsDigit(DigitChar(d)) && DigitChar(d) as int - '0' as int == d
  {
  }

  lemma {:induction false} DecimalValue(n: nat)
    ensures Decimal(n) != []
    ensures AllDigits(Decimal(n)) && NumeralValue(Decimal(n)) == n
  {
    if n < 10 {
      DigitValue(n);
      assert [DigitChar(n)][..0] == [];
    } else {
      DecimalValue(n / 10);
      DigitValue(n % 10);
      hide DigitChar;
      assert Decimal(n)[..|Decimal(n)| - 1] == Decimal(n / 10);
    }
  }

  lemma DecimalInjective(m: nat, n: nat)
    requires Decimal(m) == Decimal(n)
    ensures m == n
  {
    DecimalValue(m);
    DecimalValue(n);
  }

  lemma {:induction false} DecimalWidthMonotone(m: nat, n: nat)
    requires m <= n
    ensures 1 <= |Decimal(m)| <= |Decimal(n)|
  {
    if n >= 10 {
      if m >= 10 {
        DecimalWidthMonotone(m / 10, n / 10);
      }
    }
  }

  // ---- order ------------------------------------------------------------------

  /** Python's `<=` on strings: lexicographic by code point. */
  predicate StringLe(a: string, b: string) {
    a == [] || (b != [] && (a[0] < b[0] || (a[0] == b[0] && StringLe(a[1..], b[1..]))))
  }

  /** At the first difference the smaller code point decides; a prefix comes first. */
  lemma {:induction false} StringLeMeaning(a: string, b: string)
    ensures StringLe(a, b) <==> a <= b || exists k :: 0 <= k < |a| && k < |b| && a[..k] == b[..k] && a[k] < b[k]
  {
    if a != [] && b != [] && a[0] == b[0] {
      StringLeMeaning(a[1..], b[1..]);
      assert a == [a[0]] + a[1..] && b == [b[0]] + b[1..];
      if k :| 0 <= k < |a| && k < |b| && a[..k] == b[..k] && a[k] < b[k] {
        assert a[1..][..k - 1] == a[..k][1..] && b[1..][..k - 1] == b[..k][1..];
      }
      if k :| 0 <= k < |a| - 1 && k < |b| - 1 && a[1..][..k] == b[1..][..k] && a[1..][k] < b[1..][k] {
        assert a[..k + 1] == [a[0]] + a[1..][..k] && b[..k + 1] == [b[0]] + b[1..][..k];
        assert a[k + 1] < b[k + 1];
      }
    } else if a != [] && b != [] && a[0] < b[0] {
      assert a[..0] == b[..0];
    }
  }

  lemma {:induction false} StringLeTotal(a: string, b: string)
    ensures StringLe(a, b) || StringLe(b, a)
  {
    if a != [] && b != [] {
      StringLeTotal(a[1..], b[1..]);
    }
  }

  lemma {:induction false} StringLeAntisymmetric(a: string, b: string)
    requires StringLe(a, b) && StringLe(b, a)
    ensures a == b
  {
    if a != [] && b != [] {
      StringLeAntisymmetric(a[1..], b[1..]);
      assert a == [a[0]] + a[1..] && b == [b[0]] + b[1..];
    }
  }

  lemma {:induction false} StringLeTransitive(a: string, b: string, c: string)
    requires StringLe(a, b) && StringLe(b, c)
    ensures StringLe(a, c)
  {
    if a != [] && b != [] && c != [] && a[0] == b[0] == c[0] {
      StringLeTransitive(a[1..], b[1..], c[1..]);
    }
  }

  lemma Assoc(a: string, b: string, c: string)
    ensures (a + b) + c == a + (b + c)
  {
  }

  // ---- splitting, joining, stripping --------------------------------------------

  /** Index of the first occurrence of `c`, or |s|. */
  function IndexOf(s: string, c: char): nat
    ensures IndexOf(s, c) <= |s|
  {
    if s == [] || s[0] == c then 0 else 1 + IndexOf(s[1..], c)
  }

  lemma {:induction false} IndexOfMeaning(s: string, c: char)
    ensures IndexOf(s, c) < |s| ==> s[IndexOf(s, c)] == c
    ensures c !in s[..IndexOf(s, c)]
  {
    if s != [] && s[0] != c {
      IndexOfMeaning(s[1..], c);
      var k := IndexOf(s, c);
      assert s[..k] == [s[0]] + s[1..][..k - 1];
    }
  }

  /** `s.split(c)`: always at least one part. */
  function Split(s: string, c: char): seq<string>
    decreases |s|
  {
    var k := IndexOf(s, c);
    if k == |s| then [s] else [s[..k]] + Split(s[k + 1..], c)
  }

  /** `c.join(parts)`. */
  function Join(parts: seq<string>, c: char): string {
    if parts == [] then ""
    else if |parts| == 1 then parts[0]
    else parts[0] + [c] + Join(parts[1..], c)
  }

  lemma {:induction false} SplitParts(s: string, c: char)
    ensures Split(s, c) != []
    ensures forall i :: 0 <= i < |Split(s, c)| ==> c !in Split(s, c)[i]
    decreases |s|
  {
    var k := IndexOf(s, c);
    IndexOfMeaning(s, c);
    if k == |s| {
      assert s[..k] == s;
    } else {
      SplitParts(s[k + 1..], c);
    }
  }

  lemma {:induction false} IndexAfterPart(part: string, c: char, rest: string)
    requires c !in part
    ensures IndexOf(part + [c] + rest, c) == |part|
    ensures IndexOf(part, c) == |part|
  {
    if part != [] {
      assert (part + [c] + rest)[1..] == part[1..] + [c] + rest;
      IndexAfterPart(part[1..], c, rest);
    }
  }

  lemma {:induction false} SplitJoin(parts: seq<string>, c: char)
    requires parts != [] && forall i :: 0 <= i < |parts| ==> c !in parts[i]
    ensures Split(Join(parts, c), c) == parts
  {
    if |parts| == 1 {
      IndexAfterPart(parts[0], c, "");
    } else {
      var rest := Join(parts[1..], c);
      var s := parts[0] + [c] + rest;
      IndexAfterPart(parts[0], c, rest);
      assert s[..|parts[0]|] == parts[0] && s[|parts[0]| + 1..] == rest;
      SplitJoin(parts[1..], c);
    }
  }

  /** What `str.strip` removes. */
  predicate IsSpace(c: char) {
    || '\U{9}' <= c <= '\U{D}' || '\U{1C}' <= c <= ' '
    || c == '\U{85}' || c == '\U{A0}' || c == '\U{1680}'
    || '\U{2000}' <= c <= '\U{200A}' || c == '\U{2028}' || c == '\U{2029}'
    || c == '\U{202F}' || c == '\U{205F}' || c == '\U{3000}'
  }

  function StripLeft(s: string): string {
    if s != [] && IsSpace(s[0]) then StripLeft(s[1..]) else s
  }

  function StripRight(s: string): string {
    if s != [] && IsSpace(s[|s| - 1]) then StripRight(s[..|s| - 1]) else s
  }

  /** `s.strip()`. */
  function Strip(s: string): string {
    StripRight(StripLeft(s))
  }

  /** Neither end is white space. */
  predicate Stripped(s: string) {
    s == [] || (!IsSpace(s[0]) && !IsSpace(s[|s| - 1]))
  }

  lemma {:induction false} StripLeftStarts(s: string)
    ensures StripLeft(s) == [] || !IsSpace(StripLeft(s)[0])
    ensures forall c :: c in StripLeft(s) ==> c in s
  {
    if s != [] && IsSpace(s[0]) {
      StripLeftStarts(s[1..]);
    }
  }

  lemma {:induction false} StripRightEnds(s: string)
    ensures StripRight(s) == [] || (!IsSpace(StripRight(s)[|StripRight(s)| - 1]) && StripRight(s)[0] == s[0])
    ensures forall c :: c in StripRight(s) ==> c in s
  {
    if s != [] && IsSpace(s[|s| - 1]) {
      StripRightEnds(s[..|s| - 1]);
    }
  }

  predicate AllSpace(s: string) {
    forall i :: 0 <= i < |s| ==> IsSpace(s[i])
  }

  /** `t` is what is left of `s` once the white space at both ends is gone. */
  ghost predicate Trimmed(s: string, t: string) {
    Stripped(t) && exists i, j :: 0 <= i <= j <= |s| && t == s[i..j] && AllSpace(s[..i]) && AllSpace(s[j..])
  }

  lemma {:induction false} StripLeftSkips(s: string, i: nat)
    requires i <= |s| && AllSpace(s[..i]) && (i == |s| || !IsSpace(s[i]))
    ensures StripLeft(s) == s[i..]
  {
    if i > 0 {
      assert IsSpace(s[..i][0]);
      assert s[..i][1..] == s[1..][..i - 1];
      StripLeftSkips(s[1..], i - 1);
    }
  }

  lemma {:induction false} StripRightSkips(s: string, j: nat)
    requires j <= |s| && AllSpace(s[j..]) && (j == 0 || !IsSpace(s[j - 1]))
    ensures StripRight(s) == s[..j]
  {
    if j < |s| {
      assert IsSpace(s[j..][|s| - 1 - j]);
      assert s[j..][..|s| - 1 - j] == s[..|s| - 1][j..];
      StripRightSkips(s[..|s| - 1], j);
    }
  }

  lemma SpacesBefore(s: string) returns (i: nat)
    ensures i <= |s| && AllSpace(s[..i]) && (i == |s| || !IsSpace(s[i]))
  {
    i := 0;
    while i < |s| && IsSpace(s[i])
      invariant i <= |s| && AllSpace(s[..i])
    {
      i := i + 1;
    }
  }

  lemma SpacesAfter(s: string) returns (j: nat)
    ensures j <= |s| && AllSpace(s[j..]) && (j == 0 || !IsSpace(s[j - 1]))
  {
    j := |s|;
    while j > 0 && IsSpace(s[j - 1])
      invariant j <= |s| && AllSpace(s[j..])
    {
      j := j - 1;
    }
  }

  /** `s.strip()` is the one string that `s` trims to. */
  lemma StripIsTrimmed(s: string, t: string)
    ensures Strip(s) == t <==> Trimmed(s, t)
  {
    var i := SpacesBefore(s);
    StripLeftSkips(s, i);
    var u := s[i..];
    var j := SpacesAfter(u);
    StripRightSkips(u, j);
    assert Strip(s) == s[i..i + j] && s[i + j..] == u[j..];
    StripMeaning(s);
    hide StripLeft, StripRight, IsSpace, Strip;
    assert Trimmed(s, Strip(s));
    if Trimmed(s, t) {
      var a, b :| 0 <= a <= b <= |s| && t == s[a..b] && AllSpace(s[..a]) && AllSpace(s[b..]);
      if t == "" {
        assert AllSpace(s) by { assert forall k :: 0 <= k < |s| ==> s[k] == if k < a then s[..a][k] else s[b..][k - b]; }
        assert i == |s|;
      } else {
        TrimmedAt(s, a, b);
      }
    }
  }

  lemma TrimmedAt(s: string, a: nat, b: nat)
    requires a < b <= |s| && Stripped(s[a..b]) && AllSpace(s[..a]) && AllSpace(s[b..])
    ensures Strip(s) == s[a..b]
  {
    assert s[a..b][0] == s[a] && s[a..b][b - a - 1] == s[b - 1];
    StripLeftSkips(s, a);
    assert s[a..][b - a..] == s[b..];
    StripRightSkips(s[a..], b - a);
  }

  lemma {:induction false} JoinSplit(s: string, c: char)
    ensures Join(Split(s, c), c) == s
    decreases |s|
  {
    var k := IndexOf(s, c);
    if k < |s| {
      IndexOfMeaning(s, c);
      SplitParts(s[k + 1..], c);
      JoinSplit(s[k + 1..], c);
      assert s == s[..k] + [c] + s[k + 1..];
    }
  }

  lemma StripMeaning(s: string)
    ensures Stripped(Strip(s))
    ensures forall c :: c in Strip(s) ==> c in s
    ensures Stripped(s) ==> Strip(s) == s
  {
    StripLeftStarts(s);
    StripRightEnds(StripLeft(s));
  }
}
