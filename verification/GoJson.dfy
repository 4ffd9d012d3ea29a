/**
 JSON as Go's encoder pretty-prints it, sizes of the output, and a reader for it. One char of a rendering
 stands for one output byte. JSON texts are those of RFC 8259, strings those of its section 7; numbers are
 non-negative integers.
 */
module GoJson {
  import opened Base
  import opened Text

  // ---- strings --------------------------------------------------------------------------

  /** A decoded piece of a Go string: a code point, or one byte that is not valid UTF-8. */
  datatype Glyph = Rune(code: CodePoint) | BadByte

  type CodePoint = c: nat | c < 0xD800 || 0xE000 <= c < 0x110000
  type GoString = seq<Glyph>

  function Byte(b: nat): char
    requires b < 256
  {
    b as char
  }

  function Utf8(c: CodePoint): string {
    if c < 0x80 then [Byte(c)]
    else if c < 0x800 then [Byte(0xC0 + c / 0x40), Byte(0x80 + c % 0x40)]
    else if c < 0x10000 then [Byte(0xE0 + c / 0x1000), Byte(0x80 + c / 0x40 % 0x40), Byte(0x80 + c % 0x40)]
    else [Byte(0xF0 + c / 0x40000), Byte(0x80 + c / 0x1000 % 0x40), Byte(0x80 + c / 0x40 % 0x40), Byte(0x80 + c % 0x40)]
  }

  function HexDigit(d: nat): char
    requires d < 16
  {
    "0123456789abcdef"[d]
  }

  /** The two-character escapes. */
  function ShortEscape(c: CodePoint): Option<char> {
    if c == '"' as int then Some('"')
    else if c == '\\' as int then Some('\\')
    else if c == 8 then Some('b')
    else if c == 12 then Some('f')
    else if c == 10 then Some('n')
    else if c == 13 then Some('r')
    else if c == 9 then Some('t')
    else None
  }

  /** Control characters, the HTML-significant characters and the two line separators. */
  predicate NeedsUnicodeEscape(c: CodePoint) {
    c < 0x20 || c == '<' as int || c == '>' as int || c == '&' as int || c == 0x2028 || c == 0x2029
  }

  function UnicodeEscape(c: CodePoint): string
    requires c < 0x10000
  {
    ['\\', 'u', HexDigit(c / 0x1000), HexDigit(c / 0x100 % 16), HexDigit(c / 0x10 % 16), HexDigit(c % 16)]
  }

  function Escape(g: Glyph): string {
    match g
    case BadByte => UnicodeEscape(0xFFFD)
    case Rune(c) =>
      if ShortEscape(c).Some? then ['\\', ShortEscape(c).value]
      else if NeedsUnicodeEscape(c) then UnicodeEscape(c)
      else Utf8(c)
  }

  function EscapeAll(t: GoString): string {
    if t == [] then "" else EscapeAll(t[..|t| - 1]) + Escape(t[|t| - 1])
  }

  function Quote(t: GoString): string {
    "\"" + EscapeAll(t) + "\""
  }

  lemma {:induction false} EscapeAllGrows(t: GoString, j: nat, k: nat)
    requires j <= k <= |t|
    ensures |EscapeAll(t[..j])| <= |EscapeAll(t[..k])|
    decreases k
  {
    if j < k {
      EscapeAllGrows(t, j, k - 1);
      assert t[..k][..k - 1] == t[..k - 1];
    }
  }

  /** `[]rune(content)` and back: an invalid byte becomes U+FFFD. */
  function ToRunes(content: GoString): (runes: GoString)
    ensures |runes| == |content|
  {
    seq(|content|, i requires 0 <= i < |content| => if content[i].BadByte? then Rune(0xFFFD) else content[i])
  }

  function BadBytes(t: GoString): nat {
    if t == [] then 0 else BadBytes(t[..|t| - 1]) + (if t[|t| - 1].BadByte? then 1 else 0)
  }

  lemma RuneSize(g: Glyph)
    ensures |Escape(ToRunes([g])[0])| == |Escape(g)| - (if g.BadByte? then 3 else 0)
  {
  }

  /** An invalid byte costs six bytes escaped but three once it has become U+FFFD. */
  lemma {:induction false} RunesSize(t: GoString)
    ensures |EscapeAll(ToRunes(t))| == |EscapeAll(t)| - 3 * BadBytes(t)
  {
    hide Escape;
    if t != [] {
      RunesSize(t[..|t| - 1]);
      RuneSize(t[|t| - 1]);
      assert ToRunes(t)[..|t| - 1] == ToRunes(t[..|t| - 1]);
    }
  }

  function Ascii(s: string): GoString {
    seq(|s|, i requires 0 <= i < |s| => Rune(if s[i] as int < 128 then s[i] as int else 0xFFFD))
  }

  // ---- values -------------------------------------------------------------------------------------

  datatype Value =
    | Null
    | Bool(b: bool)
    | Num(n: nat)
    | Str(t: GoString)
    | Arr(items: seq<Value>)
    | Obj(members: seq<Member>)

  datatype Member = Member(key: GoString, value: Value)

  function Spaces(n: nat): string {
    if n == 0 then "" else " " + Spaces(n - 1)
  }

  /** A line break and the indentation after it. */
  function Line(depth: nat): string {
    "\n" + Spaces(2 * depth)
  }

  /** `json.MarshalIndent(v, "", "  ")` for a value at the given depth. */
  function Pretty(v: Value, depth: nat): string
    decreases v
  {
    match v
    case Null => "null"
    case Bool(b) => if b then "true" else "false"
    case Num(n) => Decimal(n)
    case Str(t) => Quote(t)
    case Arr(items) => if items == [] then "[]" else "[" + Line(depth + 1) + Items(items, depth + 1) + Line(depth) + "]"
    case Obj(ms) => if ms == [] then "{}" else "{" + Line(depth + 1) + Members(ms, depth + 1) + Line(depth) + "}"
  }

  function Items(items: seq<Value>, depth: nat): string
    requires items != []
    decreases items
  {
    if |items| == 1 then Pretty(items[0], depth)
    else Pretty(items[0], depth) + ("," + Line(depth) + Items(items[1..], depth))
  }

  function Members(ms: seq<Member>, depth: nat): string
    requires ms != []
    decreases ms
  {
    if |ms| == 1 then MemberText(ms[0], depth)
    else MemberText(ms[0], depth) + ("," + Line(depth) + Members(ms[1..], depth))
  }

  function MemberText(m: Member, depth: nat): string
    decreases m, 1
  {
    Quote(m.key) + ": " + Pretty(m.value, depth)
  }

  // ---- sizes ----------------------------------------------------------------------------------------

  lemma {:induction false} ItemsLast(items: seq<Value>, x: Value, depth: nat)
    requires items != []
    ensures |Items(items + [x], depth)| == |Items(items, depth)| + |"," + Line(depth)| + |Pretty(x, depth)|
    decreases |items|
  {
    hide Pretty, Line;
    var more := items + [x];
    assert more[0] == items[0];
    if |items| == 1 {
      assert more[1..] == [x];
    } else {
      assert more[1..] == items[1..] + [x];
      ItemsLast(items[1..], x, depth);
    }
  }

  lemma {:induction false} ItemsGrow(items: seq<Value>, m: nat, n: nat, depth: nat)
    requires 1 <= m <= n <= |items|
    ensures |Items(items[..m], depth)| <= |Items(items[..n], depth)|
    decreases n
  {
    hide Items;
    if m < n {
      ItemsGrow(items, m, n - 1, depth);
      assert items[..n] == items[..n - 1] + [items[n - 1]];
      ItemsLast(items[..n - 1], items[n - 1], depth);
    }
  }

  /** More items never make an array's text shorter. */
  lemma ArrGrows(items: seq<Value>, m: nat, n: nat, depth: nat)
    requires m <= n <= |items|
    ensures |Pretty(Arr(items[..m]), depth)| <= |Pretty(Arr(items[..n]), depth)|
  {
    hide Items;
    if m >= 1 {
      ItemsGrow(items, m, n, depth + 1);
    }
  }

  lemma MembersSize(ms: seq<Member>, depth: nat)
    requires ms != []
    ensures |Members(ms, depth)| == |Quote(ms[0].key)| + 2 + |Pretty(ms[0].value, depth)|
                                    + if |ms| == 1 then 0 else 1 + |Line(depth)| + |Members(ms[1..], depth)|
  {
    hide Pretty, Line, Quote;
  }

  lemma {:induction false} MembersSwap(ms: seq<Member>, i: nat, v: Value, depth: nat)
    requires i < |ms|
    ensures |Members(ms[i := ms[i].(value := v)], depth)| + |Pretty(ms[i].value, depth)|
            == |Members(ms, depth)| + |Pretty(v, depth)|
    decreases |ms|
  {
    var swapped := ms[i := ms[i].(value := v)];
    MembersSize(ms, depth);
    MembersSize(swapped, depth);
    hide Pretty, Line, Quote, Members;
    if i == 0 {
      assert swapped[1..] == ms[1..];
    } else {
      assert swapped[1..] == ms[1..][i - 1 := ms[i].(value := v)];
      MembersSwap(ms[1..], i - 1, v, depth);
    }
  }

  /** Replacing one member's value changes an object's text by the difference of the two. */
  lemma ObjSwap(ms: seq<Member>, i: nat, v: Value, depth: nat)
    requires i < |ms|
    ensures |Pretty(Obj(ms[i := ms[i].(value := v)]), depth)| + |Pretty(ms[i].value, depth + 1)|
            == |Pretty(Obj(ms), depth)| + |Pretty(v, depth + 1)|
  {
    hide Members, Line;
    MembersSwap(ms, i, v, depth + 1);
  }

  /** Bytes a piece takes: two for the short escapes, six for other escapes and invalid bytes, else its UTF-8 length. */
  lemma EscapeSize(g: Glyph)
    ensures |Escape(g)| == match g
                           case BadByte => 6
                           case Rune(c) =>
                             if c in {8, 9, 10, 12, 13, 0x22, 0x5C} then 2
                             else if c < 0x20 || c in {0x26, 0x3C, 0x3E, 0x2028, 0x2029} then 6
                             else if c < 0x80 then 1 else if c < 0x800 then 2 else if c < 0x10000 then 3 else 4
  {
  }

  /** No printed string holds a control character or one that HTML gives a meaning. */
  lemma {:induction false} EscapeIsSafe(t: GoString)
    ensures forall c :: c in EscapeAll(t) ==> c >= ' ' && c != '<' && c != '>' && c != '&'
  {
    if t != [] {
      EscapeIsSafe(t[..|t| - 1]);
      GlyphIsSafe(t[|t| - 1]);
      hide Escape;
    }
  }

  lemma GlyphIsSafe(g: Glyph)
    ensures forall c :: c in Escape(g) ==> c >= ' ' && c != '<' && c != '>' && c != '&'
  {
    hide HexDigit;
    forall d: nat | d < 16 ensures '0' <= HexDigit(d) <= '9' || 'a' <= HexDigit(d) <= 'f' {
      HexDigitReads(d);
    }
  }

  // ---- layout -------------------------------------------------------------------------------------------

  /** Every line but the first two spaces further in. */
  function Indented(s: string): string {
    if s == "" then "" else IndentedChar(s[0]) + Indented(s[1..])
  }

  function IndentedChar(c: char): string {
    if c == '\n' then "\n  " else [c]
  }

  lemma IndentedFront(s: string, rest: string)
    requires s != ""
    ensures Indented(s + rest) == IndentedChar(s[0]) + Indented(s[1..] + rest)
  {
    assert (s + rest)[0] == s[0] && (s + rest)[1..] == s[1..] + rest;
  }

  lemma {:induction false} IndentedConcat(a: string, b: string)
    ensures Indented(a + b) == Indented(a) + Indented(b)
  {
    if a == "" {
      assert a + b == b;
    } else {
      IndentedConcat(a[1..], b);
      IndentedFront(a, b);
      IndentedFront(a, "");
      assert a + "" == a && a[1..] + "" == a[1..];
      hide Indented, IndentedChar;
      Assoc(IndentedChar(a[0]), Indented(a[1..]), Indented(b));
    }
  }

  lemma {:induction false} IndentedPlain(s: string)
    requires '\n' !in s
    ensures Indented(s) == s
  {
    if s != "" {
      IndentedPlain(s[1..]);
    }
  }

  lemma {:induction false} SpacesPlain(n: nat)
    ensures '\n' !in Spaces(n)
  {
    if n > 0 {
      SpacesPlain(n - 1);
    }
  }

  lemma {:induction false} MoreSpaces(n: nat)
    ensures Spaces(n + 2) == "  " + Spaces(n)
  {
  }

  lemma IndentedLine(depth: nat)
    ensures Indented(Line(depth)) == Line(depth + 1)
  {
    SpacesPlain(2 * depth);
    IndentedPlain(Spaces(2 * depth));
    MoreSpaces(2 * depth);
    assert Line(depth)[1..] == Spaces(2 * depth);
  }

  lemma IndentedBreak(depth: nat)
    ensures Indented("," + Line(depth)) == "," + Line(depth + 1)
  {
    IndentedLine(depth);
    hide Line;
    assert ("," + Line(depth))[1..] == Line(depth);
  }

  lemma QuotePlain(t: GoString)
    ensures Indented(Quote(t)) == Quote(t)
  {
    EscapeIsSafe(t);
    hide EscapeAll;
    IndentedPlain(Quote(t));
  }

  lemma AtomPlain(v: Value, depth: nat)
    requires v.Null? || v.Bool? || v.Num? || v == Arr([]) || v == Obj([])
    ensures Pretty(v, depth + 1) == Pretty(v, depth) == Indented(Pretty(v, depth))
  {
    if v.Num? {
      DecimalValue(v.n);
    }
    hide Decimal, NumeralValue;
    assert '\n' !in Pretty(v, depth);
    IndentedPlain(Pretty(v, depth));
  }

  /** A value one level further in is the same text, each line two spaces further in. */
  lemma {:induction false} DeeperIsIndented(v: Value, depth: nat)
    ensures Pretty(v, depth + 1) == Indented(Pretty(v, depth))
    decreases v, 1
  {
    match v
    case Str(t) => QuotePlain(t);
    case Arr(items) =>
      if items == [] {
        AtomPlain(v, depth);
      } else {
        ItemsIndented(items, depth + 1);
        WrapIndented("[", Items(items, depth + 1), "]", depth);
      }
    case Obj(ms) =>
      if ms == [] {
        AtomPlain(v, depth);
      } else {
        MembersIndented(ms, depth + 1);
        WrapIndented("{", Members(ms, depth + 1), "}", depth);
      }
    case _ => AtomPlain(v, depth);
  }

  lemma WrapIndented(opening: string, inner: string, closing: string, depth: nat)
    requires '\n' !in opening && '\n' !in closing
    ensures Indented(opening + Line(depth + 1) + inner + Line(depth) + closing)
            == opening + Line(depth + 2) + Indented(inner) + Line(depth + 1) + closing
  {
    IndentedLine(depth + 1);
    IndentedLine(depth);
    IndentedPlain(opening);
    IndentedPlain(closing);
    hide Line, Indented;
    IndentedConcat(opening, Line(depth + 1));
    IndentedConcat(opening + Line(depth + 1), inner);
    IndentedConcat(opening + Line(depth + 1) + inner, Line(depth));
    IndentedConcat(opening + Line(depth + 1) + inner + Line(depth), closing);
  }

  lemma {:induction false} ItemsIndented(items: seq<Value>, depth: nat)
    requires items != []
    ensures Items(items, depth + 1) == Indented(Items(items, depth))
    decreases items, 0
  {
    hide Pretty, Line, Indented;
    DeeperIsIndented(items[0], depth);
    if |items| > 1 {
      ItemsIndented(items[1..], depth);
      IndentedBreak(depth);
      IndentedConcat(Pretty(items[0], depth), "," + Line(depth) + Items(items[1..], depth));
      IndentedConcat("," + Line(depth), Items(items[1..], depth));
    }
  }

  lemma MemberIndented(m: Member, depth: nat)
    requires Pretty(m.value, depth + 1) == Indented(Pretty(m.value, depth))
    ensures MemberText(m, depth + 1) == Indented(MemberText(m, depth))
  {
    QuotePlain(m.key);
    IndentedPlain(": ");
    hide Quote, Pretty, Indented;
    IndentedConcat(Quote(m.key), ": ");
    IndentedConcat(Quote(m.key) + ": ", Pretty(m.value, depth));
  }

  lemma {:induction false} MembersIndented(ms: seq<Member>, depth: nat)
    requires ms != []
    ensures Members(ms, depth + 1) == Indented(Members(ms, depth))
    decreases ms, 0
  {
    hide Pretty, Line, Indented, MemberText;
    DeeperIsIndented(ms[0].value, depth);
    MemberIndented(ms[0], depth);
    if |ms| > 1 {
      MembersIndented(ms[1..], depth);
      IndentedBreak(depth);
      IndentedConcat(MemberText(ms[0], depth), "," + Line(depth) + Members(ms[1..], depth));
      IndentedConcat("," + Line(depth), Members(ms[1..], depth));
    }
  }

  lemma ShortLines()
    ensures Line(0) == "\n" && Line(1) == "\n  "
  {
    assert Spaces(0) == "" && Spaces(2) == " " + Spaces(1) == "  ";
  }

  /** An object is laid out with a member to a line. */
  lemma MembersLaidOut(k: GoString, v: Value, l: GoString, w: Value)
    ensures Pretty(Obj([Member(k, v), Member(l, w)]), 0)
            == "{" + "\n  " + (Quote(k) + ": " + Pretty(v, 1) + ("," + "\n  " + (Quote(l) + ": " + Pretty(w, 1)))) + "\n" + "}"
  {
    hide Line, Members, MemberText;
    ShortLines();
    var a, b := Member(k, v), Member(l, w);
    TwoMembers(a, b, 1);
    assert Pretty(Obj([a, b]), 0) == "{" + Line(1) + Members([a, b], 1) + Line(0) + "}";
    hide Pretty, Quote;
    MemberIs(a, 1);
    MemberIs(b, 1);
  }

  lemma MemberIs(m: Member, depth: nat)
    ensures MemberText(m, depth) == Quote(m.key) + ": " + Pretty(m.value, depth)
  {
  }

  lemma TwoMembers(a: Member, b: Member, depth: nat)
    ensures Members([a, b], depth) == MemberText(a, depth) + ("," + Line(depth) + MemberText(b, depth))
  {
    hide MemberText, Line;
    assert [a, b][1..] == [b] && Members([b], depth) == MemberText(b, depth);
  }

  /** And an array with an item to a line. */
  lemma ItemsLaidOut(v: Value, w: Value)
    ensures Pretty(Arr([v, w]), 0) == "[" + "\n  " + (Pretty(v, 1) + ("," + "\n  " + Pretty(w, 1))) + "\n" + "]"
  {
    ShortLines();
    assert [v, w][1..] == [w];
    assert Pretty(Arr([v, w]), 0) == "[" + Line(1) + Items([v, w], 1) + Line(0) + "]";
    hide Pretty, Line;
    assert Items([w], 1) == Pretty(w, 1);
    assert Items([v, w], 1) == Pretty(v, 1) + ("," + Line(1) + Items([w], 1));
    hide Items;
  }

  // ---- reading strings ----------------------------------------------------------------------------------

  function HexValue(c: char): Option<nat> {
    if '0' <= c <= '9' then Some(c as int - '0' as int)
    else if 'a' <= c <= 'f' then Some(c as int - 'a' as int + 10)
    else None
  }

  function Hex4(s: string): Option<nat>
    requires |s| >= 4
  {
    var (a, b, c, d) := (HexValue(s[0]), HexValue(s[1]), HexValue(s[2]), HexValue(s[3]));
    if a.None? || b.None? || c.None? || d.None? then None
    else Some(a.value * 0x1000 + b.value * 0x100 + c.value * 0x10 + d.value)
  }

  function UnescapeShort(c: char): Option<nat> {
    if c == '"' || c == '\\' then Some(c as int)
    else if c == 'b' then Some(8)
    else if c == 'f' then Some(12)
    else if c == 'n' then Some(10)
    else if c == 'r' then Some(13)
    else if c == 't' then Some(9)
    else None
  }

  function Continuation(c: char): nat {
    c as int % 0x40
  }

  /** A reader of string contents: the code at the front and the bytes it took. */
  function DecodeOne(s: string): Option<(nat, nat)> {
    if s == "" then None
    else if s[0] == '\\' then
      if |s| >= 6 && s[1] == 'u' then
        match Hex4(s[2..])
        case None => None
        case Some(v) => Some((v, 6))
      else if |s| >= 2 then
        match UnescapeShort(s[1])
        case None => None
        case Some(v) => Some((v, 2))
      else None
    else
      var b := s[0] as int;
      if b < 0x80 then Some((b, 1))
      else if 0xC0 <= b < 0xE0 && |s| >= 2 then Some(((b - 0xC0) * 0x40 + Continuation(s[1]), 2))
      else if 0xE0 <= b < 0xF0 && |s| >= 3 then
        Some(((b - 0xE0) * 0x1000 + Continuation(s[1]) * 0x40 + Continuation(s[2]), 3))
      else if 0xF0 <= b < 0xF8 && |s| >= 4 then
        Some(((b - 0xF0) * 0x40000 + Continuation(s[1]) * 0x1000 + Continuation(s[2]) * 0x40 + Continuation(s[3]), 4))
      else None
  }

  /** String contents up to the closing quote, and what follows it. */
  function ReadText(s: string): (r: Option<(GoString, string)>)
    ensures r.Some? ==> |r.value.1| < |s|
    decreases |s|
  {
    if s == "" || s[0] < ' ' then None
    else if s[0] == '"' then Some(([], s[1..]))
    else match DecodeOne(s)
      case None => None
      case Some((code, n)) =>
        if n == 0 || n > |s| || !(code < 0xD800 || 0xE000 <= code < 0x110000) then None
        else match ReadText(s[n..])
          case None => None
          case Some((t, rest)) => Some(([Rune(code)] + t, rest))
  }

  /** The code point a reader sees for one piece. */
  function SeenGlyph(g: Glyph): CodePoint {
    match g
    case BadByte => 0xFFFD
    case Rune(c) => c
  }

  lemma HexDigitsRead(a: nat, b: nat, c: nat, d: nat, s: string)
    requires a < 16 && b < 16 && c < 16 && d < 16
    requires |s| >= 4 && s[0] == HexDigit(a) && s[1] == HexDigit(b) && s[2] == HexDigit(c) && s[3] == HexDigit(d)
    ensures Hex4(s) == Some(a * 0x1000 + b * 0x100 + c * 0x10 + d)
  {
    HexDigitReads(a);
    HexDigitReads(b);
    HexDigitReads(c);
    HexDigitReads(d);
  }

  lemma HexDigitReads(d: nat)
    requires d < 16
    ensures HexValue(HexDigit(d)) == Some(d)
  {
  }

  lemma FourDigits(c: nat)
    ensures c < 0x10000 ==> c == c / 0x1000 * 0x1000 + c / 0x100 % 16 * 0x100 + c / 0x10 % 16 * 0x10 + c % 16
  {
    assert c / 0x100 == c / 0x10 / 16 && c / 0x1000 == c / 0x100 / 16;
  }

  lemma HexRoundTrip(c: CodePoint, rest: string)
    requires c < 0x10000
    ensures DecodeOne(UnicodeEscape(c) + rest) == Some((c, 6))
  {
    hide HexDigit, Hex4;
    var s := UnicodeEscape(c) + rest;
    assert s[0] == '\\' && s[1] == 'u';
    assert s[2..][0] == s[2] && s[2..][1] == s[3] && s[2..][2] == s[4] && s[2..][3] == s[5];
    HexDigitsRead(c / 0x1000, c / 0x100 % 16, c / 0x10 % 16, c % 16, s[2..]);
    FourDigits(c);
  }

  /** Six-bit pieces add up again. */
  lemma SixBits(c: nat)
    ensures c == c / 0x40 * 0x40 + c % 0x40
    ensures c == c / 0x1000 * 0x1000 + c / 0x40 % 0x40 * 0x40 + c % 0x40
    ensures c == c / 0x40000 * 0x40000 + c / 0x1000 % 0x40 * 0x1000 + c / 0x40 % 0x40 * 0x40 + c % 0x40
  {
    assert c / 0x1000 == c / 0x40 / 0x40 && c / 0x40000 == c / 0x1000 / 0x40;
  }

  lemma ContinuationReads(d: nat)
    requires d < 0x40
    ensures Continuation(Byte(0x80 + d)) == d
  {
  }

  lemma Utf8RoundTrip(c: CodePoint, rest: string)
    requires c != '\\' as int
    ensures DecodeOne(Utf8(c) + rest) == Some((c, |Utf8(c)|))
  {
    hide Continuation;
    var u := Utf8(c);
    var s := u + rest;
    assert forall i :: 0 <= i < |u| ==> s[i] == u[i];
    SixBits(c);
    ContinuationReads(c % 0x40);
    ContinuationReads(c / 0x40 % 0x40);
    ContinuationReads(c / 0x1000 % 0x40);
  }

  lemma EscapeRoundTrip(g: Glyph, rest: string)
    ensures DecodeOne(Escape(g) + rest) == Some((SeenGlyph(g), |Escape(g)|)) && |Escape(g)| > 0
  {
    match g {
      case BadByte => HexRoundTrip(0xFFFD, rest);
      case Rune(c) =>
        if ShortEscape(c).Some? {
          var s := Escape(g) + rest;
          assert s[0] == '\\' && s[1] == ShortEscape(c).value;
          assert UnescapeShort(s[1]) == Some(c);
        } else if NeedsUnicodeEscape(c) {
          HexRoundTrip(c, rest);
        } else {
          Utf8RoundTrip(c, rest);
        }
    }
  }

  lemma {:induction false} EscapeAllFront(t: GoString)
    requires t != []
    ensures EscapeAll(t) == Escape(t[0]) + EscapeAll(t[1..])
  {
    hide Escape;
    if |t| == 1 {
      assert t[..0] == [] && t[1..] == [];
    } else {
      var init, last := t[..|t| - 1], t[|t| - 1];
      EscapeAllFront(init);
      assert init[0] == t[0] && init[1..] == t[1..][..|t[1..]| - 1];
      assert EscapeAll(t[1..]) == EscapeAll(init[1..]) + Escape(last);
      assert EscapeAll(t) == (Escape(t[0]) + EscapeAll(init[1..])) + Escape(last);
      assert (Escape(t[0]) + EscapeAll(init[1..])) + Escape(last) == Escape(t[0]) + (EscapeAll(init[1..]) + Escape(last));
    }
  }

  /** Escaped text begins neither with a quote nor with a control character. */
  lemma EscapeStarts(g: Glyph)
    ensures Escape(g) != "" && Escape(g)[0] != '"' && Escape(g)[0] >= ' '
  {
    hide HexDigit;
  }

  lemma OneGlyphRead(first: string, tail: string, c: CodePoint, t: GoString, rest: string)
    requires first != "" && first[0] != '"' && first[0] >= ' '
    requires DecodeOne(first + tail) == Some((c, |first|)) && ReadText(tail) == Some((t, rest))
    ensures ReadText(first + tail) == Some(([Rune(c)] + t, rest))
  {
    hide DecodeOne;
    assert (first + tail)[0] == first[0] && (first + tail)[|first|..] == tail;
  }

  lemma EscapeAllThen(t: GoString, tail: string)
    requires t != []
    ensures EscapeAll(t) + tail == Escape(t[0]) + (EscapeAll(t[1..]) + tail)
  {
    hide EscapeAll, Escape;
    EscapeAllFront(t);
    Assoc(Escape(t[0]), EscapeAll(t[1..]), tail);
  }

  lemma RunesFront(t: GoString)
    requires t != []
    ensures ToRunes(t) == [Rune(SeenGlyph(t[0]))] + ToRunes(t[1..])
  {
  }

  /** Escaping loses nothing: a reader gets back exactly the runes of the text. */
  lemma {:induction false} TextReadsBack(t: GoString, rest: string)
    ensures ReadText(EscapeAll(t) + ("\"" + rest)) == Some((ToRunes(t), rest))
  {
    if t == [] {
      assert EscapeAll(t) + ("\"" + rest) == "\"" + rest && ("\"" + rest)[1..] == rest;
      assert ToRunes(t) == [];
    } else {
      var tail := EscapeAll(t[1..]) + ("\"" + rest);
      EscapeStarts(t[0]);
      EscapeRoundTrip(t[0], tail);
      TextReadsBack(t[1..], rest);
      EscapeAllThen(t, "\"" + rest);
      RunesFront(t);
      hide Escape, EscapeAll, DecodeOne, ReadText, ToRunes, SeenGlyph;
      OneGlyphRead(Escape(t[0]), tail, SeenGlyph(t[0]), ToRunes(t[1..]), rest);
    }
  }

  // ---- reading values -----------------------------------------------------------------------------------

  predicate IsBlank(c: char) {
    c == ' ' || c == '\n' || c == '\r' || c == '\t'
  }

  function SkipBlanks(s: string): (r: string)
    ensures |r| <= |s|
  {
    if s != "" && IsBlank(s[0]) then SkipBlanks(s[1..]) else s
  }

  function DigitsEnd(s: string): (k: nat)
    ensures k <= |s| && AllDigits(s[..k])
  {
    if s == "" || !IsDigit(s[0]) then 0 else 1 + DigitsEnd(s[1..])
  }

  function ReadNumber(s: string): (r: Option<(Value, string)>)
    ensures r.Some? ==> |r.value.1| < |s|
  {
    var k := DigitsEnd(s);
    if k == 0 || (k > 1 && s[0] == '0') then None else Some((Num(NumeralValue(s[..k])), s[k..]))
  }

  /** The value at the front, and what follows it. */
  function ReadValue(s: string): (r: Option<(Value, string)>)
    ensures r.Some? ==> |r.value.1| < |s|
    decreases |s|, 1
  {
    var t := SkipBlanks(s);
    if t == "" then None
    else if t[0] == '"' then
      match ReadText(t[1..]) case None => None case Some((g, rest)) => Some((Str(g), rest))
    else if t[0] == '[' then
      var u := SkipBlanks(t[1..]);
      if u != "" && u[0] == ']' then Some((Arr([]), u[1..]))
      else match ReadItems(t[1..]) case None => None case Some((vs, rest)) => Some((Arr(vs), rest))
    else if t[0] == '{' then
      var u := SkipBlanks(t[1..]);
      if u != "" && u[0] == '}' then Some((Obj([]), u[1..]))
      else match ReadMembers(t[1..]) case None => None case Some((ms, rest)) => Some((Obj(ms), rest))
    else if "null" <= t then Some((Null, t[4..]))
    else if "true" <= t then Some((Bool(true), t[4..]))
    else if "false" <= t then Some((Bool(false), t[5..]))
    else ReadNumber(t)
  }

  /** Items up to the closing bracket. */
  function ReadItems(s: string): (r: Option<(seq<Value>, string)>)
    ensures r.Some? ==> |r.value.1| < |s|
    decreases |s|, 2
  {
    match ReadValue(s)
    case None => None
    case Some((v, after)) =>
      var u := SkipBlanks(after);
      if u == "" then None
      else if u[0] == ']' then Some(([v], u[1..]))
      else if u[0] != ',' then None
      else match ReadItems(u[1..]) case None => None case Some((vs, rest)) => Some(([v] + vs, rest))
  }

  /** Members up to the closing brace. */
  function ReadMembers(s: string): (r: Option<(seq<Member>, string)>)
    ensures r.Some? ==> |r.value.1| < |s|
    decreases |s|, 2
  {
    match ReadMember(s)
    case None => None
    case Some((m, after)) =>
      var u := SkipBlanks(after);
      if u == "" then None
      else if u[0] == '}' then Some(([m], u[1..]))
      else if u[0] != ',' then None
      else match ReadMembers(u[1..]) case None => None case Some((ms, rest)) => Some(([m] + ms, rest))
  }

  function ReadMember(s: string): (r: Option<(Member, string)>)
    ensures r.Some? ==> |r.value.1| < |s|
    decreases |s|, 1
  {
    var t := SkipBlanks(s);
    if t == "" || t[0] != '"' then None
    else match ReadText(t[1..])
      case None => None
      case Some((key, after)) =>
        var u := SkipBlanks(after);
        if u == "" || u[0] != ':' then None
        else match ReadValue(u[1..]) case None => None case Some((v, rest)) => Some((Member(key, v), rest))
  }

  /** A whole text: one value and nothing but blanks after it. */
  function ReadDocument(s: string): Option<Value> {
    match ReadValue(s)
    case None => None
    case Some((v, rest)) => if SkipBlanks(rest) == "" then Some(v) else None
  }

  /** What a reader sees of a value: every invalid byte as U+FFFD. */
  function Seen(v: Value): Value
    decreases v
  {
    match v
    case Str(t) => Str(ToRunes(t))
    case Arr(items) => Arr(SeenItems(items))
    case Obj(ms) => Obj(SeenMembers(ms))
    case _ => v
  }

  function SeenItems(items: seq<Value>): seq<Value>
    decreases items
  {
    if items == [] then [] else [Seen(items[0])] + SeenItems(items[1..])
  }

  function SeenMembers(ms: seq<Member>): seq<Member>
    decreases ms
  {
    if ms == [] then [] else [Member(ToRunes(ms[0].key), Seen(ms[0].value))] + SeenMembers(ms[1..])
  }

  // ---- what is printed reads back ---------------------------------------------------------------------

  /** What may follow a value: not a digit, which would prolong a number. */
  predicate Ends(rest: string) {
    rest == "" || !IsDigit(rest[0])
  }

  lemma {:induction false} SkipSpaces(n: nat, s: string)
    ensures SkipBlanks(Spaces(n) + s) == SkipBlanks(s)
  {
    if n == 0 {
      assert Spaces(0) + s == s;
    } else {
      assert (Spaces(n) + s)[0] == ' ' && (Spaces(n) + s)[1..] == Spaces(n - 1) + s;
      SkipSpaces(n - 1, s);
    }
  }

  lemma SkipLine(depth: nat, s: string)
    ensures SkipBlanks(Line(depth) + s) == SkipBlanks(s)
  {
    assert (Line(depth) + s)[0] == '\n' && (Line(depth) + s)[1..] == Spaces(2 * depth) + s;
    SkipSpaces(2 * depth, s);
  }

  lemma ReadPastLine(depth: nat, s: string)
    ensures ReadValue(Line(depth) + s) == ReadValue(s)
    ensures ReadItems(Line(depth) + s) == ReadItems(s)
    ensures ReadMembers(Line(depth) + s) == ReadMembers(s)
  {
    hide Line;
    SkipLine(depth, s);
  }

  lemma {:induction false} DecimalLead(n: nat)
    ensures Decimal(n) != "" && IsDigit(Decimal(n)[0])
    ensures n > 0 ==> Decimal(n)[0] != '0'
  {
    if n >= 10 {
      DecimalLead(n / 10);
    }
  }

  lemma {:induction false} DigitsEndAt(digits: string, rest: string)
    requires AllDigits(digits) && Ends(rest)
    ensures DigitsEnd(digits + rest) == |digits|
  {
    if digits == "" {
      assert digits + rest == rest;
    } else {
      assert (digits + rest)[0] == digits[0] && (digits + rest)[1..] == digits[1..] + rest;
      DigitsEndAt(digits[1..], rest);
    }
  }

  lemma NumberReadsBack(n: nat, rest: string)
    requires Ends(rest)
    ensures ReadValue(Decimal(n) + rest) == Some((Num(n), rest))
  {
    var s := Decimal(n) + rest;
    DecimalValue(n);
    DecimalLead(n);
    DigitsEndAt(Decimal(n), rest);
    if n == 0 {
      assert Decimal(0) == "0";
    }
    hide Decimal, NumeralValue;
    assert s[0] == Decimal(n)[0] && s[..|Decimal(n)|] == Decimal(n) && s[|Decimal(n)|..] == rest;
    assert !IsBlank(s[0]);
    assert "null"[0] == 'n' && "true"[0] == 't' && "false"[0] == 'f';
  }

  lemma TextValueReadsBack(t: GoString, rest: string)
    ensures ReadValue(Quote(t) + rest) == Some((Str(ToRunes(t)), rest))
  {
    TextReadsBack(t, rest);
    hide EscapeAll, ReadText, ToRunes;
    assert (Quote(t) + rest)[1..] == EscapeAll(t) + ("\"" + rest);
  }

  lemma WordReadsBack(v: Value, rest: string)
    requires v.Null? || v.Bool?
    ensures ReadValue(Pretty(v, 0) + rest) == Some((v, rest))
  {
    var word := Pretty(v, 0);
    var s := word + rest;
    assert s[0] == word[0] && word <= s && s[|word|..] == rest;
    if v.Bool? {
      assert "null"[0] == 'n' != s[0];
      if !v.b {
        assert "true"[0] == 't' != s[0];
      }
    }
  }

  /** No value's text starts like a blank, a closing bracket or a closing brace. */
  lemma PrettyStarts(v: Value, depth: nat)
    ensures Pretty(v, depth) != "" && !IsBlank(Pretty(v, depth)[0])
    ensures Pretty(v, depth)[0] != ']' && Pretty(v, depth)[0] != '}'
  {
    hide Line, Items, Members, EscapeAll;
    if v.Num? {
      DecimalLead(v.n);
    }
  }

  /** Whatever Go prints, a JSON reader gets it back, invalid bytes as U+FFFD. */
  lemma {:induction false} ValueReadsBack(v: Value, depth: nat, rest: string)
    requires Ends(rest)
    ensures ReadValue(Pretty(v, depth) + rest) == Some((Seen(v), rest))
    decreases v, 1
  {
    match v
    case Null => WordReadsBack(v, rest);
    case Bool(_) => WordReadsBack(v, rest);
    case Num(n) => NumberReadsBack(n, rest);
    case Str(t) => TextValueReadsBack(t, rest);
    case Arr(items) =>
      if items == [] {
        EmptyReadsBack(rest);
      } else {
        ItemsReadBack(items, depth, rest);
        ArrOpens(items, depth, rest);
      }
    case Obj(ms) =>
      if ms == [] {
        EmptyReadsBack(rest);
      } else {
        MembersReadBack(ms, depth, rest);
        ObjOpens(ms, depth, rest);
      }
  }

  lemma EmptyReadsBack(rest: string)
    ensures ReadValue("[]" + rest) == Some((Arr([]), rest))
    ensures ReadValue("{}" + rest) == Some((Obj([]), rest))
  {
    assert ("[]" + rest)[1..] == "]" + rest && ("]" + rest)[1..] == rest;
    assert ("{}" + rest)[1..] == "}" + rest && ("}" + rest)[1..] == rest;
  }

  lemma ArrRead(tail: string, vs: seq<Value>, rest: string)
    requires SkipBlanks(tail) != "" && SkipBlanks(tail)[0] != ']'
    requires ReadItems(tail) == Some((vs, rest))
    ensures ReadValue("[" + tail) == Some((Arr(vs), rest))
  {
    hide ReadItems;
    var s := "[" + tail;
    assert s[0] == '[' && s[1..] == tail;
  }

  lemma ObjRead(tail: string, ms: seq<Member>, rest: string)
    requires SkipBlanks(tail) != "" && SkipBlanks(tail)[0] != '}'
    requires ReadMembers(tail) == Some((ms, rest))
    ensures ReadValue("{" + tail) == Some((Obj(ms), rest))
  {
    hide ReadMembers;
    var s := "{" + tail;
    assert s[0] == '{' && s[1..] == tail;
  }

  lemma ArrText(items: seq<Value>, depth: nat, rest: string)
    requires items != []
    ensures Pretty(Arr(items), depth) + rest
            == "[" + (Line(depth + 1) + (Items(items, depth + 1) + (Line(depth) + ("]" + rest))))
  {
    hide Items, Line;
  }

  lemma ObjText(ms: seq<Member>, depth: nat, rest: string)
    requires ms != []
    ensures Pretty(Obj(ms), depth) + rest
            == "{" + (Line(depth + 1) + (Members(ms, depth + 1) + (Line(depth) + ("}" + rest))))
  {
    hide Members, Line;
  }

  lemma ItemsStart(items: seq<Value>, depth: nat, tail: string)
    requires items != []
    ensures var s := Items(items, depth) + tail; s != "" && !IsBlank(s[0]) && s[0] != ']'
  {
    PrettyStarts(items[0], depth);
    hide Pretty, Line;
  }

  lemma MembersStart(ms: seq<Member>, depth: nat, tail: string)
    requires ms != []
    ensures var s := Members(ms, depth) + tail; s != "" && !IsBlank(s[0]) && s[0] != '}'
  {
    hide Pretty, Line, EscapeAll;
    assert MemberText(ms[0], depth)[0] == '"';
  }

  lemma ArrOpens(items: seq<Value>, depth: nat, rest: string)
    requires items != []
    requires ReadItems(Items(items, depth + 1) + (Line(depth) + ("]" + rest))) == Some((SeenItems(items), rest))
    ensures ReadValue(Pretty(Arr(items), depth) + rest) == Some((Arr(SeenItems(items)), rest))
  {
    var inner := Items(items, depth + 1) + (Line(depth) + ("]" + rest));
    ItemsStart(items, depth + 1, Line(depth) + ("]" + rest));
    SkipLine(depth + 1, inner);
    ReadPastLine(depth + 1, inner);
    ArrText(items, depth, rest);
    hide Line, Items, ReadItems, ReadValue, Pretty;
    ArrRead(Line(depth + 1) + inner, SeenItems(items), rest);
  }

  lemma ObjOpens(ms: seq<Member>, depth: nat, rest: string)
    requires ms != []
    requires ReadMembers(Members(ms, depth + 1) + (Line(depth) + ("}" + rest))) == Some((SeenMembers(ms), rest))
    ensures ReadValue(Pretty(Obj(ms), depth) + rest) == Some((Obj(SeenMembers(ms)), rest))
  {
    var inner := Members(ms, depth + 1) + (Line(depth) + ("}" + rest));
    MembersStart(ms, depth + 1, Line(depth) + ("}" + rest));
    SkipLine(depth + 1, inner);
    ReadPastLine(depth + 1, inner);
    ObjText(ms, depth, rest);
    hide Line, Members, ReadMembers, ReadValue, Pretty;
    ObjRead(Line(depth + 1) + inner, SeenMembers(ms), rest);
  }

  lemma LastItemRead(s: string, v: Value, after: string, rest: string)
    requires ReadValue(s) == Some((v, after)) && SkipBlanks(after) == "]" + rest
    ensures ReadItems(s) == Some(([v], rest))
  {
    hide ReadValue;
    assert ("]" + rest)[1..] == rest;
  }

  lemma ItemRead(s: string, v: Value, tail: string, vs: seq<Value>, rest: string)
    requires ReadValue(s) == Some((v, "," + tail)) && ReadItems(tail) == Some((vs, rest))
    ensures ReadItems(s) == Some(([v] + vs, rest))
  {
    hide ReadValue;
    var after := "," + tail;
    assert after[0] == ',' && after[1..] == tail && SkipBlanks(after) == after;
  }

  lemma LastMemberRead(s: string, m: Member, after: string, rest: string)
    requires ReadMember(s) == Some((m, after)) && SkipBlanks(after) == "}" + rest
    ensures ReadMembers(s) == Some(([m], rest))
  {
    hide ReadMember;
    assert ("}" + rest)[1..] == rest;
  }

  lemma NextMemberRead(s: string, m: Member, tail: string, ms: seq<Member>, rest: string)
    requires ReadMember(s) == Some((m, "," + tail)) && ReadMembers(tail) == Some((ms, rest))
    ensures ReadMembers(s) == Some(([m] + ms, rest))
  {
    hide ReadMember;
    var after := "," + tail;
    assert after[0] == ',' && after[1..] == tail && SkipBlanks(after) == after;
  }

  lemma ItemsText(items: seq<Value>, depth: nat, close: string)
    requires items != []
    ensures Items(items, depth) + close
            == Pretty(items[0], depth)
               + if |items| == 1 then close else "," + (Line(depth) + (Items(items[1..], depth) + close))
  {
    hide Pretty, Line;
  }

  lemma MembersText(ms: seq<Member>, depth: nat, close: string)
    requires ms != []
    ensures Members(ms, depth) + close
            == MemberText(ms[0], depth)
               + if |ms| == 1 then close else "," + (Line(depth) + (Members(ms[1..], depth) + close))
  {
    hide MemberText, Line;
  }

  /** What follows a nested value ends a number. */
  lemma LineEnds(depth: nat, s: string)
    ensures Ends(Line(depth) + s) && Ends("," + s)
  {
  }

  lemma ItemsLastBack(items: seq<Value>, depth: nat, rest: string)
    requires |items| == 1
    requires var close := Line(depth) + ("]" + rest);
             ReadValue(Pretty(items[0], depth + 1) + close) == Some((Seen(items[0]), close))
    ensures ReadItems(Items(items, depth + 1) + (Line(depth) + ("]" + rest))) == Some(([Seen(items[0])], rest))
  {
    hide Pretty, Items, Line, ReadValue, ReadItems, SkipBlanks, Seen;
    var close := Line(depth) + ("]" + rest);
    ItemsText(items, depth + 1, close);
    SkipLine(depth, "]" + rest);
    CloserStays(']', rest);
    LastItemRead(Pretty(items[0], depth + 1) + close, Seen(items[0]), close, rest);
  }

  lemma ItemsNextBack(items: seq<Value>, depth: nat, close: string, rest: string)
    requires |items| > 1
    requires var next := "," + (Line(depth) + (Items(items[1..], depth) + close));
             ReadValue(Pretty(items[0], depth) + next) == Some((Seen(items[0]), next))
    requires ReadItems(Items(items[1..], depth) + close) == Some((SeenItems(items[1..]), rest))
    ensures ReadItems(Items(items, depth) + close) == Some(([Seen(items[0])] + SeenItems(items[1..]), rest))
  {
    hide Pretty, Items, Line, ReadValue, ReadItems, Seen, SeenItems;
    var more := Items(items[1..], depth) + close;
    ItemsText(items, depth, close);
    ReadPastLine(depth, more);
    ItemRead(Pretty(items[0], depth) + ("," + (Line(depth) + more)), Seen(items[0]), Line(depth) + more,
             SeenItems(items[1..]), rest);
  }

  lemma SeenFront(items: seq<Value>)
    requires items != []
    ensures SeenItems(items) == [Seen(items[0])] + SeenItems(items[1..])
    ensures |items| == 1 ==> SeenItems(items) == [Seen(items[0])]
  {
  }

  lemma {:induction false} ItemsReadBack(items: seq<Value>, depth: nat, rest: string)
    requires items != []
    ensures ReadItems(Items(items, depth + 1) + (Line(depth) + ("]" + rest))) == Some((SeenItems(items), rest))
    decreases items, 0
  {
    hide Pretty, Items, Line, ReadValue, ReadItems, SkipBlanks, Seen, SeenItems, Ends;
    var close := Line(depth) + ("]" + rest);
    SeenFront(items);
    LineEnds(depth, "]" + rest);
    if |items| == 1 {
      ValueReadsBack(items[0], depth + 1, close);
      ItemsLastBack(items, depth, rest);
    } else {
      var more := Line(depth + 1) + (Items(items[1..], depth + 1) + close);
      LineEnds(depth, more);
      ValueReadsBack(items[0], depth + 1, "," + more);
      ItemsReadBack(items[1..], depth, rest);
      ItemsNextBack(items, depth + 1, close, rest);
    }
  }

  lemma CloserStays(c: char, rest: string)
    requires !IsBlank(c)
    ensures SkipBlanks([c] + rest) == [c] + rest
  {
  }

  lemma MemberReadsBack(m: Member, depth: nat, rest: string)
    requires ReadValue(Pretty(m.value, depth) + rest) == Some((Seen(m.value), rest))
    ensures ReadMember(MemberText(m, depth) + rest) == Some((Member(ToRunes(m.key), Seen(m.value)), rest))
  {
    var value := Pretty(m.value, depth) + rest;
    var after := ": " + value;
    TextReadsBack(m.key, after);
    hide Pretty, EscapeAll, ReadText, ReadValue, ToRunes, Seen;
    var s := MemberText(m, depth) + rest;
    assert s == "\"" + (EscapeAll(m.key) + ("\"" + after));
    assert s[1..] == EscapeAll(m.key) + ("\"" + after);
    assert after[1..] == " " + value;
    BlankBefore(value);
  }

  lemma BlankBefore(s: string)
    ensures ReadValue(" " + s) == ReadValue(s)
  {
    assert (" " + s)[1..] == s;
  }

  lemma MembersLastBack(ms: seq<Member>, depth: nat, m: Member, rest: string)
    requires |ms| == 1
    requires var close := Line(depth) + ("}" + rest);
             ReadMember(MemberText(ms[0], depth + 1) + close) == Some((m, close))
    ensures ReadMembers(Members(ms, depth + 1) + (Line(depth) + ("}" + rest))) == Some(([m], rest))
  {
    hide MemberText, Members, Line, ReadMember, ReadMembers, SkipBlanks;
    var close := Line(depth) + ("}" + rest);
    MembersText(ms, depth + 1, close);
    SkipLine(depth, "}" + rest);
    CloserStays('}', rest);
    LastMemberRead(MemberText(ms[0], depth + 1) + close, m, close, rest);
  }

  lemma MembersNextBack(ms: seq<Member>, depth: nat, m: Member, close: string, rest: string)
    requires |ms| > 1
    requires var next := "," + (Line(depth) + (Members(ms[1..], depth) + close));
             ReadMember(MemberText(ms[0], depth) + next) == Some((m, next))
    requires ReadMembers(Members(ms[1..], depth) + close) == Some((SeenMembers(ms[1..]), rest))
    ensures ReadMembers(Members(ms, depth) + close) == Some(([m] + SeenMembers(ms[1..]), rest))
  {
    hide MemberText, Members, Line, ReadMember, ReadMembers, SeenMembers;
    var more := Members(ms[1..], depth) + close;
    MembersText(ms, depth, close);
    ReadPastLine(depth, more);
    NextMemberRead(MemberText(ms[0], depth) + ("," + (Line(depth) + more)), m, Line(depth) + more,
                   SeenMembers(ms[1..]), rest);
  }

  lemma SeenMembersFront(ms: seq<Member>)
    requires ms != []
    ensures var first := Member(ToRunes(ms[0].key), Seen(ms[0].value));
            && SeenMembers(ms) == [first] + SeenMembers(ms[1..])
            && (|ms| == 1 ==> SeenMembers(ms) == [first])
  {
  }

  lemma {:induction false} MembersReadBack(ms: seq<Member>, depth: nat, rest: string)
    requires ms != []
    ensures ReadMembers(Members(ms, depth + 1) + (Line(depth) + ("}" + rest))) == Some((SeenMembers(ms), rest))
    decreases ms, 0
  {
    hide Pretty, Members, MemberText, Line, ReadValue, ReadMember, ReadMembers, Seen, SeenMembers, ToRunes, Ends;
    var close := Line(depth) + ("}" + rest);
    var first := Member(ToRunes(ms[0].key), Seen(ms[0].value));
    SeenMembersFront(ms);
    LineEnds(depth, "}" + rest);
    if |ms| == 1 {
      ValueReadsBack(ms[0].value, depth + 1, close);
      MemberReadsBack(ms[0], depth + 1, close);
      MembersLastBack(ms, depth, first, rest);
    } else {
      var more := Line(depth + 1) + (Members(ms[1..], depth + 1) + close);
      LineEnds(depth, more);
      ValueReadsBack(ms[0].value, depth + 1, "," + more);
      MemberReadsBack(ms[0], depth + 1, "," + more);
      MembersReadBack(ms[1..], depth, rest);
      MembersNextBack(ms, depth + 1, first, close, rest);
    }
  }

  lemma DocumentReadsBack(v: Value)
    ensures ReadDocument(Pretty(v, 0)) == Some(Seen(v))
  {
    ValueReadsBack(v, 0, "");
    assert Pretty(v, 0) + "" == Pretty(v, 0);
  }
}
