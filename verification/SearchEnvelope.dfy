/**
 The size-limited JSON output of `orbyte-cli search` (cli/cmd/search.go): the documents it prints, the binary
 search for the largest rendering that fits, and the truncated envelope.
 */
module SearchEnvelope {
  import opened Base
  import opened Text
  import opened GoJson

  // ---- documents ------------------------------------------------------------------------------

  datatype SearchResult = SearchResult(
    title: GoString, url: Option<GoString>, sourceType: GoString, content: GoString, updatedAt: Option<GoString>)

  /** Truncation metadata that stays the same while the shown results are chosen. */
  datatype Meta = Meta(totalResults: nat, totalBytes: nat, fullPath: GoString, hint: GoString)

  function Field(name: string, v: Value): Member {
    Member(Ascii(name), v)
  }

  function StrOrNull(t: Option<GoString>): Value {
    if t.Some? then Str(t.value) else Null
  }

  function ResultMembers(r: SearchResult): seq<Member> {
    [Field("title", Str(r.title)), Field("url", StrOrNull(r.url)), Field("source_type", Str(r.sourceType)),
     Field("content", Str(r.content)), Field("updated_at", StrOrNull(r.updatedAt))]
  }

  function ResultValues(rs: seq<SearchResult>): seq<Value> {
    seq(|rs|, i requires 0 <= i < |rs| => Obj(ResultMembers(rs[i])))
  }

  function TruncationMembers(m: Meta, shown: nat, contentTruncated: bool): seq<Member> {
    [Field("truncated", Bool(true)), Field("total_results", Num(m.totalResults)), Field("shown_results", Num(shown)),
     Field("total_bytes", Num(m.totalBytes)), Field("content_truncated", Bool(contentTruncated)),
     Field("full_response_path", Str(m.fullPath)), Field("hint", Str(m.hint))]
  }

  function FullMembers(rs: seq<SearchResult>): seq<Member> {
    [Field("results", Arr(ResultValues(rs)))]
  }

  function EnvelopeMembers(rs: seq<SearchResult>, m: Meta, contentTruncated: bool): seq<Member> {
    [Field("results", Arr(ResultValues(rs))), Field("truncation", Obj(TruncationMembers(m, |rs|, contentTruncated)))]
  }

  /** The whole document without truncation metadata. */
  function RenderFull(rs: seq<SearchResult>): string {
    Pretty(Obj(FullMembers(rs)), 0)
  }

  function Envelope(rs: seq<SearchResult>, m: Meta, contentTruncated: bool): string {
    Pretty(Obj(EnvelopeMembers(rs, m, contentTruncated)), 0)
  }

  // ---- sizes grow ----------------------------------------------------------------------------

  function RenderResults(rs: seq<SearchResult>): string {
    Pretty(Arr(ResultValues(rs)), 1)
  }

  /** Everything in an envelope but the results, the shown count and the flag. */
  function FixedSize(m: Meta): int {
    |Envelope([], m, false)| - 8
  }

  lemma TruncationSize(m: Meta, shown: nat, contentTruncated: bool)
    ensures |Pretty(Obj(TruncationMembers(m, shown, contentTruncated)), 1)|
            == |Pretty(Obj(TruncationMembers(m, 0, false)), 1)|
               + |Decimal(shown)| - 1 - (if contentTruncated then 1 else 0)
  {
    var none := TruncationMembers(m, 0, false);
    var counted := TruncationMembers(m, shown, false);
    assert counted == none[2 := none[2].(value := Num(shown))];
    assert TruncationMembers(m, shown, contentTruncated) == counted[4 := counted[4].(value := Bool(contentTruncated))];
    ObjSwap(none, 2, Num(shown), 1);
    ObjSwap(counted, 4, Bool(contentTruncated), 1);
    assert |Pretty(Num(0), 2)| == 1;
  }

  lemma PairSize(k: GoString, v: Value, w: Value, k': GoString, v': Value, w': Value)
    ensures |Pretty(Obj([Member(k, w), Member(k', w')]), 0)| + |Pretty(v, 1)| + |Pretty(v', 1)|
            == |Pretty(Obj([Member(k, v), Member(k', v')]), 0)| + |Pretty(w, 1)| + |Pretty(w', 1)|
  {
    hide Pretty;
    var first, second := Member(k, v), Member(k', v');
    var before, between := [first, second], [first.(value := w), second];
    ObjSwap(before, 0, w, 0);
    assert before[0 := first.(value := w)] == between;
    ObjSwap(between, 1, w', 0);
    assert between[1 := second.(value := w')] == [Member(k, w), Member(k', w')];
  }

  lemma EnvelopeSize(rs: seq<SearchResult>, m: Meta, contentTruncated: bool)
    ensures |Envelope(rs, m, contentTruncated)|
            == FixedSize(m) + |RenderResults(rs)| + |Decimal(|rs|)| + (if contentTruncated then 4 else 5)
  {
    TruncationSize(m, |rs|, contentTruncated);
    assert ResultValues([]) == [] && |Pretty(Arr([]), 1)| == 2;
    hide Pretty, Ascii, ResultValues, TruncationMembers, Decimal;
    PairSize(Ascii("results"), Arr(ResultValues([])), Arr(ResultValues(rs)),
             Ascii("truncation"), Obj(TruncationMembers(m, 0, false)), Obj(TruncationMembers(m, |rs|, contentTruncated)));
  }

  /** Showing more results never makes the envelope smaller. */
  lemma EnvelopeGrows(rs: seq<SearchResult>, meta: Meta, m: nat, n: nat)
    requires m <= n <= |rs|
    ensures |Envelope(rs[..m], meta, false)| <= |Envelope(rs[..n], meta, false)|
  {
    DecimalWidthMonotone(m, n);
    assert ResultValues(rs[..m]) == ResultValues(rs)[..m] && ResultValues(rs[..n]) == ResultValues(rs)[..n];
    ArrGrows(ResultValues(rs), m, n, 1);
    hide Envelope, FixedSize, Decimal, Pretty;
    EnvelopeSize(rs[..m], meta, false);
    EnvelopeSize(rs[..n], meta, false);
  }

  function Trimmed(r: SearchResult, runes: GoString, k: nat): SearchResult
    requires k <= |runes|
  {
    r.(content := runes[..k])
  }

  lemma OneResultSize(r: SearchResult, content: GoString)
    ensures |RenderResults([r.(content := content)])|
            == |RenderResults([r.(content := [])])| + |EscapeAll(content)|
  {
    var a, b := r.(content := content), r.(content := []);
    ObjSwap(ResultMembers(b), 3, Str(content), 2);
    assert ResultMembers(a) == ResultMembers(b)[3 := ResultMembers(b)[3].(value := Str(content))];
    assert ResultValues([a]) == [Obj(ResultMembers(a))] && ResultValues([b]) == [Obj(ResultMembers(b))];
    assert |EscapeAll([])| == 0;
    hide EscapeAll, ResultMembers, Line;
    OneItemSize(Obj(ResultMembers(a)));
    OneItemSize(Obj(ResultMembers(b)));
  }

  lemma OneItemSize(v: Value)
    ensures |Pretty(Arr([v]), 1)| == |Line(2)| + |Line(1)| + 2 + |Pretty(v, 2)|
  {
    hide Line;
  }

  /** Showing more of the content never makes the envelope smaller. */
  lemma TrimmedGrows(r: SearchResult, runes: GoString, meta: Meta, j: nat, k: nat)
    requires j <= k <= |runes|
    ensures |Envelope([Trimmed(r, runes, j)], meta, true)| <= |Envelope([Trimmed(r, runes, k)], meta, true)|
  {
    EscapeAllGrows(runes, j, k);
    OneResultSize(r, runes[..j]);
    OneResultSize(r, runes[..k]);
    hide Envelope, FixedSize, RenderResults;
    EnvelopeSize([Trimmed(r, runes, j)], meta, true);
    EnvelopeSize([Trimmed(r, runes, k)], meta, true);
  }

  // ---- the search --------------------------------------------------------------------------------

  /** `n` is the largest count whose rendering fits, 0 standing in when none does. */
  ghost predicate IsLargestFit(render: nat --> string, maxN: nat, limit: int, n: nat)
    requires forall i: nat :: i <= maxN ==> render.requires(i)
  {
    && n <= maxN
    && (n > 0 ==> |render(n)| <= limit)
    && forall m: nat :: n < m <= maxN ==> |render(m)| > limit
  }

  method LargestFit(maxN: nat, limit: int, render: nat --> string) returns (best: nat, bestData: string)
    requires forall i: nat :: i <= maxN ==> render.requires(i)
    requires forall i: nat, j: nat :: i <= j <= maxN ==> |render(i)| <= |render(j)|
    ensures IsLargestFit(render, maxN, limit, best)
    ensures bestData == render(best)
  {
    best, bestData := 0, render(0);
    var lo, hi := 1, maxN as int;
    while lo <= hi
      invariant 0 <= best < lo <= hi + 1 <= maxN + 1
      invariant bestData == render(best)
      invariant best > 0 ==> |bestData| <= limit
      invariant best == lo - 1
      invariant forall m: nat :: hi < m <= maxN ==> |render(m)| > limit
      decreases hi - lo
    {
      var mid := (lo + hi) / 2;
      var data := render(mid);
      if |data| <= limit {
        best, bestData := mid, data;
        lo := mid + 1;
      } else {
        hi := mid - 1;
      }
    }
  }

  function Shown(full: seq<SearchResult>, meta: Meta, n: nat): string
    requires n <= |full|
  {
    Envelope(full[..n], meta, false)
  }

  function ShownTrimmed(full: seq<SearchResult>, meta: Meta, k: nat): string
    requires full != [] && k <= |full[0].content|
  {
    Envelope([Trimmed(full[0], ToRunes(full[0].content), k)], meta, true)
  }

  lemma ShownGrows(full: seq<SearchResult>, meta: Meta, m: nat, n: nat)
    requires m <= n <= |full|
    ensures |Shown(full, meta, m)| <= |Shown(full, meta, n)|
  {
    EnvelopeGrows(full, meta, m, n);
  }

  lemma ShownTrimmedGrows(full: seq<SearchResult>, meta: Meta, j: nat, k: nat)
    requires full != [] && j <= k <= |full[0].content|
    ensures |ShownTrimmed(full, meta, j)| <= |ShownTrimmed(full, meta, k)|
  {
    TrimmedGrows(full[0], ToRunes(full[0].content), meta, j, k);
  }

  /** Exactly the first `n` results fit whole. */
  ghost predicate LongestPrefix(full: seq<SearchResult>, meta: Meta, limit: int, n: nat) {
    && n <= |full|
    && (n > 0 ==> |Shown(full, meta, n)| <= limit)
    && forall m: nat :: n < m <= |full| ==> |Shown(full, meta, m)| > limit
  }

  /** Exactly the first `k` runes of the first result's content fit. */
  ghost predicate LongestContent(full: seq<SearchResult>, meta: Meta, limit: int, k: nat) {
    && full != [] && k <= |full[0].content|
    && |ShownTrimmed(full, meta, k)| <= limit
    && forall m: nat :: k < m <= |full[0].content| ==> |ShownTrimmed(full, meta, m)| > limit
  }

  lemma OneLongestPrefix(full: seq<SearchResult>, meta: Meta, limit: int, m: nat, n: nat)
    requires LongestPrefix(full, meta, limit, m) && LongestPrefix(full, meta, limit, n)
    ensures m == n
  {
    hide Shown;
  }

  method FitResults(full: seq<SearchResult>, limit: int, meta: Meta) returns (fit: nat, data: string)
    ensures LongestPrefix(full, meta, limit, fit) && data == Shown(full, meta, fit)
    ensures |Shown(full, meta, 0)| <= |data|
  {
    hide Shown;
    var render := (i: nat) requires i <= |full| => Shown(full, meta, i);
    forall i: nat, j: nat | i <= j <= |full| ensures |render(i)| <= |render(j)| {
      ShownGrows(full, meta, i, j);
    }
    fit, data := LargestFit(|full|, limit, render);
    assert |render(0)| <= |render(fit)|;
    forall m: nat | fit < m <= |full| ensures |Shown(full, meta, m)| > limit {
      assert |render(m)| > limit;
    }
  }

  method FitContent(full: seq<SearchResult>, limit: int, meta: Meta) returns (data: string)
    requires full != []
    ensures |data| > limit <==> |ShownTrimmed(full, meta, 0)| > limit
    ensures |data| <= limit ==> exists k :: LongestContent(full, meta, limit, k) && data == ShownTrimmed(full, meta, k)
  {
    hide ShownTrimmed;
    var n := |full[0].content|;
    var render := (i: nat) requires i <= n => ShownTrimmed(full, meta, i);
    forall i: nat, j: nat | i <= j <= n ensures |render(i)| <= |render(j)| {
      ShownTrimmedGrows(full, meta, i, j);
    }
    var k;
    k, data := LargestFit(n, limit, render);
    assert |render(0)| <= |render(k)|;
    forall m: nat | k < m <= n ensures |ShownTrimmed(full, meta, m)| > limit {
      assert |render(m)| > limit;
    }
    assert |data| <= limit ==> LongestContent(full, meta, limit, k);
  }

  /**
   The best envelope: the longest prefix of results that fits; if not even the first fits whole, the
   longest rune prefix of its content that does; otherwise no results. It exceeds the limit only when
   the envelope without any result does.
   */
  ghost predicate IsBestEnvelope(full: seq<SearchResult>, meta: Meta, limit: int, data: string) {
    && (|data| > limit <==> |Shown(full, meta, 0)| > limit)
    && (|Shown(full, meta, 0)| > limit ==> data == Shown(full, meta, 0))
    && (forall n: nat :: n >= 1 && LongestPrefix(full, meta, limit, n) ==> data == Shown(full, meta, n))
    && (full == [] ==> data == Shown(full, meta, 0))
    && (full != [] && |Shown(full, meta, 0)| <= limit && LongestPrefix(full, meta, limit, 0) ==>
          if |ShownTrimmed(full, meta, 0)| > limit then data == Shown(full, meta, 0)
          else exists k :: LongestContent(full, meta, limit, k) && data == ShownTrimmed(full, meta, k))
  }

  method BuildTruncatedSearchOutput(full: seq<SearchResult>, limit: int, meta: Meta) returns (data: string)
    ensures IsBestEnvelope(full, meta, limit, data)
  {
    var fit, whole := FitResults(full, limit, meta);
    forall n: nat | LongestPrefix(full, meta, limit, n) ensures n == fit {
      OneLongestPrefix(full, meta, limit, n, fit);
    }
    if fit >= 1 || |full| == 0 || |whole| > limit {
      return whole;
    }
    var trimmed := FitContent(full, limit, meta);
    data := if |trimmed| > limit then whole else trimmed;
  }

  // ---- a flag that can lie by one byte ---------------------------------------------------------------

  /**
   `content_truncated: true` can come with the complete content: when no whole result fits but the
   metadata does, that happens exactly if the one-result envelope is over the limit by at most one byte
   plus three for each invalid byte.
   */
  lemma FlagWithCompleteContent(full: seq<SearchResult>, meta: Meta, limit: int, data: string)
    requires full != [] && |Shown(full, meta, 0)| <= limit < |Shown(full, meta, 1)|
    requires IsBestEnvelope(full, meta, limit, data)
    ensures data == ShownTrimmed(full, meta, |full[0].content|)
            <==> |Shown(full, meta, 1)| <= limit + 1 + 3 * BadBytes(full[0].content)
  {
    var n := |full[0].content|;
    CompleteContentSize(full, meta);
    hide Shown, ShownTrimmed, BadBytes;
    forall m: nat | 1 <= m <= |full| ensures |Shown(full, meta, m)| > limit {
      ShownGrows(full, meta, 1, m);
    }
    assert LongestPrefix(full, meta, limit, 0);
    ShownTrimmedGrows(full, meta, 0, n);
    if |ShownTrimmed(full, meta, n)| <= limit {
      var k :| LongestContent(full, meta, limit, k) && data == ShownTrimmed(full, meta, k);
      assert k == n;
    }
  }

  lemma CompleteContentSize(full: seq<SearchResult>, meta: Meta)
    requires full != []
    ensures |ShownTrimmed(full, meta, |full[0].content|)|
            == |Shown(full, meta, 1)| - 1 - 3 * BadBytes(full[0].content)
  {
    var r := full[0];
    var runes := ToRunes(r.content);
    assert full[..1] == [r] && runes[..|runes|] == runes;
    assert r.(content := r.content) == r;
    RunesSize(r.content);
    OneResultSize(r, r.content);
    OneResultSize(r, runes);
    hide Envelope, FixedSize, RenderResults, EscapeAll, ToRunes, BadBytes;
    EnvelopeSize([r], meta, false);
    EnvelopeSize([Trimmed(r, runes, |runes|)], meta, true);
  }

  // ---- what a reader sees ------------------------------------------------------------------------------

  function SeenResult(r: SearchResult): SearchResult {
    SearchResult(ToRunes(r.title), SeenOption(r.url), ToRunes(r.sourceType), ToRunes(r.content), SeenOption(r.updatedAt))
  }

  function SeenOption(t: Option<GoString>): Option<GoString> {
    if t.Some? then Some(ToRunes(t.value)) else None
  }

  function SeenResults(rs: seq<SearchResult>): seq<SearchResult> {
    seq(|rs|, i requires 0 <= i < |rs| => SeenResult(rs[i]))
  }

  function SeenMeta(m: Meta): Meta {
    m.(fullPath := ToRunes(m.fullPath), hint := ToRunes(m.hint))
  }

  lemma AsciiSeen(s: string)
    ensures ToRunes(Ascii(s)) == Ascii(s)
  {
  }

  lemma SeenField(name: string, v: Value, rest: seq<Member>)
    ensures SeenMembers([Field(name, v)] + rest) == [Field(name, Seen(v))] + SeenMembers(rest)
  {
    AsciiSeen(name);
    assert ([Field(name, v)] + rest)[1..] == rest;
  }

  lemma SeenResultMembers(r: SearchResult)
    ensures SeenMembers(ResultMembers(r)) == ResultMembers(SeenResult(r))
  {
    hide ToRunes, Ascii, Field;
    var f4 := [Field("updated_at", StrOrNull(r.updatedAt))];
    var f3 := [Field("content", Str(r.content))] + f4;
    var f2 := [Field("source_type", Str(r.sourceType))] + f3;
    var f1 := [Field("url", StrOrNull(r.url))] + f2;
    SeenField("title", Str(r.title), f1);
    SeenField("url", StrOrNull(r.url), f2);
    SeenField("source_type", Str(r.sourceType), f3);
    SeenField("content", Str(r.content), f4);
    SeenField("updated_at", StrOrNull(r.updatedAt), []);
    assert f4 + [] == f4 && SeenMembers([]) == [];
    assert ResultMembers(r) == [Field("title", Str(r.title))] + f1;
    assert Seen(StrOrNull(r.url)) == StrOrNull(SeenOption(r.url));
    assert Seen(StrOrNull(r.updatedAt)) == StrOrNull(SeenOption(r.updatedAt));
    hide SeenMembers;
  }

  lemma {:induction false} SeenResultValues(rs: seq<SearchResult>)
    ensures SeenItems(ResultValues(rs)) == ResultValues(SeenResults(rs))
  {
    hide ResultMembers, SeenResult;
    if rs != [] {
      SeenResultMembers(rs[0]);
      SeenResultValues(rs[1..]);
      assert ResultValues(rs)[1..] == ResultValues(rs[1..]);
      assert SeenResults(rs)[1..] == SeenResults(rs[1..]);
      assert ResultValues(SeenResults(rs)) == [Obj(ResultMembers(SeenResult(rs[0])))] + ResultValues(SeenResults(rs[1..]));
    }
  }

  lemma SeenTruncation(m: Meta, shown: nat, flag: bool)
    ensures SeenMembers(TruncationMembers(m, shown, flag)) == TruncationMembers(SeenMeta(m), shown, flag)
  {
    hide ToRunes, Ascii, Field;
    var f6 := [Field("hint", Str(m.hint))];
    var f5 := [Field("full_response_path", Str(m.fullPath))] + f6;
    var f4 := [Field("content_truncated", Bool(flag))] + f5;
    var f3 := [Field("total_bytes", Num(m.totalBytes))] + f4;
    var f2 := [Field("shown_results", Num(shown))] + f3;
    var f1 := [Field("total_results", Num(m.totalResults))] + f2;
    SeenField("truncated", Bool(true), f1);
    SeenField("total_results", Num(m.totalResults), f2);
    SeenField("shown_results", Num(shown), f3);
    SeenField("total_bytes", Num(m.totalBytes), f4);
    SeenField("content_truncated", Bool(flag), f5);
    SeenField("full_response_path", Str(m.fullPath), f6);
    SeenField("hint", Str(m.hint), []);
    assert f6 + [] == f6 && SeenMembers([]) == [];
    assert TruncationMembers(m, shown, flag) == [Field("truncated", Bool(true))] + f1;
    assert Seen(Bool(true)) == Bool(true) && Seen(Bool(flag)) == Bool(flag) && Seen(Num(shown)) == Num(shown);
    hide SeenMembers;
  }

  // ---- which member says what --------------------------------------------------------------------------

  /** The value of the first member called `key`. */
  function Lookup(ms: seq<Member>, key: string): Option<Value> {
    if ms == [] then None
    else if ms[0].key == Ascii(key) then Some(ms[0].value)
    else Lookup(ms[1..], key)
  }

  /** An object with `n` members, among them this one. */
  predicate Has(v: Value, key: string, w: Value) {
    v.Obj? && Lookup(v.members, key) == Some(w)
  }

  function TextOrNull(t: Option<GoString>): Value {
    match t case None => Null case Some(s) => Str(ToRunes(s))
  }

  /** `v` describes the result `r`: every field under its own name, and nothing else. */
  ghost predicate DescribesResult(v: Value, r: SearchResult) {
    && v.Obj? && |v.members| == 5
    && Has(v, "title", Str(ToRunes(r.title))) && Has(v, "url", TextOrNull(r.url))
    && Has(v, "source_type", Str(ToRunes(r.sourceType))) && Has(v, "content", Str(ToRunes(r.content)))
    && Has(v, "updated_at", TextOrNull(r.updatedAt))
  }

  /** `v` lists exactly these results, in order. */
  ghost predicate DescribesResults(v: Value, rs: seq<SearchResult>) {
    v.Arr? && |v.items| == |rs| && forall i :: 0 <= i < |rs| ==> DescribesResult(v.items[i], rs[i])
  }

  /** `v` is the truncation object for this many results, of which this many are shown. */
  ghost predicate DescribesTruncation(v: Value, total: nat, shown: nat, totalBytes: nat, contentTruncated: bool,
                                      fullPath: GoString, hint: GoString)
  {
    && v.Obj? && |v.members| == 7
    && Has(v, "truncated", Bool(true)) && Has(v, "total_results", Num(total)) && Has(v, "shown_results", Num(shown))
    && Has(v, "total_bytes", Num(totalBytes)) && Has(v, "content_truncated", Bool(contentTruncated))
    && Has(v, "full_response_path", Str(ToRunes(fullPath))) && Has(v, "hint", Str(ToRunes(hint)))
  }

  /** The document for all results. */
  ghost predicate DescribesAll(doc: Value, rs: seq<SearchResult>) {
    && doc.Obj? && |doc.members| == 1
    && Lookup(doc.members, "results").Some? && DescribesResults(Lookup(doc.members, "results").value, rs)
  }

  /** The envelope for the results shown. */
  ghost predicate DescribesSome(doc: Value, shown: seq<SearchResult>, total: nat, totalBytes: nat, contentTruncated: bool,
                                fullPath: GoString, hint: GoString)
  {
    && doc.Obj? && |doc.members| == 2
    && Lookup(doc.members, "results").Some? && DescribesResults(Lookup(doc.members, "results").value, shown)
    && Lookup(doc.members, "truncation").Some?
    && DescribesTruncation(Lookup(doc.members, "truncation").value, total, |shown|, totalBytes, contentTruncated, fullPath, hint)
  }

  /** Whole results from the front, or the front of the first one's content. */
  ghost predicate IsFront(full: seq<SearchResult>, shown: seq<SearchResult>, contentTruncated: bool) {
    if contentTruncated then
      full != [] && exists k: nat ::
        k <= |full[0].content| && shown == [full[0].(content := ToRunes(full[0].content)[..k])]
    else shown <= full
  }

  lemma {:induction false} LookupAt(ms: seq<Member>, key: string, i: nat)
    requires i < |ms| && ms[i].key == Ascii(key) && forall j :: 0 <= j < i ==> ms[j].key != Ascii(key)
    ensures Lookup(ms, key) == Some(ms[i].value)
  {
    if i > 0 {
      LookupAt(ms[1..], key, i - 1);
    }
  }

  lemma ResultDescribed(r: SearchResult)
    ensures DescribesResult(Obj(ResultMembers(SeenResult(r))), r)
  {
    hide ToRunes;
    var ms := ResultMembers(SeenResult(r));
    assert |Ascii("title")| == 5 && |Ascii("url")| == 3 && |Ascii("source_type")| == 11;
    assert |Ascii("content")| == 7 && |Ascii("updated_at")| == 10;
    hide Ascii, Lookup;
    LookupAt(ms, "title", 0);
    LookupAt(ms, "url", 1);
    LookupAt(ms, "source_type", 2);
    LookupAt(ms, "content", 3);
    LookupAt(ms, "updated_at", 4);
  }

  lemma ResultsDescribed(rs: seq<SearchResult>)
    ensures DescribesResults(Arr(ResultValues(SeenResults(rs))), rs)
  {
    hide DescribesResult, ResultMembers, SeenResult;
    forall i | 0 <= i < |rs| ensures DescribesResult(ResultValues(SeenResults(rs))[i], rs[i]) {
      ResultDescribed(rs[i]);
    }
  }

  lemma TruncationDescribed(m: Meta, shown: nat, flag: bool)
    ensures DescribesTruncation(Obj(TruncationMembers(SeenMeta(m), shown, flag)), m.totalResults, shown, m.totalBytes, flag,
                                m.fullPath, m.hint)
  {
    hide ToRunes;
    var ms := TruncationMembers(SeenMeta(m), shown, flag);
    assert |Ascii("truncated")| == 9 && |Ascii("total_results")| == 13 && |Ascii("shown_results")| == 13;
    assert Ascii("total_results")[0] == Rune('t' as int) && Ascii("shown_results")[0] == Rune('s' as int);
    assert |Ascii("total_bytes")| == 11 && |Ascii("content_truncated")| == 17;
    assert |Ascii("full_response_path")| == 18 && |Ascii("hint")| == 4;
    hide Ascii, Lookup;
    LookupAt(ms, "truncated", 0);
    LookupAt(ms, "total_results", 1);
    LookupAt(ms, "shown_results", 2);
    LookupAt(ms, "total_bytes", 3);
    LookupAt(ms, "content_truncated", 4);
    LookupAt(ms, "full_response_path", 5);
    LookupAt(ms, "hint", 6);
  }

  lemma EnvelopeDescribed(rs: seq<SearchResult>, m: Meta, flag: bool)
    ensures DescribesSome(Obj(EnvelopeMembers(SeenResults(rs), SeenMeta(m), flag)), rs, m.totalResults, m.totalBytes, flag,
                          m.fullPath, m.hint)
  {
    ResultsDescribed(rs);
    TruncationDescribed(m, |rs|, flag);
    var ms := EnvelopeMembers(SeenResults(rs), SeenMeta(m), flag);
    assert |Ascii("results")| == 7 && |Ascii("truncation")| == 10;
    hide Ascii, Lookup, DescribesResults, DescribesTruncation, ResultValues, TruncationMembers;
    LookupAt(ms, "results", 0);
    LookupAt(ms, "truncation", 1);
  }

  lemma AllDescribed(rs: seq<SearchResult>)
    ensures DescribesAll(Obj(FullMembers(SeenResults(rs))), rs)
  {
    ResultsDescribed(rs);
    hide DescribesResults, ResultValues, Ascii;
  }

  /** A JSON reader gets from an envelope the results it shows and its metadata, each field under its own name. */
  lemma EnvelopeReadsBack(rs: seq<SearchResult>, m: Meta, flag: bool)
    ensures var doc := ReadDocument(Envelope(rs, m, flag));
            && doc.Some?
            && DescribesSome(doc.value, rs, m.totalResults, m.totalBytes, flag, m.fullPath, m.hint)
  {
    EnvelopeDescribed(rs, m, flag);
    hide DescribesSome;
    DocumentReadsBack(Obj(EnvelopeMembers(rs, m, flag)));
    SeenResultValues(rs);
    SeenTruncation(m, |rs|, flag);
    hide ReadDocument, ResultValues, TruncationMembers, Field, Pretty;
    var results, truncation := Arr(ResultValues(rs)), Obj(TruncationMembers(m, |rs|, flag));
    assert Seen(results) == Arr(ResultValues(SeenResults(rs)));
    assert Seen(truncation) == Obj(TruncationMembers(SeenMeta(m), |rs|, flag));
    SeenPair("results", results, "truncation", truncation);
    assert Seen(Obj(EnvelopeMembers(rs, m, flag))) == Obj(SeenMembers(EnvelopeMembers(rs, m, flag)));
  }

  lemma SeenPair(name: string, v: Value, name': string, v': Value)
    ensures SeenMembers([Field(name, v), Field(name', v')]) == [Field(name, Seen(v)), Field(name', Seen(v'))]
    ensures SeenMembers([Field(name, v)]) == [Field(name, Seen(v))]
  {
    hide Seen, Ascii, ToRunes, Field;
    assert SeenMembers([]) == [];
    SeenField(name', v', []);
    SeenField(name, v, [Field(name', v')]);
    SeenField(name, v, []);
    assert [Field(name', v')] + [] == [Field(name', v')] && [Field(name, v)] + [] == [Field(name, v)];
    assert [Field(name, v)] + [Field(name', v')] == [Field(name, v), Field(name', v')];
  }

  /** The untruncated document reads back as all results. */
  lemma FullReadsBack(rs: seq<SearchResult>)
    ensures ReadDocument(RenderFull(rs)).Some? && DescribesAll(ReadDocument(RenderFull(rs)).value, rs)
  {
    AllDescribed(rs);
    hide DescribesAll;
    DocumentReadsBack(Obj(FullMembers(rs)));
    SeenResultValues(rs);
    hide ReadDocument, ResultValues, Field, Pretty;
    SeenPair("results", Arr(ResultValues(rs)), "", Null);
    assert Seen(Arr(ResultValues(rs))) == Arr(ResultValues(SeenResults(rs)));
    assert Seen(Obj(FullMembers(rs))) == Obj(SeenMembers(FullMembers(rs)));
  }

  /** Every output is valid JSON, whatever the limit: a reader finds the results shown, and the metadata. */
  lemma BestEnvelopeReadsBack(full: seq<SearchResult>, meta: Meta, limit: int, data: string)
    requires IsBestEnvelope(full, meta, limit, data)
    ensures ReadDocument(data).Some?
    ensures exists shown, flag :: IsFront(full, shown, flag)
                                  && DescribesSome(ReadDocument(data).value, shown, meta.totalResults, meta.totalBytes, flag,
                                                   meta.fullPath, meta.hint)
  {
    var fit := BestFit(full, meta, limit);
    hide ReadDocument, Envelope, DescribesSome;
    if fit >= 1 || full == [] || |Shown(full, meta, 0)| > limit || |ShownTrimmed(full, meta, 0)| > limit {
      EnvelopeReadsBack(full[..fit], meta, false);
      EnvelopeReadsBack(full[..0], meta, false);
    } else {
      var k :| LongestContent(full, meta, limit, k) && data == ShownTrimmed(full, meta, k);
      EnvelopeReadsBack([Trimmed(full[0], ToRunes(full[0].content), k)], meta, true);
    }
  }

  /** Some count is the longest prefix that fits. */
  lemma BestFit(full: seq<SearchResult>, meta: Meta, limit: int) returns (fit: nat)
    ensures LongestPrefix(full, meta, limit, fit)
  {
    hide Shown;
    fit := |full|;
    while fit > 0 && |Shown(full, meta, fit)| > limit
      invariant fit <= |full|
      invariant forall m: nat :: fit < m <= |full| ==> |Shown(full, meta, m)| > limit
    {
      fit := fit - 1;
    }
  }

  // ---- the decision --------------------------------------------------------------------------------------

  const HINT := "output was reduced to fit the output limit; the complete response is at full_response_path"

  function MetaFor(results: seq<SearchResult>, path: GoString): Meta {
    Meta(|results|, |RenderFull(results)|, path, Ascii(HINT))
  }

  /** What goes to stdout before the final newline; `saved` is the temp file, None if it could not be written. */
  method WriteSearchJSON(results: seq<SearchResult>, truncateAt: int, saved: Option<GoString>) returns (out: string)
    ensures truncateAt <= 0 || |RenderFull(results)| <= truncateAt || saved.None? ==> out == RenderFull(results)
    ensures 0 < truncateAt < |RenderFull(results)| && saved.Some? ==>
              IsBestEnvelope(results, MetaFor(results, saved.value), truncateAt, out)
    ensures ReadDocument(out).Some?
    ensures truncateAt <= 0 || |RenderFull(results)| <= truncateAt || saved.None? ==>
              DescribesAll(ReadDocument(out).value, results)
    ensures 0 < truncateAt < |RenderFull(results)| && saved.Some? ==>
              exists shown, flag :: IsFront(results, shown, flag)
                                    && DescribesSome(ReadDocument(out).value, shown, |results|, |RenderFull(results)|, flag,
                                                     saved.value, Ascii(HINT))
  {
    hide ReadDocument, IsBestEnvelope, IsFront, DescribesSome, DescribesAll, RenderFull, Ascii;
    var data := RenderFull(results);
    FullReadsBack(results);
    if truncateAt <= 0 || |data| <= truncateAt || saved.None? {
      return data;
    }
    out := BuildTruncatedSearchOutput(results, truncateAt, MetaFor(results, saved.value));
    BestEnvelopeReadsBack(results, MetaFor(results, saved.value), truncateAt, out);
  }

  // ---- a run in which the flag lies ------------------------------------------------------------------------

  lemma {:induction false} EscapeLonger(t: GoString)
    ensures |EscapeAll(t)| >= |t|
  {
    if t != [] {
      EscapeLonger(t[..|t| - 1]);
      EscapeStarts(t[|t| - 1]);
    }
  }

  lemma {:induction false} DecimalNarrow(n: nat)
    ensures |Decimal(n)| <= 1 + n / 10
  {
    if n >= 10 {
      DecimalNarrow(n / 10);
    }
  }

  lemma FullSize(rs: seq<SearchResult>)
    ensures |RenderFull(rs)| >= |RenderResults(rs)|
  {
    hide Line, Quote, Members;
    MembersSize(FullMembers(rs), 1);
    assert |RenderFull(rs)| == 2 + |Line(1)| + |Line(0)| + |Members(FullMembers(rs), 1)|;
  }

  lemma TwoResultsSize(r: SearchResult, q: SearchResult)
    ensures |RenderResults([r, q])| >= |RenderResults([q])|
  {
    var both := ResultValues([r, q]);
    var one := ResultValues([q]);
    assert both == [both[0], both[1]] && both[1..] == one;
    assert Items(both, 2) == Pretty(both[0], 2) + ("," + Line(2) + Items(both[1..], 2));
    hide Line, ResultMembers, ResultValues, Items;
    assert |Pretty(Arr(both), 1)| == 2 + |Line(2)| + |Line(1)| + |Items(both, 2)|;
    assert |Pretty(Arr(one), 1)| == 2 + |Line(2)| + |Line(1)| + |Items(one, 2)|;
  }

  lemma TotalBytesSize(m: Meta)
    ensures FixedSize(m) == FixedSize(m.(totalBytes := 0)) + |Decimal(m.totalBytes)| - 1
  {
    var base := m.(totalBytes := 0);
    var before, after := TruncationMembers(base, 0, false), TruncationMembers(m, 0, false);
    assert after == before[3 := before[3].(value := Num(m.totalBytes))];
    ObjSwap(before, 3, Num(m.totalBytes), 1);
    assert |Pretty(Num(0), 2)| == 1;
    var empty := EnvelopeMembers([], base, false);
    assert EnvelopeMembers([], m, false) == empty[1 := empty[1].(value := Obj(after))];
    ObjSwap(empty, 1, Obj(after), 0);
  }

  /** A short first result and a long second one, cut one byte short of showing the first whole. */
  lemma FlagLies() returns (results: seq<SearchResult>, limit: int)
    ensures |results| == 2 && 0 < limit < |RenderFull(results)|
    ensures forall out :: IsBestEnvelope(results, MetaFor(results, []), limit, out) ==>
              out == ShownTrimmed(results, MetaFor(results, []), |results[0].content|)
  {
    var r := SearchResult([], None, [], [Rune(97)], None);
    var base := Meta(2, 0, [], Ascii(HINT));
    var k := FixedSize(base) + |RenderResults([r])| + 6;
    var long := seq(2 * (if k > 0 then k else 1), _ => Rune(97));
    var q := r.(content := long);
    results := [r, q];
    var meta := MetaFor(results, []);
    var b := |RenderFull(results)|;
    FullSize(results);
    TwoResultsSize(r, q);
    OneResultSize(r, long);
    EscapeLonger(long);
    TotalBytesSize(meta);
    DecimalNarrow(b);
    assert results[..1] == [r] && results[..0] == [];
    assert |RenderResults([])| == 2 && |RenderResults([r])| >= 3;
    hide Envelope, FixedSize, RenderResults, RenderFull, EscapeAll, Ascii;
    EnvelopeSize([r], meta, false);
    EnvelopeSize([], meta, false);
    assert |Decimal(0)| == 1 == |Decimal(1)|;
    limit := |Shown(results, meta, 1)| - 1;
    forall out | IsBestEnvelope(results, meta, limit, out)
      ensures out == ShownTrimmed(results, meta, |results[0].content|)
    {
      FlagWithCompleteContent(results, meta, limit, out);
    }
  }
}
