/**
 Splitting a stream of pages into zip files (backend/scripts/get_wikidocs.py): sanitized names, a fresh
 suffix for a name already in the zip, and a new zip every so many pages.
 */
module WikiZips {
  import opened Base
  import opened Text

  datatype Page = Page(title: string, text: string)

  datatype Entry = Entry(name: string, page: Page)

  // ---- file names -------------------------------------------------------------------------

  const MAX_NAME_LENGTH := 200

  /** Runs of white space become one underscore each. */
  function Underscored(s: string, inSpace: bool): string {
    if s == "" then ""
    else if IsSpace(s[0]) then (if inSpace then "" else "_") + Underscored(s[1..], true)
    else [s[0]] + Underscored(s[1..], false)
  }

  predicate IsNameChar(c: char) {
    'a' <= c <= 'z' || 'A' <= c <= 'Z' || IsDigit(c) || c == '_' || c == '-'
  }

  function SanitizeFilename(title: string): string {
    var kept := Filter(Underscored(title, false), IsNameChar);
    var short := if |kept| > MAX_NAME_LENGTH then kept[..MAX_NAME_LENGTH] else kept;
    if short == "" then "untitled" else short
  }

  lemma SanitizedNames(title: string)
    ensures 1 <= |SanitizeFilename(title)| <= MAX_NAME_LENGTH
    ensures forall c :: c in SanitizeFilename(title) ==> IsNameChar(c)
  {
    var text := Underscored(title, false);
    forall c ensures c in Filter(text, IsNameChar) ==> IsNameChar(c) {
      FilterMember(text, IsNameChar, c);
    }
    assert forall c :: c in "untitled" ==> IsNameChar(c);
  }

  /** Position `p` of a title leaves a character in its name: one that may be in it, or the first of a run of white space. */
  predicate Leaves(title: string, p: nat)
    requires p < |title|
  {
    IsNameChar(title[p]) || (IsSpace(title[p]) && (p == 0 || !IsSpace(title[p - 1])))
  }

  function NameChar(c: char): char {
    if IsSpace(c) then '_' else c
  }

  /** `kept` is what the positions `at` leave, all that leave something from `start` on. */
  ghost predicate KeptAt(title: string, start: nat, at: seq<nat>, kept: string) {
    && |at| == |kept| && (forall i, j :: 0 <= i < j < |at| ==> at[i] < at[j])
    && (forall p: nat :: p in at <==> start <= p < |title| && Leaves(title, p))
    && forall i :: 0 <= i < |at| ==> at[i] < |title| && kept[i] == NameChar(title[at[i]])
  }

  lemma SpacesAreNoNameChars(c: char)
    ensures IsSpace(c) ==> !IsNameChar(c)
  {
  }

  /** What a title leaves from a position on: Underscored looks one character back. */
  lemma {:induction false} KeptFrom(title: string, p: nat) returns (at: seq<nat>)
    requires p <= |title|
    ensures KeptAt(title, p, at, Filter(Underscored(title[p..], p > 0 && IsSpace(title[p - 1])), IsNameChar))
    decreases |title| - p
  {
    hide IsSpace, IsNameChar;
    if p == |title| {
      at := [];
    } else {
      at := KeptFrom(title, p + 1);
      SpacesAreNoNameChars(title[p]);
      SpacesAreNoNameChars('_');
      UnderscoreIsNameChar();
      var rest := title[p..];
      var inSpace := p > 0 && IsSpace(title[p - 1]);
      var tail := Underscored(title[p + 1..], IsSpace(title[p]));
      assert rest[0] == title[p] && rest[1..] == title[p + 1..];
      var head := if !IsSpace(title[p]) then [title[p]] else if inSpace then "" else "_";
      assert Underscored(rest, inSpace) == head + tail;
      HeadKept(head, tail);
      OneMoreKept(title, p, at, Filter(tail, IsNameChar));
      if Leaves(title, p) {
        at := [p] + at;
      } else {
        assert "" + Filter(tail, IsNameChar) == Filter(tail, IsNameChar);
      }
    }
  }

  lemma OneMoreKept(title: string, p: nat, at: seq<nat>, kept: string)
    requires p < |title| && KeptAt(title, p + 1, at, kept)
    ensures if Leaves(title, p) then KeptAt(title, p, [p] + at, [NameChar(title[p])] + kept) else KeptAt(title, p, at, kept)
  {
    hide Leaves, NameChar;
    if Leaves(title, p) {
      var more := [p] + at;
      assert forall i :: 0 <= i < |at| ==> at[i] in at;
      assert forall i :: 1 <= i < |more| ==> more[i] == at[i - 1];
    }
  }

  lemma UnderscoreIsNameChar()
    ensures IsNameChar('_') && !IsSpace('_')
  {
  }

  lemma HeadKept(head: string, tail: string)
    requires |head| <= 1
    ensures Filter(head + tail, IsNameChar)
            == (if head != "" && IsNameChar(head[0]) then head else "") + Filter(tail, IsNameChar)
  {
    hide IsNameChar;
    if head == "" {
      assert head + tail == tail;
    } else {
      assert (head + tail)[0] == head[0] && (head + tail)[1..] == tail && head == [head[0]];
    }
  }

  /**
   A title's name in full: its letters, digits, underscores and hyphens with one underscore for each run of
   white space, in order, the first two hundred of them; "untitled" when there are none.
   */
  lemma SanitizedMeaning(title: string) returns (at: seq<nat>)
    ensures (forall i, j :: 0 <= i < j < |at| ==> at[i] < at[j])
    ensures forall p: nat :: p in at <==> p < |title| && Leaves(title, p)
    ensures var name := SanitizeFilename(title);
            if at == [] then name == "untitled"
            else |name| == (if |at| < 200 then |at| else 200)
                 && forall i :: 0 <= i < |name| ==> at[i] < |title| && name[i] == NameChar(title[at[i]])
  {
    at := KeptFrom(title, 0);
    assert title[0..] == title;
    hide Filter, Underscored, IsSpace, IsNameChar;
  }

  /** The name tried at step `k`: plain, then with suffix _1, _2, ... */
  function Candidate(stem: string, k: nat): string {
    if k == 0 then stem + ".txt" else stem + "_" + Decimal(k) + ".txt"
  }

  lemma CandidatesDiffer(stem: string, j: nat, k: nat)
    requires j != k
    ensures Candidate(stem, j) != Candidate(stem, k)
  {
    var a, b := Candidate(stem, j), Candidate(stem, k);
    if a == b {
      DecimalWidthMonotone(j, j);
      DecimalWidthMonotone(k, k);
      if j == 0 || k == 0 {
        assert false;
      }
      assert a[|stem| + 1..|a| - 4] == Decimal(j) && b[|stem| + 1..|b| - 4] == Decimal(k);
      DecimalInjective(j, k);
    }
  }

  ghost function FirstCandidates(stem: string, n: nat): set<string> {
    set k | 0 <= k < n :: Candidate(stem, k)
  }

  lemma {:induction false} CandidatesCounted(stem: string, n: nat)
    ensures |FirstCandidates(stem, n)| == n
  {
    hide Candidate;
    if n > 0 {
      CandidatesCounted(stem, n - 1);
      forall k | 0 <= k < n - 1 ensures Candidate(stem, k) != Candidate(stem, n - 1) {
        CandidatesDiffer(stem, k, n - 1);
      }
      assert FirstCandidates(stem, n) == FirstCandidates(stem, n - 1) + {Candidate(stem, n - 1)};
    }
  }

  /** `name` is the first candidate for `stem` that is not taken. */
  ghost predicate FirstFree(stem: string, taken: set<string>, name: string) {
    exists t: nat :: name == Candidate(stem, t) && name !in taken && forall k :: 0 <= k < t ==> Candidate(stem, k) in taken
  }

  /** The first page of a title gets the plain name, the next one a suffix. */
  lemma FirstNames(stem: string, name: string)
    ensures FirstFree(stem, {}, name) <==> name == stem + ".txt"
    ensures FirstFree(stem, {stem + ".txt"}, name) <==> name == stem + "_1.txt"
  {
    assert Candidate(stem, 0) == stem + ".txt" && Candidate(stem, 1) == stem + "_1.txt";
    CandidatesDiffer(stem, 0, 1);
    hide Candidate;
  }

  /** The first free candidate; at most one try more than there are names. */
  method FreshName(stem: string, names: set<string>) returns (filename: string, tries: nat)
    ensures filename !in names && filename == Candidate(stem, tries) && tries <= |names|
    ensures forall k :: 0 <= k < tries ==> Candidate(stem, k) in names
    ensures FirstFree(stem, names, filename)
  {
    filename := stem + ".txt";
    var counter := 1;
    while filename in names
      invariant counter >= 1 && filename == Candidate(stem, counter - 1)
      invariant forall k :: 0 <= k < counter - 1 ==> Candidate(stem, k) in names
      invariant counter - 1 <= |names|
      decreases |names| - counter
    {
      CandidatesCounted(stem, counter);
      SubsetSize(FirstCandidates(stem, counter), names);
      filename := stem + "_" + Decimal(counter) + ".txt";
      counter := counter + 1;
    }
    CandidatesCounted(stem, counter - 1);
    SubsetSize(FirstCandidates(stem, counter - 1), names);
    tries := counter - 1;
  }

  // ---- zips ---------------------------------------------------------------------------------

  ghost predicate DistinctNames(zip: seq<Entry>) {
    forall i, j :: 0 <= i < j < |zip| ==> zip[i].name != zip[j].name
  }

  function NameSet(zip: seq<Entry>): set<string> {
    if zip == [] then {} else NameSet(zip[..|zip| - 1]) + {zip[|zip| - 1].name}
  }

  /** Each entry is called after its page's title, with the first suffix that the entries before it left free. */
  ghost predicate NamedByTitle(zip: seq<Entry>) {
    zip == [] ||
      var (init, last) := (zip[..|zip| - 1], zip[|zip| - 1]);
      NamedByTitle(init) && FirstFree(SanitizeFilename(last.page.title), NameSet(init), last.name)
  }

  lemma {:induction false} NameInSet(zip: seq<Entry>, i: nat)
    requires i < |zip|
    ensures zip[i].name in NameSet(zip)
  {
    if i < |zip| - 1 {
      NameInSet(zip[..|zip| - 1], i);
    }
  }

  /** So no name repeats. */
  lemma {:induction false} NamedAreDistinct(zip: seq<Entry>)
    requires NamedByTitle(zip)
    ensures DistinctNames(zip)
  {
    hide NamedByTitle, NameSet;
    if zip != [] {
      var init := zip[..|zip| - 1];
      LastNameIsNew(zip);
      NamedAreDistinct(init);
      forall i | 0 <= i < |init| ensures zip[i].name != zip[|init|].name {
        NameInSet(init, i);
      }
    }
  }

  lemma LastNameIsNew(zip: seq<Entry>)
    requires zip != [] && NamedByTitle(zip)
    ensures NamedByTitle(zip[..|zip| - 1]) && zip[|zip| - 1].name !in NameSet(zip[..|zip| - 1])
  {
    hide SanitizeFilename, Candidate, NameSet;
  }

  lemma NameAppended(zip: seq<Entry>, e: Entry)
    requires NamedByTitle(zip) && FirstFree(SanitizeFilename(e.page.title), NameSet(zip), e.name)
    ensures NamedByTitle(zip + [e]) && NameSet(zip + [e]) == NameSet(zip) + {e.name}
  {
    assert (zip + [e])[..|zip|] == zip;
  }

  function Pages(zip: seq<Entry>): seq<Page> {
    seq(|zip|, i requires 0 <= i < |zip| => zip[i].page)
  }

  function AllPages(zips: seq<seq<Entry>>): seq<Page> {
    if zips == [] then [] else AllPages(zips[..|zips| - 1]) + Pages(zips[|zips| - 1])
  }

  /** Full zips and then one that holds between one and `perZip` pages. */
  ghost predicate WellFilled(zips: seq<seq<Entry>>, perZip: nat) {
    forall z :: 0 <= z < |zips| ==>
      && (if z < |zips| - 1 then |zips[z]| == perZip else 1 <= |zips[z]| <= perZip)
      && NamedByTitle(zips[z])
  }

  function CeilDiv(n: nat, p: nat): nat
    requires p > 0
  {
    (n + p - 1) / p
  }

  lemma {:induction false} PagesCounted(zips: seq<seq<Entry>>, perZip: nat)
    requires zips != [] && WellFilled(zips, perZip)
    ensures |AllPages(zips)| == (|zips| - 1) * perZip + |zips[|zips| - 1]|
  {
    hide NamedByTitle;
    var init, last := zips[..|zips| - 1], zips[|zips| - 1];
    if init != [] {
      PagesCounted(init, perZip);
      assert zips[|init| - 1] == init[|init| - 1];
      assert (|init| - 1) * perZip + perZip == |init| * perZip;
    }
  }

  lemma CountZips(zips: seq<seq<Entry>>, perZip: nat)
    requires perZip > 0 && WellFilled(zips, perZip)
    ensures |zips| == CeilDiv(|AllPages(zips)|, perZip)
  {
    if zips == [] {
      DivUnique(perZip - 1, perZip, 0, perZip - 1);
    } else {
      PagesCounted(zips, perZip);
      hide AllPages, NamedByTitle, CeilDiv;
      CeilOf(|AllPages(zips)|, |zips| - 1, perZip, |zips[|zips| - 1]|);
    }
  }

  lemma CeilOf(n: nat, q: nat, p: nat, r: nat)
    requires 1 <= r <= p && n == q * p + r
    ensures CeilDiv(n, p) == q + 1
  {
    NextMultiple(q, p);
    DivUnique(n + p - 1, p, q + 1, r - 1);
  }

  lemma NextMultiple(q: nat, p: nat)
    ensures (q + 1) * p == q * p + p
  {
  }

  lemma DivUnique(n: nat, p: nat, q: nat, r: nat)
    requires p > 0 && r < p && n == q * p + r
    ensures n / p == q
  {
    var d := n / p;
    assert n == d * p + n % p;
    ProductsApart(d, q, p);
    ProductsApart(q, d, p);
  }

  lemma {:induction false} ProductsApart(a: nat, b: nat, p: nat)
    ensures a < b ==> a * p + p <= b * p
    decreases b
  {
    if a < b {
      ProductsApart(a, b - 1, p);
      assert (b - 1) * p + p == b * p;
    }
  }

  /** The zips written so far, the open one last. */
  function Written(closed: seq<seq<Entry>>, current: seq<Entry>): seq<seq<Entry>> {
    if current == [] then closed else closed + [current]
  }

  ghost predicate AllFull(closed: seq<seq<Entry>>, perZip: nat) {
    forall z :: 0 <= z < |closed| ==> |closed[z]| == perZip && NamedByTitle(closed[z])
  }

  lemma FullClosed(closed: seq<seq<Entry>>, current: seq<Entry>, perZip: nat)
    requires AllFull(closed, perZip) && NamedByTitle(current) && (current == [] || |current| == perZip)
    ensures AllFull(Written(closed, current), perZip)
  {
    hide NamedByTitle;
  }

  /** The first `idx` pages are in, and the books agree. */
  ghost predicate Progress(dataset: seq<Page>, idx: nat, perZip: nat, closed: seq<seq<Entry>>, current: seq<Entry>,
                           names: set<string>)
  {
    && idx <= |dataset|
    && (current == [] ==> idx == 0 && closed == [])
    && |current| <= perZip && NamedByTitle(current) && names == NameSet(current)
    && AllFull(closed, perZip)
    && AllPages(Written(closed, current)) == dataset[..idx]
  }

  lemma ProgressIsWellFilled(dataset: seq<Page>, idx: nat, perZip: nat, closed: seq<seq<Entry>>, current: seq<Entry>,
                             names: set<string>)
    requires Progress(dataset, idx, perZip, closed, current, names)
    ensures WellFilled(Written(closed, current), perZip)
  {
  }

  lemma PagesAppended(closed: seq<seq<Entry>>, current: seq<Entry>, e: Entry)
    ensures AllPages(Written(closed, current + [e])) == AllPages(Written(closed, current)) + [e.page]
  {
  }

  lemma OneMorePage(dataset: seq<Page>, idx: nat)
    requires idx < |dataset|
    ensures dataset[..idx + 1] == dataset[..idx] + [dataset[idx]]
  {
  }

  /** A page added to the open zip. */
  lemma PageAppended(dataset: seq<Page>, idx: nat, perZip: nat, closed: seq<seq<Entry>>, current: seq<Entry>,
                     names: set<string>, name: string)
    requires Progress(dataset, idx, perZip, closed, current, names)
    requires idx < |dataset| && |current| < perZip
    requires FirstFree(SanitizeFilename(dataset[idx].title), names, name)
    ensures Progress(dataset, idx + 1, perZip, closed, current + [Entry(name, dataset[idx])], names + {name})
  {
    hide AllPages, Written, NamedByTitle, NameSet, FirstFree, SanitizeFilename;
    var e := Entry(name, dataset[idx]);
    NameAppended(current, e);
    PagesAppended(closed, current, e);
    OneMorePage(dataset, idx);
  }

  lemma FirstInZip(zips: seq<seq<Entry>>, e: Entry)
    requires FirstFree(SanitizeFilename(e.page.title), {}, e.name)
    ensures NamedByTitle([e]) && NameSet([e]) == {e.name}
    ensures AllPages(Written(zips, [e])) == AllPages(zips) + [e.page]
  {
    hide FirstFree, SanitizeFilename;
    NameAppended([], e);
    assert [] + [e] == [e] && {} + {e.name} == {e.name};
    assert (zips + [[e]])[..|zips|] == zips;
    assert Pages([e]) == [e.page];
  }

  lemma EmptyStart(dataset: seq<Page>, perZip: nat)
    ensures Progress(dataset, 0, perZip, [], [], {})
  {
  }

  /** A page that opens a zip, the full one before it closed. */
  lemma ZipOpened(dataset: seq<Page>, idx: nat, perZip: nat, closed: seq<seq<Entry>>, current: seq<Entry>,
                  names: set<string>, name: string)
    requires Progress(dataset, idx, perZip, closed, current, names)
    requires idx < |dataset| && perZip > 0 && (current == [] || |current| == perZip)
    requires FirstFree(SanitizeFilename(dataset[idx].title), {}, name)
    ensures Progress(dataset, idx + 1, perZip, Written(closed, current), [Entry(name, dataset[idx])], {name})
  {
    var e := Entry(name, dataset[idx]);
    var full := Written(closed, current);
    hide AllPages, Written, NamedByTitle, NameSet, FirstFree, SanitizeFilename, AllFull;
    FullClosed(closed, current, perZip);
    FirstInZip(full, e);
    OneMorePage(dataset, idx);
  }

  /**
   Every available page up to the limit lands in exactly one zip, in order; there are exactly as many zips
   as full loads of them round up to, which is the announced number when the dataset is long enough; all
   but the last are full; entries are named after their titles and no name repeats within a zip.
   */
  method StreamToZips(dataset: seq<Page>, totalPages: nat, pagesPerZip: nat) returns (zips: seq<seq<Entry>>)
    requires pagesPerZip > 0
    ensures var n := if totalPages < |dataset| then totalPages else |dataset|;
            AllPages(zips) == dataset[..n] && |zips| == CeilDiv(n, pagesPerZip)
    ensures totalPages <= |dataset| ==> |zips| == CeilDiv(totalPages, pagesPerZip)
    ensures WellFilled(zips, pagesPerZip)
    ensures forall z :: 0 <= z < |zips| ==> DistinctNames(zips[z])
  {
    hide AllPages, NamedByTitle, NameSet, DistinctNames, SanitizeFilename, Candidate, FirstFree;
    zips := [];
    EmptyStart(dataset, pagesPerZip);
    var current: seq<Entry> := [];
    var names: set<string> := {};
    var pagesInCurrentZip := 0;
    var idx := 0;
    while idx < |dataset| && idx < totalPages
      invariant idx <= |dataset| && idx <= totalPages
      invariant Progress(dataset, idx, pagesPerZip, zips, current, names)
      invariant pagesInCurrentZip == |current|
    {
      ghost var closed, open, used := zips, current, names;
      if pagesInCurrentZip == 0 || pagesInCurrentZip >= pagesPerZip {
        zips := Written(zips, current);
        current, names := [], {};
        pagesInCurrentZip := 0;
      }
      var page := dataset[idx];
      var filename, _ := FreshName(SanitizeFilename(page.title), names);
      if |open| == 0 || |open| >= pagesPerZip {
        ZipOpened(dataset, idx, pagesPerZip, closed, open, used, filename);
        assert [] + [Entry(filename, page)] == [Entry(filename, page)] && {} + {filename} == {filename};
      } else {
        PageAppended(dataset, idx, pagesPerZip, closed, open, used, filename);
      }
      current, names := current + [Entry(filename, page)], names + {filename};
      pagesInCurrentZip := pagesInCurrentZip + 1;
      idx := idx + 1;
    }
    ProgressIsWellFilled(dataset, idx, pagesPerZip, zips, current, names);
    assert idx == if totalPages < |dataset| then totalPages else |dataset|;
    zips := Written(zips, current);
    CountZips(zips, pagesPerZip);
    forall z | 0 <= z < |zips| ensures DistinctNames(zips[z]) {
      NamedAreDistinct(zips[z]);
    }
  }
}
