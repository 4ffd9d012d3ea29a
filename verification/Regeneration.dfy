/**
 The build itself: sections from picks, the whole file from sections, the file from disk to disk.
 The main results say that running it again changes nothing, and when exactly that holds on disk.
 */
module Regeneration {
  import opened Base
  import opened Text
  import opened RecommendedModels

  // ---- one section ------------------------------------------------------------------

  function PicksFor(rs: seq<FamilyRule>, catalog: seq<CatalogModel>, rules: CurationRules, now: Date): (p: Picks)
    ensures |p| == |rs|
  {
    seq(|rs|, i requires 0 <= i < |rs| => SelectForRule(rs[i], catalog, rules, now))
  }

  /** `default_name` after the first `n` rules. */
  function DefaultAfter(section: SectionRules, picks: Picks, n: nat): Option<string>
    requires n <= |picks| == |section.rules|
  {
    if n == 0 then section.pinnedDefault
    else
      var d := DefaultAfter(section, picks, n - 1);
      if d.None? && picks[n - 1].Some? && section.rules[n - 1].isDefaultSource
      then Some(DeriveNativeName(picks[n - 1].value, section))
      else d
  }

  function DefaultName(section: SectionRules, picks: Picks): Option<string>
    requires |picks| == |section.rules|
  {
    DefaultAfter(section, picks, |picks|)
  }

  function NoMatchWarnings(name: string, rs: seq<FamilyRule>, picks: Picks, n: nat): seq<Warning>
    requires n <= |picks| == |rs|
  {
    if n == 0 then []
    else NoMatchWarnings(name, rs, picks, n - 1)
         + (if picks[n - 1].None? then [NoMatch(name, rs[n - 1].title)] else [])
  }

  function Matched(picks: Picks, n: nat): seq<CatalogModel>
    requires n <= |picks|
  {
    if n == 0 then []
    else Matched(picks, n - 1) + (if picks[n - 1].Some? then [picks[n - 1].value] else [])
  }

  /** Entries for the first `n` picks, a repeated native name dropped. */
  function Deduped(section: SectionRules, chosen: seq<CatalogModel>, n: nat): seq<RecommendedModel>
    requires n <= |chosen|
  {
    if n == 0 then []
    else
      var ms := Deduped(section, chosen, n - 1);
      var nativeName := DeriveNativeName(chosen[n - 1], section);
      if NameIndex(ms, nativeName).Some? then ms
      else ms + [RecommendedModel(nativeName, DeriveDisplayName(chosen[n - 1], nativeName, section))]
  }

  function Entries(section: SectionRules, picks: Picks): seq<RecommendedModel> {
    var chosen := Matched(picks, |picks|);
    Deduped(section, chosen, |chosen|)
  }

  function DisplayOf(ms: seq<RecommendedModel>, name: string): Option<string> {
    match NameIndex(ms, name)
    case None => None
    case Some(i) => ms[i].displayName
  }

  /** Display name of a default no rule picked: an override, else the one shown before. */
  function InheritedDisplay(section: SectionRules, defaultName: string, previous: seq<RecommendedModel>): Option<string> {
    if !section.emitDisplayName then None
    else if defaultName in section.displayNameOverrides && section.displayNameOverrides[defaultName] != ""
    then Some(section.displayNameOverrides[defaultName])
    else DisplayOf(previous, defaultName)
  }

  function PreviousView(previous: Option<ProviderSection>): seq<RecommendedModel> {
    if previous.None? then [] else Visible(previous.value)
  }

  /** Display name of the entry that goes first: its own when a rule picked it. */
  function DefaultDisplay(section: SectionRules, defaultName: string, ms: seq<RecommendedModel>,
                          previous: Option<ProviderSection>): Option<string>
  {
    match NameIndex(ms, defaultName)
    case None => InheritedDisplay(section, defaultName, PreviousView(previous))
    case Some(i) => ms[i].displayName
  }

  /** `ms` without its entry called `name`. */
  function Others(ms: seq<RecommendedModel>, name: string): seq<RecommendedModel> {
    match NameIndex(ms, name)
    case None => ms
    case Some(i) => ms[..i] + ms[i + 1..]
  }

  function DefaultFirst(section: SectionRules, defaultName: string, ms: seq<RecommendedModel>,
                        previous: Option<ProviderSection>): seq<RecommendedModel>
  {
    [RecommendedModel(defaultName, DefaultDisplay(section, defaultName, ms, previous))] + Others(ms, defaultName)
  }

  /** The section a run produces, given what its rules picked, with the warnings it adds. */
  function SectionFor(name: string, section: SectionRules, picks: Picks, previous: Option<ProviderSection>)
    : Result<(ProviderSection, seq<Warning>), BuildError>
    requires |picks| == |section.rules|
  {
    var warnings := NoMatchWarnings(name, section.rules, picks, |picks|);
    match DefaultName(section, picks)
    case None =>
      if previous.None? then Err(NoDefaultModel(name))
      else Ok((previous.value, warnings + [KeptUnchanged(name)]))
    case Some(d) =>
      Ok((ProviderSection(d, DefaultFirst(section, d, Entries(section, picks), previous)), warnings))
  }

  lemma NameIndexAppend(ms: seq<RecommendedModel>, m: RecommendedModel)
    ensures forall n :: NameIndex(ms + [m], n).Some? <==> NameIndex(ms, n).Some? || n == m.name
  {
    forall n ensures NameIndex(ms + [m], n).Some? <==> NameIndex(ms, n).Some? || n == m.name {
      assert (ms + [m])[|ms|] == m;
      assert forall i :: 0 <= i < |ms| ==> (ms + [m])[i] == ms[i];
    }
  }

  /** The middle loop: one entry for each native name, at its first pick. */
  method DedupeNames(section: SectionRules, picks: seq<CatalogModel>) returns (models: seq<RecommendedModel>)
    ensures models == Deduped(section, picks, |picks|)
  {
    hide DeriveNativeName, DeriveDisplayName, NameIndex;
    models := [];
    assert forall n :: NameIndex(models, n).None?;
    var seenNames: set<string> := {};
    for i := 0 to |picks|
      invariant models == Deduped(section, picks, i)
      invariant forall n :: n in seenNames <==> NameIndex(models, n).Some?
    {
      var nativeName := DeriveNativeName(picks[i], section);
      if nativeName !in seenNames {
        NameIndexAppend(models, RecommendedModel(nativeName, DeriveDisplayName(picks[i], nativeName, section)));
        seenNames := seenNames + {nativeName};
        models := models + [RecommendedModel(nativeName, DeriveDisplayName(picks[i], nativeName, section))];
      }
    }
  }

  /** The first loop: the matched picks, the default they give, and a warning for each rule without one. */
  method PickAll(name: string, section: SectionRules, catalog: seq<CatalogModel>, rules: CurationRules, now: Date,
                 warnings: seq<Warning>)
    returns (defaultName: Option<string>, picks: seq<CatalogModel>, warnings': seq<Warning>)
    ensures var all := PicksFor(section.rules, catalog, rules, now);
            && defaultName == DefaultName(section, all) && picks == Matched(all, |all|)
            && warnings' == warnings + NoMatchWarnings(name, section.rules, all, |all|)
  {
    hide DeriveNativeName, SelectForRule;
    ghost var all := PicksFor(section.rules, catalog, rules, now);
    defaultName := section.pinnedDefault;
    picks, warnings' := [], warnings;
    for i := 0 to |section.rules|
      invariant defaultName == DefaultAfter(section, all, i)
      invariant picks == Matched(all, i)
      invariant warnings' == warnings + NoMatchWarnings(name, section.rules, all, i)
    {
      var rule := section.rules[i];
      var pick := SelectForRule(rule, catalog, rules, now);
      if pick.None? {
        warnings' := warnings' + [NoMatch(name, rule.title)];
      } else {
        picks := picks + [pick.value];
        if rule.isDefaultSource && defaultName.None? {
          defaultName := Some(DeriveNativeName(pick.value, section));
        }
      }
    }
  }

  method BuildSection(name: string, section: SectionRules, catalog: seq<CatalogModel>,
                      previous: Option<ProviderSection>, rules: CurationRules, now: Date, warnings: seq<Warning>)
    returns (built: Result<ProviderSection, BuildError>, warnings': seq<Warning>)
    ensures match SectionFor(name, section, PicksFor(section.rules, catalog, rules, now), previous)
            case Err(e) => built == Err(e)
            case Ok((s, added)) => built == Ok(s) && warnings' == warnings + added
    ensures NoDefault(section, PicksFor(section.rules, catalog, rules, now)) ==>
              match previous
              case None => built == Err(NoDefaultModel(name))
              case Some(p) => built == Ok(p) && warnings' != [] && warnings'[|warnings'| - 1] == KeptUnchanged(name)
  {
    ghost var all := PicksFor(section.rules, catalog, rules, now);
    NoDefaultMeaning(section, all);
    hide DeriveNativeName, DeriveDisplayName, Visible, InheritedDisplay, PicksFor, DefaultAfter, Matched, NoMatchWarnings,
      NoDefault, DefaultName, DefaultFirst, Deduped;
    var defaultName, picks;
    defaultName, picks, warnings' := PickAll(name, section, catalog, rules, now, warnings);
    if defaultName.None? {
      if previous.None? {
        return Err(NoDefaultModel(name)), warnings';
      }
      return Ok(previous.value), warnings' + [KeptUnchanged(name)];
    }

    var models := DedupeNames(section, picks);
    models := MoveDefaultFirst(section, defaultName.value, models, previous);
    built := Ok(ProviderSection(defaultName.value, models));
  }

  /** The default's entry to the front; one is made if no rule picked it. */
  method MoveDefaultFirst(section: SectionRules, defaultName: string, models: seq<RecommendedModel>,
                          previous: Option<ProviderSection>)
    returns (reordered: seq<RecommendedModel>)
    ensures reordered == DefaultFirst(section, defaultName, models, previous)
  {
    hide Visible, InheritedDisplay;
    var defaultIndex := NameIndex(models, defaultName);
    if defaultIndex.None? {
      var view := VisibleModels(previous);
      var displayName := InheritedDisplay(section, defaultName, view);
      reordered := [RecommendedModel(defaultName, displayName)] + models;
    } else {
      var i := defaultIndex.value;
      reordered := [models[i]] + (models[..i] + models[i + 1..]);
    }
  }

  /** `_sections_equal`: the same runtime-visible view. */
  predicate SectionsEqual(a: ProviderSection, b: ProviderSection) {
    a.defaultModel == b.defaultModel && Visible(a) == Visible(b)
  }

  lemma {:induction false} DedupedDistinct(section: SectionRules, chosen: seq<CatalogModel>, n: nat)
    requires n <= |chosen|
    ensures DistinctNames(Deduped(section, chosen, n))
  {
    hide DeriveNativeName, DeriveDisplayName;
    if n > 0 {
      DedupedDistinct(section, chosen, n - 1);
    }
  }

  lemma OthersMeaning(ms: seq<RecommendedModel>, name: string)
    requires DistinctNames(ms)
    ensures DistinctNames(Others(ms, name))
    ensures forall m :: m in Others(ms, name) <==> m in ms && m.name != name
  {
  }

  /** What a freshly built section shows: the default, then every other entry in pick order. */
  lemma FreshView(section: SectionRules, picks: Picks, d: string, previous: Option<ProviderSection>)
    requires |picks| == |section.rules|
    ensures var ms := Entries(section, picks);
            Visible(ProviderSection(d, DefaultFirst(section, d, ms, previous)))
            == [RecommendedModel(d, Shown(DefaultDisplay(section, d, ms, previous)))] + Others(ms, d)
  {
    var chosen := Matched(picks, |picks|);
    DedupedDistinct(section, chosen, |chosen|);
    var ms := Entries(section, picks);
    OthersMeaning(ms, d);
    var head, others := RecommendedModel(d, DefaultDisplay(section, d, ms, previous)), Others(ms, d);
    var models := [head] + others;
    assert models == DefaultFirst(section, d, ms, previous);
    forall i, j | 0 <= i < j < |models| ensures models[i].name != models[j].name {
      assert models[j] == others[j - 1] && models[j] in others;
      assert i > 0 ==> models[i] == others[i - 1];
    }
    VisibleOfDefaultFirst(ProviderSection(d, models));
    assert models[1..] == others;
  }

  /** The default is the pin, else the native name of the first default-source rule that matched. */
  lemma {:induction false} DefaultMeaning(section: SectionRules, picks: Picks, n: nat)
    requires n <= |picks| == |section.rules|
    ensures var d := DefaultAfter(section, picks, n);
            && (section.pinnedDefault.Some? ==> d == section.pinnedDefault)
            && (d.None? <==> section.pinnedDefault.None?
                             && forall i :: 0 <= i < n && section.rules[i].isDefaultSource ==> picks[i].None?)
            && (forall i :: section.pinnedDefault.None? && 0 <= i < n
                            && section.rules[i].isDefaultSource && picks[i].Some?
                            && (forall j :: 0 <= j < i && section.rules[j].isDefaultSource ==> picks[j].None?)
                            ==> d == Some(DeriveNativeName(picks[i].value, section)))
  {
    if n > 0 {
      DefaultMeaning(section, picks, n - 1);
    }
  }

  /** Neither a pin nor a default-source rule that matched. */
  ghost predicate NoDefault(section: SectionRules, picks: Picks)
    requires |picks| == |section.rules|
  {
    section.pinnedDefault.None? && forall i :: 0 <= i < |picks| && section.rules[i].isDefaultSource ==> picks[i].None?
  }

  lemma NoDefaultMeaning(section: SectionRules, picks: Picks)
    requires |picks| == |section.rules|
    ensures DefaultName(section, picks).None? <==> NoDefault(section, picks)
  {
    DefaultMeaning(section, picks, |picks|);
  }

  /** Without a default the previous section is kept whole, with a warning at the end; there has to be one. */
  lemma KeptMeaning(name: string, section: SectionRules, picks: Picks, previous: Option<ProviderSection>)
    requires |picks| == |section.rules|
    ensures var r := SectionFor(name, section, picks, previous);
            && (r.Err? <==> NoDefault(section, picks) && previous.None?)
            && (r.Err? ==> r.error == NoDefaultModel(name))
            && (NoDefault(section, picks) && previous.Some? ==>
                  r.value.0 == previous.value && r.value.1 != [] && r.value.1[|r.value.1| - 1] == KeptUnchanged(name))
            && (!NoDefault(section, picks) ==> forall w :: w in r.value.1 ==> w.NoMatch?)
  {
    NoDefaultMeaning(section, picks);
    var at := UnmatchedWarned(name, section.rules, picks, |picks|);
  }

  /** One warning for each rule without a pick, in rule order. */
  lemma {:induction false} UnmatchedWarned(name: string, rs: seq<FamilyRule>, picks: Picks, n: nat) returns (at: seq<nat>)
    requires n <= |picks| == |rs|
    ensures var ws := NoMatchWarnings(name, rs, picks, n);
            && |at| == |ws| && (forall j, k :: 0 <= j < k < |at| ==> at[j] < at[k])
            && (forall i: nat :: i in at <==> i < n && picks[i].None?)
            && forall k :: 0 <= k < |ws| ==> at[k] < n && ws[k] == NoMatch(name, rs[at[k]].title)
  {
    at := [];
    if n > 0 {
      at := UnmatchedWarned(name, rs, picks, n - 1);
      if picks[n - 1].None? {
        at := at + [n - 1];
      }
    }
  }

  /** Every pick's native name is listed. */
  lemma {:induction false} DedupedCovers(section: SectionRules, chosen: seq<CatalogModel>, n: nat, i: nat)
    requires i < n <= |chosen|
    ensures NameIndex(Deduped(section, chosen, n), DeriveNativeName(chosen[i], section)).Some?
  {
    hide DeriveNativeName, DeriveDisplayName, NameIndex;
    var ms, last := Deduped(section, chosen, n - 1), chosen[n - 1];
    var nativeName := DeriveNativeName(last, section);
    NameIndexAppend(ms, RecommendedModel(nativeName, DeriveDisplayName(last, nativeName, section)));
    if i < n - 1 {
      DedupedCovers(section, chosen, n - 1, i);
    }
  }

  /** Entry `m` comes from pick `i`, the first with that native name. */
  ghost predicate ComesFrom(section: SectionRules, chosen: seq<CatalogModel>, m: RecommendedModel, i: nat) {
    && i < |chosen|
    && m.name == DeriveNativeName(chosen[i], section)
    && m.displayName == DeriveDisplayName(chosen[i], m.name, section)
    && forall j :: 0 <= j < i ==> DeriveNativeName(chosen[j], section) != m.name
  }

  /** Each entry carries the display name of the first pick so named. */
  lemma {:induction false} DedupedSource(section: SectionRules, chosen: seq<CatalogModel>, n: nat, m: RecommendedModel)
    requires n <= |chosen| && m in Deduped(section, chosen, n)
    ensures exists i :: 0 <= i < n && ComesFrom(section, chosen, m, i)
  {
    hide DeriveNativeName, DeriveDisplayName;
    if m in Deduped(section, chosen, n - 1) {
      DedupedSource(section, chosen, n - 1, m);
    } else {
      forall j | 0 <= j < n - 1 ensures DeriveNativeName(chosen[j], section) != m.name {
        DedupedCovers(section, chosen, n - 1, j);
      }
      assert ComesFrom(section, chosen, m, n - 1);
    }
  }

  /** Pick `i` is the first with its native name. */
  ghost predicate FirstPick(section: SectionRules, picks: Picks, i: nat) {
    && i < |picks| && picks[i].Some?
    && forall j :: 0 <= j < i && picks[j].Some? ==>
         DeriveNativeName(picks[j].value, section) != DeriveNativeName(picks[i].value, section)
  }

  /** `ms` are the entries of the picks at the ascending positions `at`: those first with their native name. */
  ghost predicate EntriesAt(section: SectionRules, picks: Picks, n: nat, at: seq<nat>, ms: seq<RecommendedModel>) {
    && |at| == |ms| && (forall j, k :: 0 <= j < k < |at| ==> at[j] < at[k])
    && (forall i: nat :: i in at <==> i < n && FirstPick(section, picks, i))
    && forall k :: 0 <= k < |ms| ==>
         at[k] < |picks| && picks[at[k]].Some? && ms[k].name == DeriveNativeName(picks[at[k]].value, section)
         && ms[k].displayName == DeriveDisplayName(picks[at[k]].value, ms[k].name, section)
  }

  /** Every pick so far has an entry of its native name. */
  lemma PicksListed(section: SectionRules, picks: Picks, n: nat, at: seq<nat>, ms: seq<RecommendedModel>, i: nat)
    requires n <= |picks| && EntriesAt(section, picks, n, at, ms) && i < n && picks[i].Some?
    ensures NameIndex(ms, DeriveNativeName(picks[i].value, section)).Some?
    decreases i
  {
    hide DeriveNativeName, DeriveDisplayName;
    if FirstPick(section, picks, i) {
      var k :| 0 <= k < |at| && at[k] == i;
      assert ms[k].name == DeriveNativeName(picks[i].value, section);
    } else {
      var j :| 0 <= j < i && picks[j].Some?
               && DeriveNativeName(picks[j].value, section) == DeriveNativeName(picks[i].value, section);
      PicksListed(section, picks, n, at, ms, j);
    }
  }

  lemma {:induction false} DedupedPrefix(section: SectionRules, chosen: seq<CatalogModel>, more: seq<CatalogModel>, n: nat)
    requires n <= |chosen|
    ensures Deduped(section, chosen + more, n) == Deduped(section, chosen, n)
  {
    hide DeriveNativeName, DeriveDisplayName, NameIndex;
    if n > 0 {
      DedupedPrefix(section, chosen, more, n - 1);
    }
  }

  /** The entries of the first `n` rules. */
  function EntriesOf(section: SectionRules, picks: Picks, n: nat): seq<RecommendedModel>
    requires n <= |picks|
  {
    Deduped(section, Matched(picks, n), |Matched(picks, n)|)
  }

  lemma {:induction false} FirstPicksListed(section: SectionRules, picks: Picks, n: nat) returns (at: seq<nat>)
    requires n <= |picks|
    ensures EntriesAt(section, picks, n, at, EntriesOf(section, picks, n))
  {
    hide *;
    if n == 0 {
      at := [];
      NoEntries(section, picks);
    } else {
      at := FirstPicksListed(section, picks, n - 1);
      NextEntry(section, picks, n - 1);
      at := NextPick(section, picks, n - 1, at, EntriesOf(section, picks, n - 1));
    }
  }

  lemma NoEntries(section: SectionRules, picks: Picks)
    ensures EntriesAt(section, picks, 0, [], EntriesOf(section, picks, 0))
  {
  }

  lemma NextPick(section: SectionRules, picks: Picks, n: nat, before: seq<nat>, ms: seq<RecommendedModel>) returns (at: seq<nat>)
    requires n < |picks| && EntriesAt(section, picks, n, before, ms)
    ensures EntriesAt(section, picks, n + 1, at, OneMoreEntry(section, picks[n], ms))
  {
    at := before;
    if picks[n].Some? {
      NewPick(section, picks, n, at, ms);
      hide EntriesAt, FirstPick, DeriveNativeName, DeriveDisplayName, NameIndex;
      var nativeName := DeriveNativeName(picks[n].value, section);
      var entry := RecommendedModel(nativeName, DeriveDisplayName(picks[n].value, nativeName, section));
      if NameIndex(ms, nativeName).None? {
        PickAdded(section, picks, n, at, ms, entry);
        at := at + [n];
      } else {
        PickRepeated(section, picks, n, at, ms);
      }
    } else {
      NoNewPick(section, picks, n, at, ms);
    }
  }

  /** The entries with one more pick, if it is new. */
  function OneMoreEntry(section: SectionRules, pick: Option<CatalogModel>, ms: seq<RecommendedModel>): seq<RecommendedModel> {
    if pick.None? then ms
    else
      var nativeName := DeriveNativeName(pick.value, section);
      if NameIndex(ms, nativeName).Some? then ms
      else ms + [RecommendedModel(nativeName, DeriveDisplayName(pick.value, nativeName, section))]
  }

  lemma NextEntry(section: SectionRules, picks: Picks, n: nat)
    requires n < |picks|
    ensures EntriesOf(section, picks, n + 1) == OneMoreEntry(section, picks[n], EntriesOf(section, picks, n))
  {
    hide DeriveNativeName, DeriveDisplayName, NameIndex;
    var before := Matched(picks, n);
    if picks[n].Some? {
      DedupedPrefix(section, before, [picks[n].value], |before|);
      assert Matched(picks, n + 1) == before + [picks[n].value];
    } else {
      assert Matched(picks, n + 1) == before;
    }
  }

  lemma NoNewPick(section: SectionRules, picks: Picks, n: nat, at: seq<nat>, ms: seq<RecommendedModel>)
    requires n < |picks| && picks[n].None? && EntriesAt(section, picks, n, at, ms)
    ensures EntriesAt(section, picks, n + 1, at, ms)
  {
    hide DeriveNativeName, DeriveDisplayName;
    PickRepeated(section, picks, n, at, ms);
  }

  lemma PickAdded(section: SectionRules, picks: Picks, n: nat, at: seq<nat>, ms: seq<RecommendedModel>, m: RecommendedModel)
    requires n < |picks| && picks[n].Some? && EntriesAt(section, picks, n, at, ms) && FirstPick(section, picks, n)
    requires m.name == DeriveNativeName(picks[n].value, section)
    requires m.displayName == DeriveDisplayName(picks[n].value, m.name, section)
    ensures EntriesAt(section, picks, n + 1, at + [n], ms + [m])
  {
    hide DeriveNativeName, DeriveDisplayName, FirstPick;
    assert forall i :: i in at + [n] <==> i in at || i == n;
    assert forall k :: 0 <= k < |at| ==> at[k] in at;
  }

  lemma PickRepeated(section: SectionRules, picks: Picks, n: nat, at: seq<nat>, ms: seq<RecommendedModel>)
    requires EntriesAt(section, picks, n, at, ms) && !FirstPick(section, picks, n)
    ensures EntriesAt(section, picks, n + 1, at, ms)
  {
    hide DeriveNativeName, DeriveDisplayName, FirstPick;
  }

  lemma NewPick(section: SectionRules, picks: Picks, n: nat, at: seq<nat>, ms: seq<RecommendedModel>)
    requires n < |picks| && picks[n].Some? && EntriesAt(section, picks, n, at, ms)
    ensures FirstPick(section, picks, n) <==> NameIndex(ms, DeriveNativeName(picks[n].value, section)).None?
  {
    hide DeriveNativeName, DeriveDisplayName;
    forall i | 0 <= i < n && picks[i].Some? ensures NameIndex(ms, DeriveNativeName(picks[i].value, section)).Some? {
      PicksListed(section, picks, n, at, ms, i);
    }
    match NameIndex(ms, DeriveNativeName(picks[n].value, section)) {
      case None =>
      case Some(k) => assert at[k] in at;
    }
  }

  /** The entries of a section, in rule order: one for each native name, as its first pick has it. */
  lemma EntriesMeaning(section: SectionRules, picks: Picks) returns (at: seq<nat>)
    ensures EntriesAt(section, picks, |picks|, at, Entries(section, picks))
  {
    at := FirstPicksListed(section, picks, |picks|);
  }

  /** The entries in order, but for the default. */
  lemma {:induction false} OthersInOrder(ms: seq<RecommendedModel>, name: string)
    requires DistinctNames(ms)
    ensures Others(ms, name) == Filter(ms, (m: RecommendedModel) => m.name != name)
  {
    if ms != [] {
      var rest := ms[1..];
      OthersInOrder(rest, name);
      assert ms == [ms[0]] + rest;
      if ms[0].name == name {
        assert forall i :: 0 <= i < |rest| ==> rest[i] == ms[i + 1];
        FilterAll(rest, (m: RecommendedModel) => m.name != name);
      } else {
        OthersStep(ms, name);
      }
    }
  }

  lemma OthersStep(ms: seq<RecommendedModel>, name: string)
    requires ms != [] && ms[0].name != name
    ensures Others(ms, name) == [ms[0]] + Others(ms[1..], name)
  {
    match NameIndex(ms[1..], name) {
      case None => assert ms == [ms[0]] + ms[1..];
      case Some(i) => assert ms[..i + 1] == [ms[0]] + ms[1..][..i] && ms[i + 2..] == ms[1..][i + 1..];
    }
  }

  /** The display name of a default that no rule picked: its override, unless blank, or what was shown before. */
  lemma UnpickedDefault(name: string, section: SectionRules, picks: Picks, previous: Option<ProviderSection>)
    requires |picks| == |section.rules| && DefaultName(section, picks).Some?
    requires forall m :: m in Entries(section, picks) ==> m.name != DefaultName(section, picks).value
    ensures var d := DefaultName(section, picks).value;
            var built := SectionFor(name, section, picks, previous);
            && built.Ok? && built.value.0.models != []
            && (var shown := built.value.0.models[0].displayName;
                if !section.emitDisplayName then shown == None
                else if d in section.displayNameOverrides.Keys && section.displayNameOverrides[d] != ""
                then shown == Some(section.displayNameOverrides[d])
                else if previous == None then shown == None
                else
                  && (forall v :: v in Visible(previous.value) && v.name == d ==> shown == v.displayName)
                  && ((forall v :: v in Visible(previous.value) ==> v.name != d) ==> shown == None))
  {
    if previous.Some? {
      VisibleMeaning(Listed(previous.value));
      assert DistinctNames(Visible(previous.value));
    }
    hide Visible, Entries, DefaultName;
    var d := DefaultName(section, picks).value;
    var built := SectionFor(name, section, picks, previous).value.0;
    assert NameIndex(Entries(section, picks), d).None?;
    assert built.models[0].displayName == InheritedDisplay(section, d, PreviousView(previous));
  }

  /** A section with a default lists the default first, every other pick after it in order, and no name twice. */
  lemma BuiltSectionMeaning(name: string, section: SectionRules, picks: Picks, previous: Option<ProviderSection>)
    requires |picks| == |section.rules| && DefaultName(section, picks).Some?
    ensures var built := SectionFor(name, section, picks, previous);
            var d := DefaultName(section, picks).value;
            && built.Ok? && built.value.0.defaultModel == d
            && built.value.0.models != [] && built.value.0.models[0].name == d
            && DistinctNames(built.value.0.models)
            && built.value.0.models[1..] == Filter(Entries(section, picks), (m: RecommendedModel) => m.name != d)
            && (forall m :: m in Entries(section, picks) && m.name == d ==> built.value.0.models[0] == m)
  {
    var d, ms := DefaultName(section, picks).value, Entries(section, picks);
    var chosen := Matched(picks, |picks|);
    DedupedDistinct(section, chosen, |chosen|);
    hide DefaultName, Entries, DefaultFirst, NoMatchWarnings, DistinctNames;
    DefaultFirstMeaning(section, d, ms, previous);
  }

  lemma DefaultFirstMeaning(section: SectionRules, d: string, ms: seq<RecommendedModel>, previous: Option<ProviderSection>)
    requires DistinctNames(ms)
    ensures var models := DefaultFirst(section, d, ms, previous);
            && models != [] && models[0].name == d && DistinctNames(models)
            && models[1..] == Filter(ms, (m: RecommendedModel) => m.name != d)
            && forall m :: m in ms && m.name == d ==> models[0] == m
  {
    OthersMeaning(ms, d);
    OthersInOrder(ms, d);
    var others := Others(ms, d);
    var models := DefaultFirst(section, d, ms, previous);
    hide Others, Filter, InheritedDisplay;
    assert models[1..] == others;
    forall i, j | 0 <= i < j < |models| ensures models[i].name != models[j].name {
      assert models[j] == others[j - 1] && models[j] in others;
      assert i > 0 ==> models[i] == others[i - 1];
    }
  }

  // ---- display names through the file ---------------------------------------------------

  /** What an entry's display name becomes once written and read back: empty names are dropped. */
  function NormModel(m: RecommendedModel): RecommendedModel {
    RecommendedModel(m.name, Shown(m.displayName))
  }

  function NormModels(ms: seq<RecommendedModel>): seq<RecommendedModel> {
    seq(|ms|, i requires 0 <= i < |ms| => NormModel(ms[i]))
  }

  function NormSection(s: ProviderSection): ProviderSection {
    ProviderSection(s.defaultModel, NormModels(s.models))
  }

  lemma {:induction false} NormIndex(ms: seq<RecommendedModel>, name: string)
    ensures NameIndex(NormModels(ms), name) == NameIndex(ms, name)
  {
    if ms != [] {
      assert NormModels(ms)[1..] == NormModels(ms[1..]);
      NormIndex(ms[1..], name);
    }
  }

  lemma NormUpsert(u: seq<RecommendedModel>, m: RecommendedModel)
    ensures Upsert(NormModels(u), NormModel(m)) == NormModels(Upsert(u, m))
  {
    UpsertAt(u, m);
    UpsertAt(NormModels(u), NormModel(m));
    NormIndex(u, m.name);
    assert Upsert(NormModels(u), NormModel(m)) == NormModels(Upsert(u, m));
  }

  lemma {:induction false} NormUpsertAll(u: seq<RecommendedModel>, ms: seq<RecommendedModel>)
    ensures UpsertAll(NormModels(u), NormModels(ms)) == NormModels(UpsertAll(u, ms))
    decreases |ms|
  {
    if ms != [] {
      NormUpsert(u, ms[0]);
      assert NormModels(ms)[1..] == NormModels(ms[1..]);
      NormUpsertAll(Upsert(u, ms[0]), ms[1..]);
    }
  }

  lemma NormVisible(s: ProviderSection)
    ensures Visible(NormSection(s)) == NormModels(Visible(s))
  {
    assert Listed(NormSection(s)) == NormModels(Listed(s));
    assert NormModels([]) == [];
    NormUpsertAll([], Listed(s));
  }

  /** No entry but the default gets an empty display name from the rules and the catalog. */
  predicate NoBlankNames(section: SectionRules, picks: Picks)
    requires |picks| == |section.rules|
  {
    var d := DefaultName(section, picks);
    d.Some? ==> forall m :: m in Entries(section, picks) && m.name != d.value ==> m.displayName != Some("")
  }

  lemma NormFixedIffNoBlank(ms: seq<RecommendedModel>)
    ensures NormModels(ms) == ms <==> forall i :: 0 <= i < |ms| ==> ms[i].displayName != Some("")
  {
  }

  /** Rebuilding against `s` gives back a section that looks like `s`. */
  ghost predicate Settled(name: string, section: SectionRules, picks: Picks, s: ProviderSection)
    requires |picks| == |section.rules|
  {
    var again := SectionFor(name, section, picks, Some(s));
    again.Ok? && again.value.0.defaultModel == s.defaultModel && Visible(again.value.0) == Visible(s)
  }

  /** Whatever the previous section was, one build settles it; warnings repeat exactly. */
  lemma SectionSettles(name: string, section: SectionRules, picks: Picks, previous: Option<ProviderSection>)
    requires |picks| == |section.rules|
    requires SectionFor(name, section, picks, previous).Ok?
    ensures var (s, w) := SectionFor(name, section, picks, previous).value;
            && Settled(name, section, picks, s)
            && SectionFor(name, section, picks, Some(s)).value.1 == w
  {
    var (s, w) := SectionFor(name, section, picks, previous).value;
    var d := DefaultName(section, picks);
    if d.Some? {
      FreshView(section, picks, d.value, previous);
      FreshView(section, picks, d.value, Some(s));
      assert Visible(s)[0].name == d.value;
    }
  }

  /** Normalizing the previous section changes at most an invisible display name of the default. */
  lemma RebuildFromNorm(section: SectionRules, picks: Picks, d: string, s: ProviderSection)
    requires |picks| == |section.rules|
    ensures var ms := Entries(section, picks);
            Visible(ProviderSection(d, DefaultFirst(section, d, ms, Some(NormSection(s)))))
            == Visible(ProviderSection(d, DefaultFirst(section, d, ms, Some(s))))
  {
    FreshView(section, picks, d, Some(s));
    FreshView(section, picks, d, Some(NormSection(s)));
    NormVisible(s);
    NormIndex(Visible(s), d);
  }

  lemma BlankFreeView(section: SectionRules, picks: Picks, d: string, previous: Option<ProviderSection>)
    requires |picks| == |section.rules| && DefaultName(section, picks) == Some(d)
    ensures var v := Visible(ProviderSection(d, DefaultFirst(section, d, Entries(section, picks), previous)));
            NormModels(v) == v <==> NoBlankNames(section, picks)
  {
    var chosen := Matched(picks, |picks|);
    DedupedDistinct(section, chosen, |chosen|);
    var ms := Entries(section, picks);
    FreshView(section, picks, d, previous);
    OthersMeaning(ms, d);
    var v := Visible(ProviderSection(d, DefaultFirst(section, d, ms, previous)));
    NormFixedIffNoBlank(v);
    assert v[0].displayName != Some("");
    assert forall i :: 1 <= i < |v| ==> v[i] == Others(ms, d)[i - 1];
    assert forall i :: 0 <= i < |Others(ms, d)| ==> Others(ms, d)[i] == v[i + 1];
  }

  /** On disk a settled section stays settled exactly when no blank display name is generated. */
  lemma SettledOnDisk(name: string, section: SectionRules, picks: Picks, s: ProviderSection)
    requires |picks| == |section.rules|
    requires Settled(name, section, picks, s)
    ensures Settled(name, section, picks, NormSection(s)) <==> NoBlankNames(section, picks)
  {
    var d := DefaultName(section, picks);
    if d.Some? {
      RebuildFromNorm(section, picks, d.value, s);
      BlankFreeView(section, picks, d.value, Some(s));
      NormVisible(s);
    }
  }

  // ---- the whole file -----------------------------------------------------------------------

  /** What every rule of every section picks. */
  function Selection(rules: CurationRules, catalog: seq<CatalogModel>, now: Date): (sel: seq<Picks>)
    ensures |sel| == |rules.sections|
    ensures forall i :: 0 <= i < |sel| ==> |sel[i]| == |rules.sections[i].1.rules|
  {
    seq(|rules.sections|, i requires 0 <= i < |rules.sections| =>
      PicksFor(rules.sections[i].1.rules, catalog, rules, now))
  }

  ghost predicate Fits(sections: seq<(string, SectionRules)>, sel: seq<Picks>) {
    |sel| == |sections| && forall i :: 0 <= i < |sel| ==> |sel[i]| == |sections[i].1.rules|
  }

  /** The first `n` sections in rule order with the warnings so far, or the first failure. */
  function BuildSections(sections: Dict<SectionRules>, sel: seq<Picks>, previous: Dict<ProviderSection>, n: nat)
    : (r: Result<(seq<(string, ProviderSection)>, seq<Warning>), BuildError>)
    requires Fits(sections, sel) && n <= |sections|
    ensures r.Ok? ==>
              && |r.value.0| == n
              && forall i :: 0 <= i < n ==>
                   var one := SectionFor(sections[i].0, sections[i].1, sel[i], Get(previous, sections[i].0));
                   one.Ok? && r.value.0[i] == (sections[i].0, one.value.0)
  {
    hide SectionFor;
    if n == 0 then Ok(([], []))
    else
      var before := BuildSections(sections, sel, previous, n - 1);
      if before.Err? then before
      else
        var name := sections[n - 1].0;
        match SectionFor(name, sections[n - 1].1, sel[n - 1], Get(previous, name))
        case Err(e) => Err(e)
        case Ok((s, w)) => Ok((before.value.0 + [(name, s)], before.value.1 + w))
  }

  predicate ModelsChanged(built: seq<(string, ProviderSection)>, previous: Dict<ProviderSection>) {
    || Keys(built) != Keys(previous)
    || exists i :: 0 <= i < |built| &&
                   var prior := Get(previous, built[i].0);
                   prior.Some? && !SectionsEqual(built[i].1, prior.value)
  }

  /** Start of the part after the last dot. */
  function LastPart(version: string): (k: nat)
    ensures k <= |version|
  {
    if version == [] then 0
    else if version[|version| - 1] == '.' then |version|
    else LastPart(version[..|version| - 1])
  }

  function BumpVersion(version: string): Option<string> {
    var k := LastPart(version);
    if version[k..] == [] || !AllDigits(version[k..]) then None
    else Some(version[..k] + Decimal(NumeralValue(version[k..]) + 1))
  }

  /** `build_recommendations`, given what the rules selected. */
  function BuildFrom(sections: Dict<SectionRules>, sel: seq<Picks>, previous: RecommendedModelsFile, today: Date)
    : Result<(RecommendedModelsFile, seq<Warning>), BuildError>
    requires Fits(sections, sel)
  {
    match BuildSections(sections, sel, previous.providers, |sections|)
    case Err(e) => Err(e)
    case Ok((built, warnings)) =>
      if !ModelsChanged(built, previous.providers) then Ok((previous, warnings))
      else match BumpVersion(previous.version)
        case None => Err(BadVersion(previous.version))
        case Some(v) => Ok((RecommendedModelsFile(v, today.iso + "T00:00:00Z", built), warnings))
  }

  function BuildRecommendations(rules: CurationRules, catalog: seq<CatalogModel>,
                                previous: RecommendedModelsFile, today: Date)
    : Result<(RecommendedModelsFile, seq<Warning>), BuildError>
  {
    BuildFrom(rules.sections, Selection(rules, catalog, today), previous, today)
  }

  lemma {:induction false} LastPartFollowsDot(version: string)
    ensures LastPart(version) > 0 ==> version[LastPart(version) - 1] == '.'
  {
    if version != [] && version[|version| - 1] != '.' {
      LastPartFollowsDot(version[..|version| - 1]);
    }
  }

  /** A bump moves the last part up by exactly one, keeps the rest, and can be bumped again. */
  lemma BumpAdvances(version: string)
    requires BumpVersion(version).Some?
    ensures var w, k := BumpVersion(version).value, LastPart(version);
            && w != version
            && LastPart(w) == k && w[..k] == version[..k]
            && AllDigits(w[k..]) && NumeralValue(w[k..]) == NumeralValue(version[k..]) + 1
            && BumpVersion(w).Some?
  {
    var w, k := BumpVersion(version).value, LastPart(version);
    var next := NumeralValue(version[k..]) + 1;
    DecimalValue(next);
    LastPartFollowsDot(version);
    LastPartStart(version[..k], Decimal(next));
    assert w[k..] == Decimal(next);
  }

  /** A version can be bumped exactly when its last dotted part is a numeral, which then goes up by one. */
  lemma BumpMeaning(prefix: string, last: string)
    requires '.' !in last && (prefix == [] || prefix[|prefix| - 1] == '.')
    ensures BumpVersion(prefix + last)
            == if last != "" && AllDigits(last) then Some(prefix + Decimal(NumeralValue(last) + 1)) else None
  {
    LastPartStart(prefix, last);
    assert (prefix + last)[|prefix|..] == last && (prefix + last)[..|prefix|] == prefix;
  }

  lemma {:induction false} LastPartStart(prefix: string, last: string)
    requires '.' !in last && (prefix == [] || prefix[|prefix| - 1] == '.')
    ensures LastPart(prefix + last) == |prefix|
  {
    if last == [] {
      assert prefix + last == prefix;
    } else {
      var v, init := prefix + last, last[..|last| - 1];
      assert v[|v| - 1] == last[|last| - 1] && v[..|v| - 1] == prefix + init;
      LastPartStart(prefix, init);
    }
  }

  /** Every section of the file looks like its own rebuild, and there are no others. */
  ghost predicate FileSettled(sections: Dict<SectionRules>, sel: seq<Picks>, providers: Dict<ProviderSection>)
    requires Fits(sections, sel)
  {
    && Keys(sections) == Keys(providers)
    && forall i :: 0 <= i < |sections| ==>
         var s := Get(providers, sections[i].0);
         s.Some? && Settled(sections[i].0, sections[i].1, sel[i], s.value)
  }

  /** A section that can neither choose a default nor be kept. */
  ghost predicate Stuck(sections: Dict<SectionRules>, sel: seq<Picks>, previous: Dict<ProviderSection>, i: nat)
    requires Fits(sections, sel)
  {
    i < |sections| && NoDefault(sections[i].1, sel[i]) && Get(previous, sections[i].0).None?
  }

  lemma NoSectionYet(sections: Dict<SectionRules>, sel: seq<Picks>, previous: Dict<ProviderSection>)
    requires Fits(sections, sel)
    ensures BuildSections(sections, sel, previous, 0) == Ok(([], []))
  {
  }

  lemma StuckFails(sections: Dict<SectionRules>, sel: seq<Picks>, previous: Dict<ProviderSection>, i: nat)
    requires Fits(sections, sel) && i < |sections|
    ensures var one := SectionFor(sections[i].0, sections[i].1, sel[i], Get(previous, sections[i].0));
            && (Stuck(sections, sel, previous, i) <==> one.Err?)
            && (one.Err? ==> one.error == NoDefaultModel(sections[i].0))
  {
    KeptMeaning(sections[i].0, sections[i].1, sel[i], Get(previous, sections[i].0));
    hide SectionFor, NoDefault;
  }

  lemma OneMoreSection(sections: Dict<SectionRules>, sel: seq<Picks>, previous: Dict<ProviderSection>, n: nat)
    requires Fits(sections, sel) && n < |sections|
    ensures var (before, after) := (BuildSections(sections, sel, previous, n), BuildSections(sections, sel, previous, n + 1));
            var one := SectionFor(sections[n].0, sections[n].1, sel[n], Get(previous, sections[n].0));
            && (before.Err? ==> after == before)
            && (before.Ok? && one.Err? ==> after.Err? && after.error == one.error)
            && (before.Ok? && one.Ok? ==> after.Ok? && after.value.1 == before.value.1 + one.value.1)
  {
    hide SectionFor;
  }

  /** The first stuck section is where a build stops; `n` when there is none. */
  lemma {:induction false} FirstStuck(sections: Dict<SectionRules>, sel: seq<Picks>, previous: Dict<ProviderSection>, n: nat)
    returns (k: nat)
    requires Fits(sections, sel) && n <= |sections|
    ensures k <= n && forall j: nat :: j < k ==> !Stuck(sections, sel, previous, j)
    ensures k < n ==> Stuck(sections, sel, previous, k)
                      && BuildSections(sections, sel, previous, n) == Err(NoDefaultModel(sections[k].0))
    ensures k == n ==> BuildSections(sections, sel, previous, n).Ok?
  {
    hide *;
    k := 0;
    NoSectionYet(sections, sel, previous);
    if n > 0 {
      StuckFails(sections, sel, previous, n - 1);
      OneMoreSection(sections, sel, previous, n - 1);
      k := FirstStuck(sections, sel, previous, n - 1);
      if k == n - 1 && !Stuck(sections, sel, previous, n - 1) {
        k := n;
      }
    }
  }

  /** A build fails for the first stuck section, or else for a version it cannot bump though the content moves. */
  lemma FailureMeaning(sections: Dict<SectionRules>, sel: seq<Picks>, previous: RecommendedModelsFile, today: Date)
    returns (k: nat)
    requires Fits(sections, sel)
    ensures k <= |sections| && forall j: nat :: j < k ==> !Stuck(sections, sel, previous.providers, j)
    ensures var r := BuildFrom(sections, sel, previous, today);
            if k < |sections| then Stuck(sections, sel, previous.providers, k) && r == Err(NoDefaultModel(sections[k].0))
            else if FileSettled(sections, sel, previous.providers) || BumpVersion(previous.version).Some? then r.Ok?
            else r == Err(BadVersion(previous.version))
  {
    k := FirstStuck(sections, sel, previous.providers, |sections|);
    UnchangedIffSettled(sections, sel, previous, today);
    hide BuildSections, Stuck, FileSettled, BumpVersion, ModelsChanged;
  }

  /**
   A new file carries the bumped version and the day's date, and each section in rule order as its rules build
   it; a section without a default stays as it was, models included, whatever else moves.
   */
  lemma BuiltFileMeaning(sections: Dict<SectionRules>, sel: seq<Picks>, previous: RecommendedModelsFile, today: Date)
    requires Fits(sections, sel) && BuildFrom(sections, sel, previous, today).Ok?
    ensures var f := BuildFrom(sections, sel, previous, today).value.0;
            && (f != previous ==>
                  && BumpVersion(previous.version) == Some(f.version) && f.updatedAt == today.iso + "T00:00:00Z"
                  && |f.providers| == |sections|
                  && forall i :: 0 <= i < |sections| ==>
                       var one := SectionFor(sections[i].0, sections[i].1, sel[i], Get(previous.providers, sections[i].0));
                       one.Ok? && f.providers[i] == (sections[i].0, one.value.0))
            && forall i :: 0 <= i < |sections| && NoDefault(sections[i].1, sel[i]) ==>
                 var was := Get(previous.providers, sections[i].0);
                 was.Some? && Get(f.providers, sections[i].0) == was
  {
    var f := BuildFrom(sections, sel, previous, today).value.0;
    var built := BuildSections(sections, sel, previous.providers, |sections|).value.0;
    hide SectionFor, ModelsChanged, BumpVersion, NoDefault;
    forall i | 0 <= i < |sections| && NoDefault(sections[i].1, sel[i])
      ensures Get(previous.providers, sections[i].0).Some?
      ensures Get(f.providers, sections[i].0) == Get(previous.providers, sections[i].0)
    {
      KeptMeaning(sections[i].0, sections[i].1, sel[i], Get(previous.providers, sections[i].0));
      if f != previous {
        GetAt(f.providers, i);
      }
    }
  }

  /** The warnings of each of the first `n` sections. */
  function SectionWarnings(sections: Dict<SectionRules>, sel: seq<Picks>, previous: Dict<ProviderSection>, n: nat)
    : (ws: seq<seq<Warning>>)
    requires Fits(sections, sel) && n <= |sections|
    ensures |ws| == n
  {
    seq(n, i requires 0 <= i < n =>
      var one := SectionFor(sections[i].0, sections[i].1, sel[i], Get(previous, sections[i].0));
      if one.Ok? then one.value.1 else [])
  }

  /** The warnings are those of each section, one after the other. */
  lemma {:induction false} WarningsInOrder(sections: Dict<SectionRules>, sel: seq<Picks>,
                                           previous: Dict<ProviderSection>, n: nat)
    requires Fits(sections, sel) && n <= |sections| && BuildSections(sections, sel, previous, n).Ok?
    ensures BuildSections(sections, sel, previous, n).value.1 == Flatten(SectionWarnings(sections, sel, previous, n))
  {
    hide SectionFor, UniqueKeys, BuildSections;
    NoSectionYet(sections, sel, previous);
    if n > 0 {
      OneMoreSection(sections, sel, previous, n - 1);
      WarningsInOrder(sections, sel, previous, n - 1);
      assert SectionWarnings(sections, sel, previous, n)[..n - 1] == SectionWarnings(sections, sel, previous, n - 1);
    }
  }

  /** A build succeeds without touching the previous file exactly when that file is settled. */
  lemma UnchangedIffSettled(sections: Dict<SectionRules>, sel: seq<Picks>, previous: RecommendedModelsFile, today: Date)
    requires Fits(sections, sel)
    ensures var r := BuildFrom(sections, sel, previous, today);
            (r.Ok? && r.value.0 == previous) <==> FileSettled(sections, sel, previous.providers)
  {
    var prior := previous.providers;
    if FileSettled(sections, sel, prior) {
      SettledBuilds(sections, sel, prior, |sections|);
      var built := BuildSections(sections, sel, prior, |sections|).value.0;
      SameKeys(sections, built);
    } else {
      var r := BuildFrom(sections, sel, previous, today);
      if r.Ok? && r.value.0 == previous {
        var built := BuildSections(sections, sel, prior, |sections|).value.0;
        if ModelsChanged(built, prior) {
          BumpAdvances(previous.version);
        }
        SameKeys(sections, built);
        forall i | 0 <= i < |sections|
          ensures var s := Get(prior, sections[i].0);
                  s.Some? && Settled(sections[i].0, sections[i].1, sel[i], s.value)
        {
          assert built[i].0 == sections[i].0;
          GetIn(prior, built[i].0);
          assert built[i].0 in Keys(built);
          assert SectionsEqual(built[i].1, Get(prior, built[i].0).value);
        }
        assert false;
      }
    }
  }

  lemma SameKeys<U, V>(a: seq<(string, U)>, b: seq<(string, V)>)
    requires |a| == |b| && forall i :: 0 <= i < |a| ==> a[i].0 == b[i].0
    ensures Keys(a) == Keys(b)
  {
  }

  lemma {:induction false} SettledBuilds(sections: Dict<SectionRules>, sel: seq<Picks>,
                                         providers: Dict<ProviderSection>, n: nat)
    requires Fits(sections, sel) && n <= |sections| && FileSettled(sections, sel, providers)
    ensures BuildSections(sections, sel, providers, n).Ok?
  {
    if n > 0 {
      SettledBuilds(sections, sel, providers, n - 1);
      assert Settled(sections[n - 1].0, sections[n - 1].1, sel[n - 1], Get(providers, sections[n - 1].0).value);
    }
  }

  /** The file any successful build returns is settled. */
  lemma BuildSettles(sections: Dict<SectionRules>, sel: seq<Picks>, previous: RecommendedModelsFile, today: Date)
    requires Fits(sections, sel) && BuildFrom(sections, sel, previous, today).Ok?
    ensures FileSettled(sections, sel, BuildFrom(sections, sel, previous, today).value.0.providers)
  {
    var f := BuildFrom(sections, sel, previous, today).value.0;
    if f == previous {
      UnchangedIffSettled(sections, sel, previous, today);
    } else {
      SameKeys(sections, f.providers);
      forall i | 0 <= i < |sections|
        ensures var s := Get(f.providers, sections[i].0);
                s.Some? && Settled(sections[i].0, sections[i].1, sel[i], s.value)
      {
        GetAt(f.providers, i);
        SectionSettles(sections[i].0, sections[i].1, sel[i], Get(previous.providers, sections[i].0));
      }
    }
  }

  /** Warnings depend on the selection only, once every fallback section exists. */
  lemma {:induction false} SameWarnings(sections: Dict<SectionRules>, sel: seq<Picks>,
                                        p: Dict<ProviderSection>, p': Dict<ProviderSection>, n: nat)
    requires Fits(sections, sel) && n <= |sections|
    requires BuildSections(sections, sel, p, n).Ok? && BuildSections(sections, sel, p', n).Ok?
    ensures BuildSections(sections, sel, p, n).value.1 == BuildSections(sections, sel, p', n).value.1
  {
    if n > 0 {
      SameWarnings(sections, sel, p, p', n - 1);
    }
  }

  /**
   Re-running is a fixpoint: feeding a build's result back as the previous file returns it untouched, with
   the same warnings, on any later day and for any later catalog from which the rules pick the same models.
   */
  lemma RerunIsFixpoint(rules: CurationRules, catalog: seq<CatalogModel>, catalog': seq<CatalogModel>,
                        previous: RecommendedModelsFile, today: Date, today': Date)
    requires Selection(rules, catalog', today') == Selection(rules, catalog, today)
    requires BuildRecommendations(rules, catalog, previous, today).Ok?
    ensures var first := BuildRecommendations(rules, catalog, previous, today).value;
            BuildRecommendations(rules, catalog', first.0, today') == Ok(first)
  {
    var first := BuildRecommendations(rules, catalog, previous, today).value;
    var sel := Selection(rules, catalog, today);
    BuildSettles(rules.sections, sel, previous, today);
    UnchangedIffSettled(rules.sections, sel, first.0, today');
    SameWarnings(rules.sections, sel, previous.providers, first.0.providers, |rules.sections|);
  }

  /** The rules pick the same models until one of them expires. */
  lemma SelectionUntilExpiry(rules: CurationRules, catalog: seq<CatalogModel>, today: Date, today': Date)
    requires forall m :: m in catalog ==> (IsExpired(m, today) <==> IsExpired(m, today'))
    ensures Selection(rules, catalog, today') == Selection(rules, catalog, today)
  {
    forall i | 0 <= i < |rules.sections|
      ensures Selection(rules, catalog, today')[i] == Selection(rules, catalog, today)[i]
    {
      var rs := rules.sections[i].1.rules;
      forall j | 0 <= j < |rs|
        ensures PicksFor(rs, catalog, rules, today')[j] == PicksFor(rs, catalog, rules, today)[j]
      {
        FilterSame(catalog, (m: CatalogModel) => IsCandidate(rs[j], m, rules, today'),
                   (m: CatalogModel) => IsCandidate(rs[j], m, rules, today));
      }
      assert PicksFor(rs, catalog, rules, today') == PicksFor(rs, catalog, rules, today);
    }
  }

  /** The rules pick the same models from a permuted catalog. */
  lemma SelectionIgnoresOrder(rules: CurationRules, c: seq<CatalogModel>, c': seq<CatalogModel>, now: Date)
    requires multiset(c) == multiset(c') && (TieFree(c) || c == c')
    ensures Selection(rules, c, now) == Selection(rules, c', now)
  {
    if c != c' {
      forall i | 0 <= i < |rules.sections|
        ensures Selection(rules, c, now)[i] == Selection(rules, c', now)[i]
      {
        var rs := rules.sections[i].1.rules;
        forall j | 0 <= j < |rs|
          ensures PicksFor(rs, c, rules, now)[j] == PicksFor(rs, c', rules, now)[j]
        {
          SelectIgnoresOrder(rs[j], c, c', rules, now);
        }
        assert PicksFor(rs, c, rules, now) == PicksFor(rs, c', rules, now);
      }
    }
  }

  /** The order of the catalog changes neither the file nor the warnings nor the failure. */
  lemma CatalogOrderIrrelevant(rules: CurationRules, c: seq<CatalogModel>, c': seq<CatalogModel>,
                               previous: RecommendedModelsFile, today: Date)
    requires multiset(c) == multiset(c') && TieFree(c)
    ensures BuildRecommendations(rules, c, previous, today) == BuildRecommendations(rules, c', previous, today)
  {
    SelectionIgnoresOrder(rules, c, c', today);
  }

  /** The same section names, each with the same default and the same runtime-visible view. */
  ghost predicate SameVisible(a: Dict<ProviderSection>, b: Dict<ProviderSection>) {
    && Keys(a) == Keys(b)
    && forall k :: k in Keys(a) && Get(a, k).Some? && Get(b, k).Some? ==>
         Get(a, k).value.defaultModel == Get(b, k).value.defaultModel && Visible(Get(a, k).value) == Visible(Get(b, k).value)
  }

  /** The version moves exactly when the visible content does; otherwise nothing at all moves. */
  lemma VersionMovesWithContent(rules: CurationRules, catalog: seq<CatalogModel>,
                                previous: RecommendedModelsFile, today: Date)
    requires BuildRecommendations(rules, catalog, previous, today).Ok?
    ensures var f := BuildRecommendations(rules, catalog, previous, today).value.0;
            && (f.version != previous.version <==> !SameVisible(f.providers, previous.providers))
            && (f.version == previous.version ==> f == previous)
  {
    var f := BuildRecommendations(rules, catalog, previous, today).value.0;
    var sel := Selection(rules, catalog, today);
    var built := BuildSections(rules.sections, sel, previous.providers, |rules.sections|).value.0;
    if ModelsChanged(built, previous.providers) {
      BumpAdvances(previous.version);
      if Keys(built) == Keys(previous.providers) {
        var i :| 0 <= i < |built| &&
                 var prior := Get(previous.providers, built[i].0);
                 prior.Some? && !SectionsEqual(built[i].1, prior.value);
        GetAt(f.providers, i);
        assert built[i].0 in Keys(f.providers);
      }
    }
  }

  // ---- from disk to disk ------------------------------------------------------------------------

  datatype DocModel = DocModel(name: string, displayName: Option<string>)

  datatype DocSection = DocSection(defaultModel: string, additionalVisibleModels: Option<seq<DocModel>>)

  /** A parsed recommended-models.json. */
  datatype Document = Document(version: string, updatedAt: string, providers: Dict<DocSection>)

  function LoadSection(d: DocSection): ProviderSection {
    var ms := if d.additionalVisibleModels.None? then [] else d.additionalVisibleModels.value;
    ProviderSection(d.defaultModel,
                    seq(|ms|, i requires 0 <= i < |ms| => RecommendedModel(ms[i].name, ms[i].displayName)))
  }

  function LoadPrevious(doc: Document): RecommendedModelsFile {
    RecommendedModelsFile(doc.version, doc.updatedAt,
                          seq(|doc.providers|, i requires 0 <= i < |doc.providers| =>
                            (doc.providers[i].0, LoadSection(doc.providers[i].1))))
  }

  function SerializeSection(s: ProviderSection): DocSection {
    DocSection(s.defaultModel,
               Some(seq(|s.models|, i requires 0 <= i < |s.models| =>
                 DocModel(s.models[i].name,
                          if Truthy(s.models[i].displayName) then s.models[i].displayName else None))))
  }

  function Serialize(f: RecommendedModelsFile): Document {
    Document(f.version, f.updatedAt,
             seq(|f.providers|, i requires 0 <= i < |f.providers| =>
               (f.providers[i].0, SerializeSection(f.providers[i].1))))
  }

  /** What `--write` leaves on disk. */
  function Regenerate(rules: CurationRules, catalog: seq<CatalogModel>, doc: Document, today: Date)
    : Result<Document, BuildError>
  {
    match BuildRecommendations(rules, catalog, LoadPrevious(doc), today)
    case Err(e) => Err(e)
    case Ok((f, _)) => Ok(Serialize(f))
  }

  lemma ReadBack(f: RecommendedModelsFile)
    ensures var g := LoadPrevious(Serialize(f));
            && g.version == f.version && g.updatedAt == f.updatedAt && |g.providers| == |f.providers|
            && forall i :: 0 <= i < |f.providers| ==>
                 g.providers[i] == (f.providers[i].0, NormSection(f.providers[i].1))
  {
    forall i | 0 <= i < |f.providers|
      ensures LoadSection(SerializeSection(f.providers[i].1)) == NormSection(f.providers[i].1)
    {
    }
  }

  lemma WriteReadWrite(f: RecommendedModelsFile)
    ensures Serialize(LoadPrevious(Serialize(f))) == Serialize(f)
  {
    ReadBack(f);
    forall i | 0 <= i < |f.providers|
      ensures SerializeSection(NormSection(f.providers[i].1)) == SerializeSection(f.providers[i].1)
    {
      var s := f.providers[i].1;
      assert SerializeSection(NormSection(s)).additionalVisibleModels.value
             == SerializeSection(s).additionalVisibleModels.value;
    }
    assert Serialize(LoadPrevious(Serialize(f))).providers == Serialize(f).providers;
  }

  /** For no section do the rules and the catalog generate an empty display name next to the default. */
  ghost predicate NoBlankNamesAnywhere(rules: CurationRules, catalog: seq<CatalogModel>, today: Date) {
    forall i :: 0 <= i < |rules.sections| ==>
      NoBlankNames(rules.sections[i].1, Selection(rules, catalog, today)[i])
  }

  /**
   The promised zero diff: writing the file and running again leaves the document alone
   exactly when no blank display name is generated, however much later, while the picks are the same.
   */
  lemma ZeroDiffOnDisk(rules: CurationRules, catalog: seq<CatalogModel>, catalog': seq<CatalogModel>,
                       doc: Document, today: Date, today': Date)
    requires Selection(rules, catalog', today') == Selection(rules, catalog, today)
    requires Regenerate(rules, catalog, doc, today).Ok?
    ensures var written := Regenerate(rules, catalog, doc, today).value;
            Regenerate(rules, catalog', written, today') == Ok(written)
            <==> NoBlankNamesAnywhere(rules, catalog, today)
  {
    var f := BuildRecommendations(rules, catalog, LoadPrevious(doc), today).value.0;
    var sections, sel := rules.sections, Selection(rules, catalog, today);
    BuildSettles(sections, sel, LoadPrevious(doc), today);
    var g := LoadPrevious(Serialize(f));
    ReadBack(f);
    SameKeys(f.providers, g.providers);
    forall i | 0 <= i < |sections|
      ensures var s := Get(g.providers, sections[i].0);
              && s.Some?
              && (Settled(sections[i].0, sections[i].1, sel[i], s.value) <==> NoBlankNames(sections[i].1, sel[i]))
    {
      GetNorm(f.providers, g.providers, sections[i].0);
      SettledOnDisk(sections[i].0, sections[i].1, sel[i], Get(f.providers, sections[i].0).value);
    }
    UnchangedIffSettled(sections, sel, g, today');
    WriteReadWrite(f);
    UnchangedIffSameVersion(sections, sel, g, today');
  }

  lemma {:induction false} GetNorm(a: seq<(string, ProviderSection)>, b: seq<(string, ProviderSection)>, key: string)
    requires |a| == |b| && forall i :: 0 <= i < |a| ==> b[i] == (a[i].0, NormSection(a[i].1))
    ensures Get(a, key).Some? ==> Get(b, key) == Some(NormSection(Get(a, key).value))
  {
    if a != [] && a[0].0 != key {
      GetNorm(a[1..], b[1..], key);
    }
  }

  lemma UnchangedIffSameVersion(sections: Dict<SectionRules>, sel: seq<Picks>, previous: RecommendedModelsFile, today: Date)
    requires Fits(sections, sel)
    ensures var r := BuildFrom(sections, sel, previous, today);
            r.Ok? ==> (r.value.0 == previous <==> r.value.0.version == previous.version)
  {
    if BumpVersion(previous.version).Some? {
      BumpAdvances(previous.version);
    }
  }

  const EXAMPLE_MODEL := CatalogModel("v/m", "M", 1, None, None, ["text"], Never)
  const EXAMPLE_DATE := Date(0, "2025-01-01")
  const EXAMPLE_DOC := Document("1", "t", [])

  function ExampleRule(): FamilyRule {
    FamilyRule("m", "v/", _ => true, None, false)
  }

  function ExampleSection(): SectionRules {
    SectionRules(KeepFullId, true, map[], map["v/m" := ""], Some("d"), [ExampleRule()])
  }

  function ExampleRules(): CurationRules {
    CurationRules(_ => false, true, [("s", ExampleSection())])
  }

  lemma ExamplePick()
    ensures SelectForRule(ExampleRule(), [EXAMPLE_MODEL], ExampleRules(), EXAMPLE_DATE) == Some(EXAMPLE_MODEL)
  {
    var catalog := [EXAMPLE_MODEL];
    assert EXAMPLE_MODEL in catalog && IsCandidate(ExampleRule(), EXAMPLE_MODEL, ExampleRules(), EXAMPLE_DATE);
    SelectMeaning(ExampleRule(), catalog, ExampleRules(), EXAMPLE_DATE);
  }

  lemma ExampleSelection()
    ensures Selection(ExampleRules(), [EXAMPLE_MODEL], EXAMPLE_DATE) == [[Some(EXAMPLE_MODEL)]]
  {
    ExamplePick();
    hide SelectForRule;
    assert PicksFor([ExampleRule()], [EXAMPLE_MODEL], ExampleRules(), EXAMPLE_DATE) == [Some(EXAMPLE_MODEL)];
  }

  lemma ExampleIsBlank()
    ensures DefaultName(ExampleSection(), [Some(EXAMPLE_MODEL)]) == Some("d")
    ensures !NoBlankNames(ExampleSection(), [Some(EXAMPLE_MODEL)])
  {
    var section, picks: Picks := ExampleSection(), [Some(EXAMPLE_MODEL)];
    var entry := RecommendedModel("v/m", Some(""));
    assert Matched(picks, 1) == Matched(picks, 0) + [EXAMPLE_MODEL] == [EXAMPLE_MODEL];
    assert Deduped(section, [EXAMPLE_MODEL], 1) == Deduped(section, [EXAMPLE_MODEL], 0) + [entry] == [entry];
    assert DefaultAfter(section, picks, 0) == Some("d") == DefaultAfter(section, picks, 1);
    assert entry in Entries(section, picks);
    assert |"v/m"| == 3 && |"d"| == 1;
  }

  lemma ExampleBuilds()
    ensures Regenerate(ExampleRules(), [EXAMPLE_MODEL], EXAMPLE_DOC, EXAMPLE_DATE).Ok?
  {
    ExampleSelection();
    ExampleIsBlank();
    hide Selection, DefaultName, DefaultFirst, NoMatchWarnings, ModelsChanged;
    var sel := [[Some(EXAMPLE_MODEL)]];
    assert BuildSections(ExampleRules().sections, sel, [], 0).Ok?;
    assert BuildSections(ExampleRules().sections, sel, [], 1).Ok?;
    assert "1"[..0] == "" && LastPart("1") == 0 && "1"[0..] == "1";
    assert LoadPrevious(EXAMPLE_DOC).providers == [] && BumpVersion("1").Some?;
  }

  /** A blank display-name override is enough: the second run does not reproduce the first one's file. */
  lemma BlankOverrideChurns()
    ensures var (rules, catalog, today) := (ExampleRules(), [EXAMPLE_MODEL], EXAMPLE_DATE);
            var first := Regenerate(rules, catalog, EXAMPLE_DOC, today);
            first.Ok? && Regenerate(rules, catalog, first.value, today) != Ok(first.value)
  {
    hide Regenerate, Selection, NoBlankNames;
    ExampleBuilds();
    ExampleSelection();
    ExampleIsBlank();
    var rules := ExampleRules();
    assert !NoBlankNames(rules.sections[0].1, Selection(rules, [EXAMPLE_MODEL], EXAMPLE_DATE)[0]);
    ZeroDiffOnDisk(rules, [EXAMPLE_MODEL], [EXAMPLE_MODEL], EXAMPLE_DOC, EXAMPLE_DATE, EXAMPLE_DATE);
  }
}
