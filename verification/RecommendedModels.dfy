/**
 Regeneration of recommended-models.json (backend/scripts/update_recommended_models.py):
 curation rules and a model catalog turn the previous file into the next one.

 Regular expressions are arbitrary predicates on model ids; a parsed JSON document
 stands for the text of the file.
 */
module RecommendedModels {
  import opened Base
  import opened Text

  // ---- data -------------------------------------------------------------------

  datatype RecommendedModel = RecommendedModel(name: string, displayName: Option<string>)

  datatype ProviderSection = ProviderSection(defaultModel: string, models: seq<RecommendedModel>)

  datatype RecommendedModelsFile = RecommendedModelsFile(
    version: string, updatedAt: string, providers: Dict<ProviderSection>)

  datatype Date = Date(day: int, iso: string)

  datatype Expiration = Never | Unparsable | On(day: int)

  datatype CatalogModel = CatalogModel(
    id: string, name: string, created: int,
    promptPrice: Option<string>, completionPrice: Option<string>,
    outputModalities: seq<string>, expiration: Expiration)

  datatype FamilyRule = FamilyRule(
    title: string, vendorPrefix: string,
    includes: string -> bool,
    excludes: Option<string -> bool>,  // None for a missing or empty exclude_regex
    isDefaultSource: bool)

  datatype IdTransform = StripPrefix | StripPrefixDotsToDashes | KeepFullId

  datatype SectionRules = SectionRules(
    idTransform: IdTransform, emitDisplayName: bool,
    idOverrides: map<string, string>, displayNameOverrides: map<string, string>,
    pinnedDefault: Option<string>, rules: seq<FamilyRule>)

  datatype CurationRules = CurationRules(
    globalExcludes: string -> bool, requireTextOutput: bool, sections: Dict<SectionRules>)

  datatype Warning = NoMatch(section: string, rule: string) | KeptUnchanged(section: string)

  datatype BuildError = NoDefaultModel(section: string) | BadVersion(version: string)

  /** The pick of each rule of one section, in rule order. */
  type Picks = seq<Option<CatalogModel>>

  // ---- selecting one catalog model per rule -------------------------------------

  predicate IsFree(m: CatalogModel) {
    (|m.id| >= 5 && m.id[|m.id| - 5..] == ":free")
    || (m.promptPrice == Some("0") && m.completionPrice == Some("0"))
  }

  predicate IsExpired(m: CatalogModel, now: Date) {
    m.expiration.On? && m.expiration.day <= now.day
  }

  predicate PassesGlobalFilters(m: CatalogModel, rules: CurationRules, now: Date) {
    && !rules.globalExcludes(m.id)
    && !IsFree(m)
    && !IsExpired(m, now)
    && (rules.requireTextOutput ==> "text" in m.outputModalities)
  }

  predicate IsCandidate(rule: FamilyRule, m: CatalogModel, rules: CurationRules, now: Date) {
    && rule.vendorPrefix <= m.id
    && rule.includes(m.id)
    && !(rule.excludes.Some? && rule.excludes.value(m.id))
    && PassesGlobalFilters(m, rules, now)
  }

  /** The sort key (-created, id): newer first, then the smaller id. */
  predicate KeyLe(a: CatalogModel, b: CatalogModel) {
    a.created > b.created || (a.created == b.created && StringLe(a.id, b.id))
  }

  /** Python's `min` under that key: the first of the smallest. */
  function MinByKey(c: seq<CatalogModel>): CatalogModel
    requires c != []
  {
    if |c| == 1 then c[0]
    else
      var rest := MinByKey(c[1..]);
      if KeyLe(c[0], rest) then c[0] else rest
  }

  function SelectForRule(rule: FamilyRule, catalog: seq<CatalogModel>, rules: CurationRules, now: Date)
    : Option<CatalogModel>
  {
    var candidates := Filter(catalog, (m: CatalogModel) => IsCandidate(rule, m, rules, now));
    if candidates == [] then None else Some(MinByKey(candidates))
  }

  lemma {:induction false} MinByKeyIsLeast(c: seq<CatalogModel>, m: CatalogModel)
    requires m in c
    ensures MinByKey(c) in c && KeyLe(MinByKey(c), m)
  {
    StringLeTotal(m.id, m.id);
    if |c| > 1 {
      var rest := MinByKey(c[1..]);
      MinByKeyIsLeast(c[1..], c[1]);
      StringLeTotal(c[0].id, rest.id);
      if m in c[1..] {
        MinByKeyIsLeast(c[1..], m);
        if KeyLe(c[0], rest) && c[0].created == rest.created == m.created {
          StringLeTransitive(c[0].id, rest.id, m.id);
        }
      }
    }
  }

  /** What a catalog model must be: of the vendor, matched, not excluded, priced, not expired, with text output if asked. */
  lemma CandidateMeaning(rule: FamilyRule, m: CatalogModel, rules: CurationRules, now: Date)
    ensures IsCandidate(rule, m, rules, now) <==>
              && (exists rest :: m.id == rule.vendorPrefix + rest)
              && rule.includes(m.id) && (rule.excludes.Some? ==> !rule.excludes.value(m.id))
              && !rules.globalExcludes(m.id)
              && (forall stem :: m.id != stem + ":free")
              && (m.promptPrice != Some("0") || m.completionPrice != Some("0"))
              && (forall day :: m.expiration == On(day) ==> now.day < day)
              && (rules.requireTextOutput ==> "text" in m.outputModalities)
  {
    if rule.vendorPrefix <= m.id {
      assert m.id == rule.vendorPrefix + m.id[|rule.vendorPrefix|..];
    }
    if |m.id| >= 5 && m.id[|m.id| - 5..] == ":free" {
      assert m.id == m.id[..|m.id| - 5] + ":free";
    }
    assert forall stem :: m.id == stem + ":free" ==> |m.id| == |stem| + 5 && m.id[|m.id| - 5..] == ":free";
  }

  /** A rule picks nothing exactly when no model qualifies; otherwise the newest one, ties to the smaller id. */
  lemma SelectMeaning(rule: FamilyRule, catalog: seq<CatalogModel>, rules: CurationRules, now: Date)
    ensures var pick := SelectForRule(rule, catalog, rules, now);
            && (pick.None? <==> forall m :: m in catalog ==> !IsCandidate(rule, m, rules, now))
            && (pick.Some? ==>
                  && pick.value in catalog && IsCandidate(rule, pick.value, rules, now)
                  && forall m :: m in catalog && IsCandidate(rule, m, rules, now) ==>
                       m.created < pick.value.created
                       || (m.created == pick.value.created && StringLe(pick.value.id, m.id)))
  {
    var keep := (m: CatalogModel) => IsCandidate(rule, m, rules, now);
    var candidates := Filter(catalog, keep);
    forall m ensures m in candidates <==> m in catalog && keep(m) {
      FilterMember(catalog, keep, m);
    }
    if candidates != [] {
      assert candidates[0] in candidates;
      forall m | m in candidates ensures MinByKey(candidates) in candidates && KeyLe(MinByKey(candidates), m) {
        MinByKeyIsLeast(candidates, m);
      }
      assert MinByKey(candidates) in candidates by { MinByKeyIsLeast(candidates, candidates[0]); }
    }
  }

  /** Entries that tie on the whole sort key are the same entry; pairwise distinct ids imply this. */
  ghost predicate TieFree(catalog: seq<CatalogModel>) {
    forall a, b :: a in catalog && b in catalog && a.id == b.id && a.created == b.created ==> a == b
  }

  lemma DistinctIdsAreTieFree(catalog: seq<CatalogModel>)
    requires forall i, j :: 0 <= i < j < |catalog| ==> catalog[i].id != catalog[j].id
    ensures TieFree(catalog)
  {
  }

  /** API response order never matters to a rule's pick. */
  lemma SelectIgnoresOrder(rule: FamilyRule, c: seq<CatalogModel>, c': seq<CatalogModel>,
                           rules: CurationRules, now: Date)
    requires multiset(c) == multiset(c') && TieFree(c)
    ensures SelectForRule(rule, c, rules, now) == SelectForRule(rule, c', rules, now)
  {
    forall m ensures m in c <==> m in c' {
      assert m in c <==> m in multiset(c);
      assert m in c' <==> m in multiset(c');
    }
    SelectMeaning(rule, c, rules, now);
    SelectMeaning(rule, c', rules, now);
    var p, p' := SelectForRule(rule, c, rules, now), SelectForRule(rule, c', rules, now);
    if p.Some? && p'.Some? {
      assert KeyLe(p.value, p'.value) && KeyLe(p'.value, p.value);
      StringLeAntisymmetric(p.value.id, p'.value.id);
    }
  }

  // ---- names --------------------------------------------------------------------

  function DotsToDashes(s: string): string {
    seq(|s|, i requires 0 <= i < |s| => if s[i] == '.' then '-' else s[i])
  }

  function DeriveNativeName(m: CatalogModel, section: SectionRules): string {
    if m.id in section.idOverrides then section.idOverrides[m.id]
    else if section.idTransform.KeepFullId? then m.id
    else
      var slash := IndexOf(m.id, '/');
      var bare := if slash < |m.id| then m.id[slash + 1..] else m.id;
      if section.idTransform.StripPrefixDotsToDashes? then DotsToDashes(bare) else bare
  }

  /** Lower-cased ASCII letters and digits of `s`, everything else dropped. */
  function Alphanumerics(s: string): string {
    if s == [] then []
    else
      var c := if 'A' <= s[0] <= 'Z' then (s[0] as int + 32) as char else s[0];
      (if IsDigit(c) || 'a' <= c <= 'z' then [c] else []) + Alphanumerics(s[1..])
  }

  /** Index of the first ": ", or |s|. */
  function ColonSpace(s: string): nat
    ensures ColonSpace(s) <= |s| && (ColonSpace(s) < |s| ==> ColonSpace(s) + 2 <= |s|)
  {
    if |s| < 2 then |s|
    else if s[..2] == ": " then 0
    else 1 + ColonSpace(s[1..])
  }

  function StripVendorPrefix(name: string, id: string): string {
    var slash, colon := IndexOf(id, '/'), ColonSpace(name);
    if slash < |id| && colon < |name| && Alphanumerics(name[..colon]) == Alphanumerics(id[..slash])
    then name[colon + 2..]
    else name
  }

  function DeriveDisplayName(m: CatalogModel, nativeName: string, section: SectionRules): Option<string> {
    if !section.emitDisplayName then None
    else if nativeName in section.displayNameOverrides then Some(section.displayNameOverrides[nativeName])
    else Some(StripVendorPrefix(m.name, m.id))
  }

  lemma AlphanumericsFront(s: string)
    requires s != ""
    ensures Alphanumerics(s) == Alphanumerics([s[0]]) + Alphanumerics(s[1..])
  {
    assert [s[0]][1..] == "";
  }

  /** What is kept of a text is what is kept of its parts, in order. */
  lemma {:induction false} AlphanumericsMeaning(a: string, b: string)
    ensures Alphanumerics(a + b) == Alphanumerics(a) + Alphanumerics(b)
  {
    if a == "" {
      assert a + b == b;
    } else {
      AlphanumericsMeaning(a[1..], b);
      AlphanumericsFront(a);
      AlphanumericsFront(a + b);
      hide Alphanumerics;
      assert (a + b)[1..] == a[1..] + b && (a + b)[0] == a[0];
      Assoc(Alphanumerics([a[0]]), Alphanumerics(a[1..]), Alphanumerics(b));
    }
  }

  /** Of one character: a letter in lower case, a digit, or nothing. */
  lemma AlphanumericMeaning(c: char)
    ensures Alphanumerics([c])
            == if 'a' <= c <= 'z' || '0' <= c <= '9' then [c]
               else if 'A' <= c <= 'Z' then ["abcdefghijklmnopqrstuvwxyz"[c as int - 'A' as int]]
               else ""
  {
    assert [c][1..] == "";
    if 'A' <= c <= 'Z' {
      LowerLetter(c as int - 'A' as int);
    }
  }

  lemma LowerLetter(k: nat)
    requires k < 26
    ensures "abcdefghijklmnopqrstuvwxyz"[k] as int == 'a' as int + k
  {
  }

  /** No display name unless asked for; an override wins, even a blank one; otherwise the catalog's, its vendor stripped. */
  lemma DisplayNameMeaning(m: CatalogModel, nativeName: string, section: SectionRules)
    ensures var d := DeriveDisplayName(m, nativeName, section);
            && (d.None? <==> !section.emitDisplayName)
            && forall shown :: d == Some(shown) ==>
                 if nativeName in section.displayNameOverrides.Keys then shown == section.displayNameOverrides[nativeName]
                 else shown == StripVendorPrefix(m.name, m.id)
  {
  }

  /** An override wins; otherwise what follows the first slash, all of an id without one, dots dashed where asked. */
  lemma NativeNameMeaning(m: CatalogModel, section: SectionRules) returns (bare: string)
    ensures if '/' in m.id then exists vendor :: '/' !in vendor && m.id == vendor + "/" + bare else bare == m.id
    ensures var name := DeriveNativeName(m, section);
            if m.id in section.idOverrides then name == section.idOverrides[m.id]
            else match section.idTransform
              case KeepFullId => name == m.id
              case StripPrefix => name == bare
              case StripPrefixDotsToDashes =>
                && '.' !in name && |name| == |bare|
                && forall i :: 0 <= i < |bare| ==> if bare[i] == '.' then name[i] == '-' else name[i] == bare[i]
  {
    var slash := IndexOf(m.id, '/');
    IndexOfMeaning(m.id, '/');
    if slash < |m.id| {
      var vendor := m.id[..slash];
      bare := m.id[slash + 1..];
      assert m.id == vendor + "/" + bare;
    } else {
      bare := m.id;
      assert m.id[..slash] == m.id;
    }
  }

  predicate HasColonSpaceAt(s: string, i: int) {
    0 <= i && i + 2 <= |s| && s[i] == ':' && s[i + 1] == ' '
  }

  lemma {:induction false} ColonSpaceMeaning(s: string)
    ensures ColonSpace(s) < |s| ==> HasColonSpaceAt(s, ColonSpace(s))
    ensures forall i :: 0 <= i < ColonSpace(s) ==> !HasColonSpaceAt(s, i)
  {
    if |s| >= 2 && s[..2] != ": " {
      ColonSpaceMeaning(s[1..]);
      assert !HasColonSpaceAt(s, 0) by { assert s[..2] == [s[0], s[1]]; }
      forall i | 1 <= i < ColonSpace(s) ensures !HasColonSpaceAt(s, i) {
        assert !HasColonSpaceAt(s[1..], i - 1);
      }
    }
  }

  /** "Vendor: Name" loses its first "Vendor: " exactly when that vendor is the one in the id, case and punctuation aside. */
  lemma StrippedNameMeaning(vendor: string, bare: string, shown: string, rest: string)
    requires '/' !in vendor && forall i :: 0 <= i < |shown| ==> !HasColonSpaceAt(shown + ": " + rest, i)
    ensures StripVendorPrefix(shown + ": " + rest, vendor + "/" + bare)
            == if Alphanumerics(shown) == Alphanumerics(vendor) then rest else shown + ": " + rest
  {
    hide Alphanumerics, ColonSpace, IndexOf;
    var name, id := shown + ": " + rest, vendor + "/" + bare;
    FirstColon(shown, rest);
    FirstSlash(vendor, bare);
    assert name[..|shown|] == shown && name[|shown| + 2..] == rest;
  }

  lemma FirstColon(shown: string, rest: string)
    requires forall i :: 0 <= i < |shown| ==> !HasColonSpaceAt(shown + ": " + rest, i)
    ensures ColonSpace(shown + ": " + rest) == |shown|
  {
    hide ColonSpace;
    ColonSpaceMeaning(shown + ": " + rest);
    assert HasColonSpaceAt(shown + ": " + rest, |shown|);
  }

  lemma FirstSlash(vendor: string, bare: string)
    requires '/' !in vendor
    ensures IndexOf(vendor + "/" + bare, '/') == |vendor| && (vendor + "/" + bare)[..|vendor|] == vendor
  {
    hide IndexOf;
    IndexAfterPart(vendor, '/', bare);
    assert vendor + ['/'] + bare == vendor + "/" + bare;
  }

  /** A name without ": ", or beside an id without a vendor, stays. */
  lemma UnstrippedName(name: string, id: string)
    requires '/' !in id || forall i :: !HasColonSpaceAt(name, i)
    ensures StripVendorPrefix(name, id) == name
  {
    IndexOfMeaning(id, '/');
    ColonSpaceMeaning(name);
  }

  // ---- the runtime-visible view of a section ---------------------------------------

  /** Python truthiness of an optional string. */
  predicate Truthy(d: Option<string>) {
    d.Some? && d.value != ""
  }

  /** One loop step over `by_name`: a new name is appended, an old one gains a missing display name in place. */
  function Upsert(byName: seq<RecommendedModel>, m: RecommendedModel): seq<RecommendedModel> {
    if byName == [] then [m]
    else if byName[0].name == m.name then
      [if Truthy(m.displayName) && !Truthy(byName[0].displayName) then m else byName[0]] + byName[1..]
    else [byName[0]] + Upsert(byName[1..], m)
  }

  function UpsertAll(byName: seq<RecommendedModel>, ms: seq<RecommendedModel>): seq<RecommendedModel>
    decreases |ms|
  {
    if ms == [] then byName else UpsertAll(Upsert(byName, ms[0]), ms[1..])
  }

  function Listed(section: ProviderSection): seq<RecommendedModel> {
    [RecommendedModel(section.defaultModel, None)] + section.models
  }

  function Visible(section: ProviderSection): seq<RecommendedModel> {
    UpsertAll([], Listed(section))
  }

  ghost predicate DistinctNames(ms: seq<RecommendedModel>) {
    forall i, j :: 0 <= i < j < |ms| ==> ms[i].name != ms[j].name
  }

  lemma {:induction false} UpsertAllAppend(byName: seq<RecommendedModel>, ms: seq<RecommendedModel>, m: RecommendedModel)
    ensures UpsertAll(byName, ms + [m]) == Upsert(UpsertAll(byName, ms), m)
    decreases |ms|
  {
    if ms == [] {
      assert ([m] + [])[1..] == [];
      assert ms + [m] == [m];
    } else {
      assert (ms + [m])[0] == ms[0] && (ms + [m])[1..] == ms[1..] + [m];
      UpsertAllAppend(Upsert(byName, ms[0]), ms[1..], m);
    }
  }

  method VisibleModels(section: Option<ProviderSection>) returns (visible: seq<RecommendedModel>)
    ensures visible == if section.None? then [] else Visible(section.value)
  {
    if section.None? {
      return [];
    }
    var listed := Listed(section.value);
    visible := [];
    for i := 0 to |listed|
      invariant visible == UpsertAll([], listed[..i])
    {
      var model := listed[i];
      var at := NameIndex(visible, model.name);
      ghost var before := visible;
      UpsertAt(visible, model);
      if at.None? {
        visible := visible + [model];
      } else if Truthy(model.displayName) && !Truthy(visible[at.value].displayName) {
        visible := visible[at.value := model];
      }
      assert listed[..i + 1] == listed[..i] + [model];
      UpsertAllAppend([], listed[..i], model);
    }
    assert listed[..|listed|] == listed;
  }

  /** Position of the entry called `name`. */
  function NameIndex(ms: seq<RecommendedModel>, name: string): (at: Option<nat>)
    ensures at.Some? ==> at.value < |ms| && ms[at.value].name == name
    ensures at.Some? ==> forall i :: 0 <= i < at.value ==> ms[i].name != name
    ensures at.None? ==> forall i :: 0 <= i < |ms| ==> ms[i].name != name
  {
    if ms == [] then None
    else if ms[0].name == name then Some(0)
    else match NameIndex(ms[1..], name)
      case None => None
      case Some(i) => Some(i + 1)
  }

  lemma {:induction false} UpsertAt(byName: seq<RecommendedModel>, m: RecommendedModel)
    ensures Upsert(byName, m) ==
            match NameIndex(byName, m.name)
            case None => byName + [m]
            case Some(i) =>
              if Truthy(m.displayName) && !Truthy(byName[i].displayName) then byName[i := m] else byName
  {
    if byName != [] && byName[0].name != m.name {
      UpsertAt(byName[1..], m);
      assert byName == [byName[0]] + byName[1..];
    }
  }

  /** The name shown for the default entry: the view starts from a bare default. */
  function Shown(d: Option<string>): Option<string> {
    if Truthy(d) then d else None
  }

  lemma {:induction false} UpsertFresh(byName: seq<RecommendedModel>, ms: seq<RecommendedModel>)
    requires DistinctNames(byName + ms)
    ensures UpsertAll(byName, ms) == byName + ms
    decreases |ms|
  {
    if ms == [] {
      assert byName + ms == byName;
    } else {
      forall i | 0 <= i < |byName| ensures byName[i].name != ms[0].name {
        assert (byName + ms)[i] == byName[i] && (byName + ms)[|byName|] == ms[0];
      }
      UpsertAt(byName, ms[0]);
      assert (byName + [ms[0]]) + ms[1..] == byName + ms;
      UpsertFresh(byName + [ms[0]], ms[1..]);
    }
  }

  /** A default-first section without repeated names shows exactly its entries. */
  lemma VisibleOfDefaultFirst(section: ProviderSection)
    requires section.models != [] && section.models[0].name == section.defaultModel
    requires DistinctNames(section.models)
    ensures Visible(section) ==
            [RecommendedModel(section.defaultModel, Shown(section.models[0].displayName))] + section.models[1..]
  {
    var bare := RecommendedModel(section.defaultModel, None);
    var first := RecommendedModel(section.defaultModel, Shown(section.models[0].displayName));
    var l := Listed(section);
    assert l[0] == bare && l[1..] == section.models;
    assert Upsert([], bare) == [bare];
    assert UpsertAll([], l) == UpsertAll([bare], section.models);
    assert Upsert([bare], section.models[0]) == [first];
    assert UpsertAll([bare], section.models) == UpsertAll(Upsert([bare], section.models[0]), section.models[1..]);
    var whole := [first] + section.models[1..];
    forall i, j | 0 <= i < j < |whole| ensures whole[i].name != whole[j].name {
      assert whole[i].name == section.models[i].name && whole[j].name == section.models[j].name;
    }
    UpsertFresh([first], section.models[1..]);
  }

  /** Some entry of `v` carries `x`'s name, and a display name if `x` has one. */
  ghost predicate Covered(x: RecommendedModel, v: seq<RecommendedModel>) {
    exists k :: 0 <= k < |v| && v[k].name == x.name && (Truthy(x.displayName) ==> Truthy(v[k].displayName))
  }

  lemma UpsertCovers(u: seq<RecommendedModel>, m: RecommendedModel, x: RecommendedModel)
    requires x == m || Covered(x, u)
    ensures Covered(x, Upsert(u, m))
  {
    UpsertAt(u, m);
    var v := Upsert(u, m);
    var at := NameIndex(u, m.name);
    if x == m {
      var k := if at.None? then |u| else at.value;
      assert v[k].name == m.name;
    } else {
      var k :| 0 <= k < |u| && u[k].name == x.name && (Truthy(x.displayName) ==> Truthy(u[k].displayName));
      assert v[k].name == x.name;
    }
  }

  lemma UpsertKeeps(u: seq<RecommendedModel>, m: RecommendedModel)
    requires DistinctNames(u)
    ensures DistinctNames(Upsert(u, m))
    ensures forall x :: x in Upsert(u, m) ==> x == m || x in u
  {
    UpsertAt(u, m);
  }

  /** What the view means: each listed name once, with a non-empty display name whenever any entry has one. */
  lemma {:induction false} VisibleMeaning(ms: seq<RecommendedModel>)
    ensures DistinctNames(UpsertAll([], ms))
    ensures forall x :: x in UpsertAll([], ms) ==> x in ms
    ensures forall x :: x in ms ==> Covered(x, UpsertAll([], ms))
    decreases |ms|
  {
    if ms != [] {
      var init, last := ms[..|ms| - 1], ms[|ms| - 1];
      assert ms == init + [last];
      VisibleMeaning(init);
      UpsertAllAppend([], init, last);
      UpsertKeeps(UpsertAll([], init), last);
      forall x | x in ms ensures Covered(x, UpsertAll([], ms)) {
        UpsertCovers(UpsertAll([], init), last, x);
      }
    }
  }

  /** Nothing before position `i` has its name. */
  ghost predicate FirstNamed(ms: seq<RecommendedModel>, i: nat) {
    i < |ms| && forall j :: 0 <= j < i ==> ms[j].name != ms[i].name
  }

  /** `m` is the first entry of its name with a display name, or the first of all if none has one. */
  ghost predicate ShownAs(ms: seq<RecommendedModel>, m: RecommendedModel) {
    exists i :: 0 <= i < |ms| && ms[i] == m &&
                if Truthy(m.displayName)
                then forall j :: 0 <= j < i && ms[j].name == m.name ==> !Truthy(ms[j].displayName)
                else FirstNamed(ms, i) && forall j :: 0 <= j < |ms| && ms[j].name == m.name ==> !Truthy(ms[j].displayName)
  }

  lemma ShownAppend(init: seq<RecommendedModel>, last: RecommendedModel, m: RecommendedModel)
    requires ShownAs(init, m)
    ensures if m.name == last.name && Truthy(last.displayName) && !Truthy(m.displayName)
            then ShownAs(init + [last], last) else ShownAs(init + [last], m)
  {
    var ms := init + [last];
    var i :| 0 <= i < |init| && init[i] == m &&
             if Truthy(m.displayName)
             then forall j :: 0 <= j < i && init[j].name == m.name ==> !Truthy(init[j].displayName)
             else FirstNamed(init, i) && forall j :: 0 <= j < |init| && init[j].name == m.name ==> !Truthy(init[j].displayName);
    assert ms[i] == m && ms[|init|] == last;
    assert forall j :: 0 <= j < |init| ==> ms[j] == init[j];
  }

  /** `v` has one entry for each name of `ms`, at the ascending positions `at` where the names are first listed. */
  ghost predicate InListOrder(ms: seq<RecommendedModel>, at: seq<nat>, v: seq<RecommendedModel>) {
    && |at| == |v| && (forall j, k :: 0 <= j < k < |at| ==> at[j] < at[k])
    && (forall i: nat :: FirstNamed(ms, i) <==> i in at)
    && forall k :: 0 <= k < |v| ==> at[k] < |ms| && v[k].name == ms[at[k]].name
  }

  /** The view in full: names in the order first listed, each with the entry that shows its display name. */
  lemma {:induction false} VisibleInOrder(ms: seq<RecommendedModel>) returns (at: seq<nat>)
    ensures InListOrder(ms, at, UpsertAll([], ms))
    ensures forall m :: m in UpsertAll([], ms) ==> ShownAs(ms, m)
    decreases |ms|
  {
    at := [];
    if ms != [] {
      var init, last := ms[..|ms| - 1], ms[|ms| - 1];
      assert ms == init + [last];
      at := VisibleInOrder(init);
      var u := UpsertAll([], init);
      UpsertAllAppend([], init, last);
      UpsertAt(u, last);
      VisibleMeaning(init);
      LastShown(init, last, u);
      SameNames(init, u, last.name);
      FirstNamedAppend(init, last);
      hide ShownAs, InListOrder, FirstNamed, Covered;
      if NameIndex(u, last.name).None? {
        NewListed(init, last, u, at);
        at := at + [|init|];
      } else {
        OldListed(init, last, u, UpsertAll([], ms), at);
      }
    }
  }

  /** A new name comes last. */
  lemma NewListed(init: seq<RecommendedModel>, last: RecommendedModel, u: seq<RecommendedModel>, at: seq<nat>)
    requires InListOrder(init, at, u) && forall j :: 0 <= j < |init| ==> init[j].name != last.name
    ensures InListOrder(init + [last], at + [|init|], u + [last])
  {
    FirstNamedAppend(init, last);
    hide FirstNamed;
    var more := at + [|init|];
    assert forall i :: i in more <==> i in at || i == |init|;
  }

  /** A name already listed keeps its place. */
  lemma OldListed(init: seq<RecommendedModel>, last: RecommendedModel, u: seq<RecommendedModel>, v: seq<RecommendedModel>,
                  at: seq<nat>)
    requires InListOrder(init, at, u) && exists j :: 0 <= j < |init| && init[j].name == last.name
    requires |v| == |u| && forall k :: 0 <= k < |u| ==> v[k].name == u[k].name
    ensures InListOrder(init + [last], at, v)
  {
    FirstNamedAppend(init, last);
    hide FirstNamed;
  }

  lemma FirstNamedAppend(init: seq<RecommendedModel>, last: RecommendedModel)
    ensures forall i: nat :: FirstNamed(init + [last], i) <==>
              FirstNamed(init, i) || (i == |init| && forall j :: 0 <= j < |init| ==> init[j].name != last.name)
  {
    var ms := init + [last];
    assert forall j :: 0 <= j < |init| ==> ms[j] == init[j];
  }

  lemma SameNames(init: seq<RecommendedModel>, u: seq<RecommendedModel>, name: string)
    requires (forall x :: x in u ==> x in init) && forall x :: x in init ==> Covered(x, u)
    ensures NameIndex(u, name).None? <==> forall j :: 0 <= j < |init| ==> init[j].name != name
  {
    match NameIndex(u, name) {
      case None =>
        forall j | 0 <= j < |init| ensures init[j].name != name {
          assert init[j] in init;
        }
      case Some(k) =>
        assert u[k] in u;
    }
  }

  lemma LastShown(init: seq<RecommendedModel>, last: RecommendedModel, u: seq<RecommendedModel>)
    requires DistinctNames(u) && (forall m :: m in u ==> ShownAs(init, m)) && forall x :: x in init ==> Covered(x, u)
    ensures forall m :: m in Upsert(u, last) ==> ShownAs(init + [last], m)
  {
    UpsertAt(u, last);
    NewShown(init, last, u);
    hide ShownAs, Covered, Upsert, Truthy;
    forall m | m in u
      ensures if m.name == last.name && Truthy(last.displayName) && !Truthy(m.displayName)
              then ShownAs(init + [last], last) else ShownAs(init + [last], m)
    {
      ShownAppend(init, last, m);
    }
    var at := NameIndex(u, last.name);
    if at.Some? {
      assert u[at.value] in u;
    }
  }

  /** An entry of a name not listed before is the one shown. */
  lemma NewShown(init: seq<RecommendedModel>, last: RecommendedModel, u: seq<RecommendedModel>)
    requires forall x :: x in init ==> Covered(x, u)
    ensures NameIndex(u, last.name).None? ==> ShownAs(init + [last], last)
  {
    if NameIndex(u, last.name).None? {
      var ms := init + [last];
      assert ms[|init|] == last;
      forall j | 0 <= j < |init| ensures ms[j].name != last.name {
        assert init[j] in init;
      }
    }
  }
}
