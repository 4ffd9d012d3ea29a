/**
 The child side of a tenant migration (backend/alembic/env.py): reading `-x` arguments, choosing
 tenants by range, and walking the chosen schemas.
 */
module AlembicEnv {
  import opened Base
  import opened Text

  const TENANT_ID_PREFIX := "tenant_"

  // ---- `-x key=value` arguments ---------------------------------------------------

  datatype OptionError =
    | InvalidArgument(arg: string)
    | NotAnInteger(key: string)
    | RangeReversed
    | RangeAndSchemas
    | AllAndSchemas
    | NothingChosen

  datatype SchemaOptions = SchemaOptions(
    createSchema: bool, upgradeAllTenants: bool, continueOnError: bool,
    rangeStart: Option<int>, rangeEnd: Option<int>, schemas: Option<seq<string>>)

  function ToLower(s: string): string {
    seq(|s|, i requires 0 <= i < |s| => if 'A' <= s[i] <= 'Z' then (s[i] as int + 32) as char else s[i])
  }

  /** The key and value of one argument, None without an equals sign. */
  function KeyValue(arg: string): Option<(string, string)> {
    var k := IndexOf(arg, '=');
    if k == |arg| then None else Some((Strip(arg[..k]), Strip(arg[k + 1..])))
  }

  /** The dictionary after the first `n` arguments; later values win. */
  function XArgs(raw: seq<string>, n: nat): Result<map<string, string>, OptionError>
    requires n <= |raw|
  {
    if n == 0 then Ok(map[])
    else
      var before := XArgs(raw, n - 1);
      if before.Err? then before
      else match KeyValue(raw[n - 1])
        case None => Err(InvalidArgument(raw[n - 1]))
        case Some((k, v)) => Ok(before.value[k := v])
  }

  /** `x_args.get(key, default).lower() == "true"`. */
  predicate Flag(x: map<string, string>, key: string, byDefault: bool) {
    if key in x then ToLower(x[key]) == "true" else byDefault
  }

  /** Names of a `schemas` value: None for a blank value, blank names dropped. */
  function SchemaNames(value: string): Option<seq<string>> {
    var text := Strip(value);
    if text == "" then None
    else Some(NonBlank(Split(text, ',')))
  }

  function NonBlank(parts: seq<string>): seq<string> {
    if parts == [] then []
    else (if Strip(parts[0]) != "" then [Strip(parts[0])] else []) + NonBlank(parts[1..])
  }

  /** A range bound; `int(...)` is a parameter. */
  function Bound(x: map<string, string>, key: string, parseInt: string -> Option<int>): Result<Option<int>, OptionError> {
    if key !in x then Ok(None)
    else match parseInt(x[key])
      case None => Err(NotAnInteger(key))
      case Some(i) => Ok(Some(i))
  }

  /** The options a filled dictionary stands for. */
  function OptionsOf(x: map<string, string>, multiTenant: bool, parseInt: string -> Option<int>)
    : Result<SchemaOptions, OptionError>
  {
    var start := Bound(x, "tenant_range_start", parseInt);
    if start.Err? then Err(start.error) else
    var end := Bound(x, "tenant_range_end", parseInt);
    if end.Err? then Err(end.error) else
    if start.value.Some? && end.value.Some? && start.value.value > end.value.value then Err(RangeReversed) else
    var schemas := if "schemas" in x then SchemaNames(x["schemas"]) else None;
    var byRange := start.value.Some? || end.value.Some?;
    var byName := schemas.Some? && schemas.value != [];
    var all := Flag(x, "upgrade_all_tenants", false);
    if byRange && byName then Err(RangeAndSchemas) else
    if all && byName then Err(AllAndSchemas) else
    if multiTenant && !(all || byRange) && !byName then Err(NothingChosen) else
    Ok(SchemaOptions(Flag(x, "create_schema", true), all || byRange, Flag(x, "continue", false),
                     start.value, end.value, schemas))
  }

  method GetSchemaOptions(raw: seq<string>, multiTenant: bool, parseInt: string -> Option<int>)
    returns (options: Result<SchemaOptions, OptionError>)
    ensures options == match XArgs(raw, |raw|)
                       case Err(e) => Err(e)
                       case Ok(x) => OptionsOf(x, multiTenant, parseInt)
    ensures options.Ok? ==> OptionsGiven(raw, parseInt, options.value)
  {
    hide OptionsGiven;
    var x: map<string, string> := map[];
    for i := 0 to |raw|
      invariant XArgs(raw, i) == Ok(x)
    {
      var kv := KeyValue(raw[i]);
      if kv.None? {
        XArgsFails(raw, i + 1);
        return Err(InvalidArgument(raw[i]));
      }
      x := x[kv.value.0 := kv.value.1];
    }
    options := OptionsOf(x, multiTenant, parseInt);
    if options.Ok? {
      AcceptedOptions(raw, multiTenant, parseInt);
    }
  }

  /**
   Options are accepted exactly when they do not choose schemas in two ways, by name and all or by range; in a
   multi-tenant deployment they have to in one.
   */
  lemma AcceptedMeaning(x: map<string, string>, multiTenant: bool, parseInt: string -> Option<int>)
    ensures var (start, end) := (Bound(x, "tenant_range_start", parseInt), Bound(x, "tenant_range_end", parseInt));
            var byName := "schemas" in x && SchemaNames(x["schemas"]).Some? && SchemaNames(x["schemas"]).value != [];
            var options := OptionsOf(x, multiTenant, parseInt);
            && (options.Ok? <==>
                  && start.Ok? && end.Ok?
                  && (start.value.Some? && end.value.Some? ==> start.value.value <= end.value.value)
                  && (var broad := Flag(x, "upgrade_all_tenants", false) || start.value.Some? || end.value.Some?;
                      !(byName && broad) && (multiTenant ==> byName || broad)))
            && (options.Ok? ==>
                  && (multiTenant ==> options.value.upgradeAllTenants == !byName)
                  && (options.value.schemas.Some? && options.value.schemas.value != [] <==> byName)
                  && (byName ==> options.value.rangeStart.None? && options.value.rangeEnd.None?))
  {
    hide SchemaNames, Bound, Flag;
  }

  /** Each rejection names the first thing wrong: a bound, then the two together, then two ways of choosing, then none. */
  lemma RejectedMeaning(x: map<string, string>, multiTenant: bool, parseInt: string -> Option<int>)
    requires OptionsOf(x, multiTenant, parseInt).Err?
    ensures var start, end := "tenant_range_start", "tenant_range_end";
            var byName := "schemas" in x && SchemaNames(x["schemas"]).Some? && SchemaNames(x["schemas"]).value != [];
            var bad := (key: string) => key in x && parseInt(x[key]).None?;
            match OptionsOf(x, multiTenant, parseInt).error
            case NotAnInteger(key) => bad(key) && (key == start || (key == end && !bad(start)))
            case RangeReversed =>
              && start in x && end in x && !bad(start) && !bad(end)
              && parseInt(x[start]).value > parseInt(x[end]).value
            case RangeAndSchemas => byName && (start in x || end in x) && !bad(start) && !bad(end)
            case AllAndSchemas => byName && start !in x && end !in x && Flag(x, "upgrade_all_tenants", false)
            case NothingChosen =>
              multiTenant && !byName && start !in x && end !in x && !Flag(x, "upgrade_all_tenants", false)
            case InvalidArgument(_) => false
  {
    hide SchemaNames, Flag;
  }

  // ---- what the arguments say, read off the command line -------------------------------------

  /** Argument `i` gives `key` this value: what stands before its first equals sign and after it, both trimmed. */
  ghost predicate Sets(raw: seq<string>, i: int, key: string, value: string) {
    0 <= i < |raw| && Assigns(raw[i], key, value)
  }

  ghost predicate Assigns(arg: string, key: string, value: string) {
    exists e :: 0 <= e < |arg| && arg[e] == '=' && '=' !in arg[..e] && Trimmed(arg[..e], key) && Trimmed(arg[e + 1..], value)
  }

  /** Nothing after argument `i` and before `n` sets `key`. */
  ghost predicate Newest(raw: seq<string>, i: int, n: nat, key: string) {
    forall j, w :: i < j < n ==> !Sets(raw, j, key, w)
  }

  /** The last of the first `n` arguments for `key` gives it this value. */
  ghost predicate LastOf(raw: seq<string>, n: nat, key: string, v: string) {
    exists i :: i < n && Sets(raw, i, key, v) && Newest(raw, i, n, key)
  }

  ghost predicate Given(raw: seq<string>, key: string, value: string) {
    LastOf(raw, |raw|, key, value)
  }

  ghost predicate NotGiven(raw: seq<string>, key: string) {
    forall i, v :: !Sets(raw, i, key, v)
  }

  /** "true" in any mixture of cases. */
  predicate SaysTrue(v: string) {
    |v| == 4 && v[0] in "tT" && v[1] in "rR" && v[2] in "uU" && v[3] in "eE"
  }

  /** `names` are the non-blank ones among the comma-separated parts of `value`, trimmed, in order. */
  ghost predicate Lists(value: string, names: seq<string>) {
    exists parts: seq<string>, at: seq<nat> :: value == Join(parts, ',') && NonBlankAt(parts, at, names)
  }

  ghost predicate NonBlankAt(parts: seq<string>, at: seq<nat>, names: seq<string>) {
    && |at| == |names| && (forall i :: 0 <= i < |parts| ==> ',' !in parts[i])
    && (forall i, j :: 0 <= i < j < |at| ==> at[i] < at[j])
    && (forall i :: 0 <= i < |at| ==> at[i] < |parts| && Trimmed(parts[at[i]], names[i]) && names[i] != "")
    && forall p :: 0 <= p < |parts| && p !in at ==> Trimmed(parts[p], "")
  }

  lemma AssignsIsKeyValue(arg: string, key: string, value: string)
    ensures Assigns(arg, key, value) <==> KeyValue(arg) == Some((key, value))
  {
    var k := IndexOf(arg, '=');
    IndexOfMeaning(arg, '=');
    if k < |arg| {
      StripIsTrimmed(arg[..k], key);
      StripIsTrimmed(arg[k + 1..], value);
    }
    hide Trimmed, IndexOf, Strip;
    forall e | 0 <= e < |arg| && arg[e] == '=' && '=' !in arg[..e] ensures e == k {
      FirstEquals(arg, e);
    }
  }

  lemma FirstEquals(arg: string, e: nat)
    requires e < |arg| && arg[e] == '=' && '=' !in arg[..e]
    ensures IndexOf(arg, '=') == e
  {
    IndexAfterPart(arg[..e], '=', arg[e + 1..]);
    assert arg == arg[..e] + ['='] + arg[e + 1..];
  }

  /** The first argument without an equals sign is the error; there is none exactly when all have one. */
  lemma {:induction false} ArgumentsAccepted(raw: seq<string>, n: nat)
    requires n <= |raw|
    ensures XArgs(raw, n).Ok? <==> forall i :: 0 <= i < n ==> '=' in raw[i]
    ensures XArgs(raw, n).Err? ==>
              exists i :: 0 <= i < n && XArgs(raw, n).error == InvalidArgument(raw[i]) && '=' !in raw[i]
                          && forall j :: 0 <= j < i ==> '=' in raw[j]
  {
    if n > 0 {
      ArgumentsAccepted(raw, n - 1);
      HasEquals(raw[n - 1]);
    }
  }

  /** Where the dictionary's value of `key` comes from; -1 for a key it does not hold. */
  lemma {:induction false} SetAt(raw: seq<string>, n: nat, key: string) returns (i: int)
    requires n <= |raw| && XArgs(raw, n).Ok?
    ensures -1 <= i < n && (i >= 0 <==> key in XArgs(raw, n).value)
    ensures i >= 0 ==> KeyValue(raw[i]) == Some((key, XArgs(raw, n).value[key]))
    ensures forall j :: i < j < n ==> KeyValue(raw[j]).Some? && KeyValue(raw[j]).value.0 != key
  {
    hide KeyValue;
    i := -1;
    if n > 0 {
      i := SetAt(raw, n - 1, key);
      if KeyValue(raw[n - 1]).value.0 == key {
        i := n - 1;
      }
    }
  }

  lemma HasEquals(arg: string)
    ensures KeyValue(arg).Some? <==> '=' in arg
  {
    var k := IndexOf(arg, '=');
    IndexOfMeaning(arg, '=');
    assert arg[..|arg|] == arg;
  }

  lemma GivenAt(raw: seq<string>, i: nat, key: string, v: string)
    requires i < |raw| && KeyValue(raw[i]) == Some((key, v))
    requires forall j :: i < j < |raw| ==> KeyValue(raw[j]).Some? && KeyValue(raw[j]).value.0 != key
    ensures Given(raw, key, v) && Stripped(v) && !NotGiven(raw, key)
    ensures forall w :: Given(raw, key, w) ==> w == v
  {
    forall arg, w ensures Assigns(arg, key, w) <==> KeyValue(arg) == Some((key, w)) {
      AssignsIsKeyValue(arg, key, w);
    }
    ValueStripped(raw[i], key, v);
    hide KeyValue, Assigns;
    assert Sets(raw, i, key, v);
    assert Newest(raw, i, |raw|, key);
    forall w | Given(raw, key, w) ensures w == v {
      var j :| j < |raw| && Sets(raw, j, key, w) && Newest(raw, j, |raw|, key);
    }
  }

  lemma NeverGiven(raw: seq<string>, key: string)
    requires forall j :: 0 <= j < |raw| ==> KeyValue(raw[j]).Some? && KeyValue(raw[j]).value.0 != key
    ensures NotGiven(raw, key) && forall w :: !Given(raw, key, w)
  {
    forall arg, w ensures Assigns(arg, key, w) <==> KeyValue(arg) == Some((key, w)) {
      AssignsIsKeyValue(arg, key, w);
    }
    hide KeyValue, Assigns;
  }

  /** A key's value in the dictionary is the one given last on the command line. */
  lemma KeyGiven(raw: seq<string>, x: map<string, string>, key: string)
    requires XArgs(raw, |raw|) == Ok(x)
    ensures key in x ==> Given(raw, key, x[key]) && Stripped(x[key])
    ensures forall v :: Given(raw, key, v) ==> key in x && x[key] == v
    ensures key !in x <==> NotGiven(raw, key)
  {
    var i := SetAt(raw, |raw|, key);
    hide XArgs, KeyValue, Given, NotGiven;
    if i >= 0 {
      GivenAt(raw, i, key, x[key]);
    } else {
      NeverGiven(raw, key);
    }
  }

  lemma ValueStripped(arg: string, key: string, value: string)
    requires Assigns(arg, key, value)
    ensures Stripped(value)
  {
  }

  lemma FlagSaysTrue(x: map<string, string>, key: string, byDefault: bool)
    ensures Flag(x, key, byDefault) <==> if key in x then SaysTrue(x[key]) else byDefault
  {
    if key in x {
      var v := x[key];
      var w := ToLower(v);
      assert "true"[0] == 't' && "true"[1] == 'r' && "true"[2] == 'u' && "true"[3] == 'e';
      assert w == "true" <==> |w| == 4 && w[0] == 't' && w[1] == 'r' && w[2] == 'u' && w[3] == 'e';
    }
  }

  lemma {:induction false} NonBlankPositions(parts: seq<string>) returns (at: seq<nat>)
    requires forall i :: 0 <= i < |parts| ==> ',' !in parts[i]
    ensures NonBlankAt(parts, at, NonBlank(parts))
  {
    at := [];
    if parts != [] {
      var first := Strip(parts[0]);
      var rest := NonBlankPositions(parts[1..]);
      StripIsTrimmed(parts[0], first);
      var names := NonBlank(parts[1..]);
      assert NonBlank(parts) == (if first != "" then [first] else []) + names;
      hide *;
      at := Shifted(rest);
      if first == "" {
        BlankPart(parts, rest, names);
        assert [] + names == names;
      } else {
        NamedPart(parts, rest, names, first);
        at := [0] + at;
      }
    }
  }

  function Shifted(at: seq<nat>): seq<nat> {
    seq(|at|, i requires 0 <= i < |at| => at[i] + 1)
  }

  lemma ShiftedMember(at: seq<nat>, p: nat)
    ensures p + 1 in Shifted(at) <==> p in at
  {
    assert forall i :: 0 <= i < |at| ==> Shifted(at)[i] == at[i] + 1;
  }

  lemma BlankPart(parts: seq<string>, rest: seq<nat>, names: seq<string>)
    requires parts != [] && NonBlankAt(parts[1..], rest, names) && ',' !in parts[0] && Trimmed(parts[0], "")
    ensures NonBlankAt(parts, Shifted(rest), names)
  {
    hide Trimmed;
    forall p | 0 <= p < |parts| && p !in Shifted(rest) ensures Trimmed(parts[p], "") {
      if p > 0 {
        ShiftedMember(rest, p - 1);
        assert parts[p] == parts[1..][p - 1];
      }
    }
  }

  lemma NamedPart(parts: seq<string>, rest: seq<nat>, names: seq<string>, first: string)
    requires parts != [] && NonBlankAt(parts[1..], rest, names) && ',' !in parts[0]
    requires Trimmed(parts[0], first) && first != ""
    ensures NonBlankAt(parts, [0] + Shifted(rest), [first] + names)
  {
    hide Trimmed;
    var at := [0] + Shifted(rest);
    assert at[0] == 0 && forall i :: 1 <= i < |at| ==> at[i] == rest[i - 1] + 1;
    forall p | 0 <= p < |parts| && p !in at ensures Trimmed(parts[p], "") {
      ShiftedMember(rest, p - 1);
      assert parts[p] == parts[1..][p - 1];
    }
  }

  lemma SchemaNamesMeaning(value: string)
    requires Stripped(value)
    ensures SchemaNames(value).None? <==> value == ""
    ensures SchemaNames(value).Some? ==> Lists(value, SchemaNames(value).value)
  {
    StripMeaning(value);
    var parts := Split(value, ',');
    SplitParts(value, ',');
    JoinSplit(value, ',');
    var at := NonBlankPositions(parts);
    assert value != "" ==> SchemaNames(value) == Some(NonBlank(parts));
  }

  /** A bound is absent, or what its last argument parses to. */
  ghost predicate BoundGiven(raw: seq<string>, key: string, parseInt: string -> Option<int>, bound: Option<int>) {
    && (NotGiven(raw, key) ==> bound == None)
    && forall v :: Given(raw, key, v) ==> bound.Some? && bound == parseInt(v)
  }

  /** A switch is on if its last argument says so, or by default. */
  ghost predicate SwitchGiven(raw: seq<string>, key: string, byDefault: bool, on: bool) {
    && (NotGiven(raw, key) ==> on == byDefault)
    && forall v :: Given(raw, key, v) ==> on == SaysTrue(v)
  }

  /** Each accepted option is what its own last argument says; a range also asks for all tenants. */
  ghost predicate OptionsGiven(raw: seq<string>, parseInt: string -> Option<int>, o: SchemaOptions) {
    && BoundGiven(raw, "tenant_range_start", parseInt, o.rangeStart)
    && BoundGiven(raw, "tenant_range_end", parseInt, o.rangeEnd)
    && SwitchGiven(raw, "create_schema", true, o.createSchema)
    && SwitchGiven(raw, "continue", false, o.continueOnError)
    && (if o.rangeStart.Some? || o.rangeEnd.Some? then o.upgradeAllTenants
        else SwitchGiven(raw, "upgrade_all_tenants", false, o.upgradeAllTenants))
    && (NotGiven(raw, "schemas") || Given(raw, "schemas", "") ==> o.schemas == None)
    && forall v :: Given(raw, "schemas", v) && v != "" ==> o.schemas.Some? && Lists(v, o.schemas.value)
  }

  /** What the arguments stand for, in the source's own terms: every option from the last argument for its key. */
  lemma AcceptedOptions(raw: seq<string>, multiTenant: bool, parseInt: string -> Option<int>)
    requires XArgs(raw, |raw|).Ok? && OptionsOf(XArgs(raw, |raw|).value, multiTenant, parseInt).Ok?
    ensures OptionsGiven(raw, parseInt, OptionsOf(XArgs(raw, |raw|).value, multiTenant, parseInt).value)
  {
    var x := XArgs(raw, |raw|).value;
    BoundFrom(raw, x, "tenant_range_start", parseInt);
    BoundFrom(raw, x, "tenant_range_end", parseInt);
    SwitchFrom(raw, x, "create_schema", true);
    SwitchFrom(raw, x, "continue", false);
    SwitchFrom(raw, x, "upgrade_all_tenants", false);
    SchemasFrom(raw, x);
    OptionFields(x, multiTenant, parseInt);
    hide OptionsOf, XArgs, Given, NotGiven, Lists, SchemaNames, Flag, Bound, BoundGiven, SwitchGiven;
  }

  lemma OptionFields(x: map<string, string>, multiTenant: bool, parseInt: string -> Option<int>)
    requires OptionsOf(x, multiTenant, parseInt).Ok?
    ensures var (start, end) := (Bound(x, "tenant_range_start", parseInt), Bound(x, "tenant_range_end", parseInt));
            var o := OptionsOf(x, multiTenant, parseInt).value;
            && start == Ok(o.rangeStart) && end == Ok(o.rangeEnd)
            && o.createSchema == Flag(x, "create_schema", true) && o.continueOnError == Flag(x, "continue", false)
            && o.upgradeAllTenants == (Flag(x, "upgrade_all_tenants", false) || o.rangeStart.Some? || o.rangeEnd.Some?)
            && o.schemas == if "schemas" in x then SchemaNames(x["schemas"]) else None
  {
    hide SchemaNames, Flag, Bound;
  }

  lemma BoundFrom(raw: seq<string>, x: map<string, string>, key: string, parseInt: string -> Option<int>)
    requires XArgs(raw, |raw|) == Ok(x)
    ensures Bound(x, key, parseInt).Ok? ==> BoundGiven(raw, key, parseInt, Bound(x, key, parseInt).value)
  {
    KeyGiven(raw, x, key);
    hide XArgs, Given, NotGiven;
  }

  lemma SwitchFrom(raw: seq<string>, x: map<string, string>, key: string, byDefault: bool)
    requires XArgs(raw, |raw|) == Ok(x)
    ensures SwitchGiven(raw, key, byDefault, Flag(x, key, byDefault))
  {
    KeyGiven(raw, x, key);
    FlagSaysTrue(x, key, byDefault);
    hide XArgs, Given, NotGiven, Flag, SaysTrue;
  }

  lemma SchemasFrom(raw: seq<string>, x: map<string, string>)
    requires XArgs(raw, |raw|) == Ok(x)
    ensures var schemas := if "schemas" in x then SchemaNames(x["schemas"]) else None;
            && (NotGiven(raw, "schemas") || Given(raw, "schemas", "") ==> schemas == None)
            && forall v :: Given(raw, "schemas", v) && v != "" ==> schemas.Some? && Lists(v, schemas.value)
  {
    KeyGiven(raw, x, "schemas");
    if "schemas" in x {
      SchemaNamesMeaning(x["schemas"]);
    }
    hide XArgs, Given, NotGiven, SchemaNames, Lists;
  }

  lemma {:induction false} XArgsFails(raw: seq<string>, n: nat)
    requires n <= |raw| && XArgs(raw, n).Err?
    ensures XArgs(raw, |raw|) == XArgs(raw, n)
    decreases |raw| - n
  {
    if n < |raw| {
      XArgsFails(raw, n + 1);
    }
  }

  /** A name that survives the trip through `schemas=a,b,c`. */
  predicate PlainName(name: string) {
    name != "" && ',' !in name && Stripped(name)
  }

  lemma {:induction false} NonBlankPlain(parts: seq<string>)
    requires forall i :: 0 <= i < |parts| ==> ',' !in parts[i]
    ensures forall i :: 0 <= i < |NonBlank(parts)| ==> PlainName(NonBlank(parts)[i])
    ensures (forall i :: 0 <= i < |parts| ==> PlainName(parts[i])) ==> NonBlank(parts) == parts
  {
    if parts != [] {
      StripMeaning(parts[0]);
      NonBlankPlain(parts[1..]);
      assert parts == [parts[0]] + parts[1..];
    }
  }

  lemma {:induction false} JoinStripped(names: seq<string>)
    requires names != [] && forall i :: 0 <= i < |names| ==> PlainName(names[i])
    ensures var j := Join(names, ','); j != "" && !IsSpace(j[0]) && !IsSpace(j[|j| - 1])
  {
    if |names| > 1 {
      JoinStripped(names[1..]);
    }
  }

  /** Printing a batch and parsing it back gives the same names exactly when there are some and all are plain. */
  lemma SchemaNamesRoundTrip(names: seq<string>)
    ensures SchemaNames(Join(names, ',')) == Some(names)
            <==> names != [] && forall i :: 0 <= i < |names| ==> PlainName(names[i])
  {
    var csv := Join(names, ',');
    StripMeaning(csv);
    SplitParts(Strip(csv), ',');
    NonBlankPlain(Split(Strip(csv), ','));
    if names != [] && forall i :: 0 <= i < |names| ==> PlainName(names[i]) {
      JoinStripped(names);
      SplitJoin(names, ',');
    }
  }

  lemma XArgsOfTwo(a: string, b: string, kv: (string, string), kv': (string, string))
    requires KeyValue(a) == Some(kv) && KeyValue(b) == Some(kv')
    ensures XArgs([a], 1) == Ok(map[kv.0 := kv.1])
    ensures XArgs([a, b], 2) == Ok(map[kv.0 := kv.1][kv'.0 := kv'.1])
  {
    assert XArgs([a], 0) == Ok(map[]) && [a][0] == a;
    assert XArgs([a, b], 0) == Ok(map[]) && [a, b][0] == a && [a, b][1] == b;
    assert XArgs([a, b], 1) == Ok(map[kv.0 := kv.1]);
  }

  /** The dictionary filled from the runner's arguments. */
  function BatchArgs(csv: string, continueOnError: bool): map<string, string> {
    if continueOnError then map["schemas" := Strip(csv)]["continue" := "true"] else map["schemas" := Strip(csv)]
  }

  lemma BatchDictionary(csv: string, continueOnError: bool)
    ensures var raw := ["schemas=" + csv] + if continueOnError then ["continue=true"] else [];
            XArgs(raw, |raw|) == Ok(BatchArgs(csv, continueOnError))
  {
    hide KeyValue, XArgs;
    SchemasArgument(csv);
    ContinueArgument();
    var first, second := "schemas=" + csv, "continue=true";
    XArgsOfTwo(first, second, ("schemas", Strip(csv)), ("continue", "true"));
    if continueOnError {
      assert [first] + [second] == [first, second];
    } else {
      assert [first] + [] == [first];
    }
  }

  lemma SchemasArgument(csv: string)
    ensures KeyValue("schemas=" + csv) == Some(("schemas", Strip(csv)))
  {
    assert '=' !in "schemas" && "schemas" + ['='] == "schemas=";
    ArgumentParts("schemas", csv, "schemas=" + csv);
  }

  lemma PlainWords()
    ensures Stripped("continue") && Stripped("true")
  {
  }

  lemma ContinueArgument()
    ensures KeyValue("continue=true") == Some(("continue", "true"))
  {
    hide Strip, KeyValue, IsSpace;
    assert '=' !in "continue" && "continue" + ['='] + "true" == "continue=true";
    PlainWords();
    ArgumentParts("continue", "true", "continue=true");
    StripMeaning("true");
  }

  /** The schemas a batch process works on: what its `schemas=` argument parses to. */
  function Targets(batch: seq<string>): seq<string> {
    match SchemaNames(Join(batch, ','))
    case None => []
    case Some(names) => names
  }

  lemma SchemasOnlyOptions(batch: seq<string>, continueOnError: bool, parseInt: string -> Option<int>)
    ensures OptionsOf(BatchArgs(Join(batch, ','), continueOnError), true, parseInt)
            == if Targets(batch) == [] then Err(NothingChosen)
               else Ok(SchemaOptions(true, false, continueOnError, None, None, Some(Targets(batch))))
  {
    hide BatchArgs, SchemaNames, Join, Strip, Flag;
    BatchKeys(Join(batch, ','), continueOnError);
  }

  lemma BatchKeys(csv: string, continueOnError: bool)
    ensures var x := BatchArgs(csv, continueOnError);
            && "tenant_range_start" !in x && "tenant_range_end" !in x
            && !Flag(x, "upgrade_all_tenants", false) && Flag(x, "create_schema", true)
            && Flag(x, "continue", false) == continueOnError
            && "schemas" in x && SchemaNames(x["schemas"]) == SchemaNames(csv)
  {
    hide Split;
    StripMeaning(csv);
    StripMeaning(Strip(csv));
    hide Strip;
    assert |"schemas"| == 7 && |"continue"| == 8;
    assert |"tenant_range_start"| == 18 && |"tenant_range_end"| == 16;
    assert |"upgrade_all_tenants"| == 19 && |"create_schema"| == 13;
    assert ToLower("true") == "true";
  }

  /** What any batch's arguments are read as, with or without the retry flag. */
  lemma BatchArguments(batch: seq<string>, continueOnError: bool, parseInt: string -> Option<int>)
    ensures var raw := ["schemas=" + Join(batch, ',')] + if continueOnError then ["continue=true"] else [];
            XArgs(raw, |raw|).Ok?
            && OptionsOf(XArgs(raw, |raw|).value, true, parseInt)
               == if Targets(batch) == [] then Err(NothingChosen)
                  else Ok(SchemaOptions(true, false, continueOnError, None, None, Some(Targets(batch))))
  {
    BatchDictionary(Join(batch, ','), continueOnError);
    SchemasOnlyOptions(batch, continueOnError, parseInt);
  }

  /** The arguments the runner builds for a batch are read back as that batch, with or without the retry flag. */
  lemma BatchArgumentsRoundTrip(names: seq<string>, continueOnError: bool, parseInt: string -> Option<int>)
    requires names != [] && forall i :: 0 <= i < |names| ==> PlainName(names[i])
    ensures var raw := ["schemas=" + Join(names, ',')] + if continueOnError then ["continue=true"] else [];
            XArgs(raw, |raw|).Ok?
            && OptionsOf(XArgs(raw, |raw|).value, true, parseInt)
               == Ok(SchemaOptions(true, false, continueOnError, None, None, Some(names)))
  {
    SchemaNamesRoundTrip(names);
    BatchArguments(names, continueOnError, parseInt);
  }

  lemma ArgumentParts(key: string, value: string, arg: string)
    requires '=' !in key && Stripped(key)
    requires arg == key + ['='] + value
    ensures KeyValue(arg) == Some((key, Strip(value)))
  {
    IndexAfterPart(key, '=', value);
    StripMeaning(key);
    assert arg[..|key|] == key && arg[|key| + 1..] == value;
  }

  // ---- tenant ranges --------------------------------------------------------------------

  predicate IsTenant(id: string) {
    TENANT_ID_PREFIX <= id
  }

  function Insert(id: string, sorted: seq<string>): seq<string> {
    if sorted == [] || StringLe(id, sorted[0]) then [id] + sorted
    else [sorted[0]] + Insert(id, sorted[1..])
  }

  /** `sorted(ids)`. */
  function Sorted(ids: seq<string>): seq<string> {
    if ids == [] then [] else Insert(ids[0], Sorted(ids[1..]))
  }

  function Clip(i: int, n: nat): nat {
    if i < 0 then (if n + i < 0 then 0 else n + i) else if i > n then n else i
  }

  /** `s[from:to]`, negative indices counted from the end as Python does. */
  function Slice(s: seq<string>, from: int, to: int): seq<string> {
    var a, b := Clip(from, |s|), Clip(to, |s|);
    if a <= b then s[a..b] else []
  }

  /** The tenants whose rank in sorted order lies in the half-open, zero-based range. */
  function TenantsInRange(ids: seq<string>, start: Option<int>, end: Option<int>): seq<string> {
    var sorted := Sorted(Filter(ids, IsTenant));
    var from := if start.None? || start.value < 0 then 0 else start.value;
    var to := if end.None? || end.value > |sorted| then |sorted| else end.value;
    Slice(sorted, from, to)
  }

  function InRange(ids: seq<string>, start: Option<int>, end: Option<int>): seq<string> {
    if start.None? && end.None? then ids
    else
      var chosen := TenantsInRange(ids, start, end);
      Filter(ids, id => id in chosen || !IsTenant(id))
  }

  method FilterTenantsByRange(ids: seq<string>, start: Option<int>, end: Option<int>) returns (filtered: seq<string>)
    ensures filtered == InRange(ids, start, end)
  {
    if start.None? && end.None? {
      return ids;
    }
    var tenants := Filter(ids, IsTenant);
    var nonTenants := Filter(ids, id => !IsTenant(id));
    var sorted := Sorted(tenants);
    SortedMultiset(tenants);
    var startIdx := if start.Some? then start.value else 0;
    var endIdx := if end.Some? then end.value else |sorted|;
    startIdx := if startIdx < 0 then 0 else startIdx;
    endIdx := if |sorted| < endIdx then |sorted| else endIdx;
    var chosen := Slice(sorted, startIdx, endIdx);
    var keep := id => id in chosen || !IsTenant(id);
    filtered := [];
    for i := 0 to |ids|
      invariant filtered == Filter(ids[..i], keep)
    {
      FilterMember(ids, id => !IsTenant(id), ids[i]);
      if ids[i] in chosen || ids[i] in nonTenants {
        filtered := filtered + [ids[i]];
      }
      assert ids[..i + 1] == ids[..i] + [ids[i]];
      FilterAppend(ids[..i], [ids[i]], keep);
    }
    assert ids[..|ids|] == ids;
  }

  lemma {:induction false} InsertMultiset(id: string, sorted: seq<string>)
    ensures multiset(Insert(id, sorted)) == multiset(sorted) + multiset{id}
  {
    if sorted != [] && !StringLe(id, sorted[0]) {
      InsertMultiset(id, sorted[1..]);
      assert sorted == [sorted[0]] + sorted[1..];
    }
  }

  lemma {:induction false} SortedMultiset(ids: seq<string>)
    ensures multiset(Sorted(ids)) == multiset(ids) && |Sorted(ids)| == |ids|
  {
    if ids != [] {
      SortedMultiset(ids[1..]);
      InsertMultiset(ids[0], Sorted(ids[1..]));
      assert ids == [ids[0]] + ids[1..];
    }
    assert |multiset(Sorted(ids))| == |multiset(ids)|;
  }

  ghost predicate Ascending(s: seq<string>) {
    forall i, j :: 0 <= i < j < |s| ==> StringLe(s[i], s[j])
  }

  lemma {:induction false} SortedAscends(ids: seq<string>)
    ensures Ascending(Sorted(ids))
  {
    if ids != [] {
      SortedAscends(ids[1..]);
      InsertAscends(ids[0], Sorted(ids[1..]));
    }
  }

  lemma {:induction false} InsertAscends(id: string, sorted: seq<string>)
    requires Ascending(sorted)
    ensures Ascending(Insert(id, sorted))
  {
    if sorted == [] {
    } else if StringLe(id, sorted[0]) {
      forall j | 0 <= j < |sorted| ensures StringLe(id, sorted[j]) {
        if j > 0 { StringLeTransitive(id, sorted[0], sorted[j]); }
      }
    } else {
      StringLeTotal(id, sorted[0]);
      InsertAscends(id, sorted[1..]);
      var rest := Insert(id, sorted[1..]);
      InsertMultiset(id, sorted[1..]);
      forall j | 0 <= j < |rest| ensures StringLe(sorted[0], rest[j]) {
        assert rest[j] in multiset(rest);
        if rest[j] != id {
          assert rest[j] in sorted[1..];
        }
      }
    }
  }

  lemma {:induction false} DistinctIffCounts(s: seq<string>)
    ensures Distinct(s) <==> forall x :: multiset(s)[x] <= 1
  {
    if s != [] {
      var head, rest := s[0], s[1..];
      assert s == [head] + rest;
      DistinctIffCounts(rest);
      if Distinct(s) {
        assert head !in rest;
      } else if Distinct(rest) {
        assert head in rest;
        assert multiset(s)[head] == 1 + multiset(rest)[head];
      } else {
        var x :| multiset(rest)[x] > 1;
        assert multiset(s)[x] > 1;
      }
    }
  }

  /** Cut points 0 = c0 <= c1 <= ... <= ck reaching past the last tenant. */
  ghost predicate Cuts(cuts: seq<nat>, tenants: nat) {
    && |cuts| >= 2 && cuts[0] == 0 && cuts[|cuts| - 1] >= tenants
    && forall i, j :: 0 <= i < j < |cuts| ==> cuts[i] <= cuts[j]
  }

  function Shard(ids: seq<string>, cuts: seq<nat>, k: nat): seq<string>
    requires k + 1 < |cuts|
  {
    InRange(ids, Some(cuts[k]), Some(cuts[k + 1]))
  }

  lemma SortedDistinct(ids: seq<string>)
    requires Distinct(ids)
    ensures Distinct(Sorted(ids))
  {
    SortedMultiset(ids);
    DistinctIffCounts(ids);
    DistinctIffCounts(Sorted(ids));
  }

  lemma SliceMember(s: seq<string>, from: nat, to: int, r: nat)
    requires Distinct(s) && r < |s|
    ensures s[r] in Slice(s, from, to) <==> from <= r < Clip(to, |s|)
  {
  }

  /** The first rank a range keeps. */
  function Lowest(start: Option<int>): nat {
    if start.None? || start.value < 0 then 0 else start.value
  }

  /** The first rank past a range; a negative end counts back from the last tenant. */
  function Beyond(end: Option<int>, tenants: nat): nat {
    if end.None? then tenants else Clip(end.value, tenants)
  }

  lemma InSorted(ids: seq<string>, id: string)
    ensures id in Sorted(Filter(ids, IsTenant)) <==> id in ids && IsTenant(id)
  {
    var tenants := Filter(ids, IsTenant);
    FilterMember(ids, IsTenant, id);
    SortedMultiset(tenants);
    assert id in tenants <==> id in multiset(tenants);
    assert id in Sorted(tenants) <==> id in multiset(Sorted(tenants));
  }

  /** A tenant is kept when its zero-based rank lies in the half-open range, whatever bounds are given. */
  lemma ShardMember(ids: seq<string>, start: Option<int>, end: Option<int>, r: nat)
    requires Distinct(ids) && r < |Sorted(Filter(ids, IsTenant))|
    ensures var sorted := Sorted(Filter(ids, IsTenant));
            sorted[r] in InRange(ids, start, end) <==> Lowest(start) <= r < Beyond(end, |sorted|)
  {
    var tenants := Filter(ids, IsTenant);
    var sorted := Sorted(tenants);
    var id := sorted[r];
    assert id in sorted;
    InSorted(ids, id);
    FilterDistinct(ids, IsTenant);
    SortedDistinct(tenants);
    if start.Some? || end.Some? {
      SliceMember(sorted, Lowest(start), if end.None? || end.value > |sorted| then |sorted| else end.value, r);
      var chosen := TenantsInRange(ids, start, end);
      FilterMember(ids, x => x in chosen || !IsTenant(x), id);
    }
  }

  /** How many tenants sort before `id`. */
  function Rank(ids: seq<string>, id: string): nat {
    |set t | t in ids && IsTenant(t) && t != id && StringLe(t, id)|
  }

  lemma {:induction false} SetOfDistinct(s: seq<string>)
    requires Distinct(s)
    ensures |set x | x in s| == |s|
  {
    if s != [] {
      SetOfDistinct(s[1..]);
      assert (set x | x in s) == (set x | x in s[1..]) + {s[0]};
    }
  }

  lemma PrefixDistinct(s: seq<string>, r: nat)
    requires Distinct(s) && r <= |s|
    ensures Distinct(s[..r])
  {
  }

  lemma BelowIsPrefix(s: seq<string>, r: nat, t: string)
    requires Ascending(s) && Distinct(s) && r < |s|
    ensures t in s && t != s[r] && StringLe(t, s[r]) <==> t in s[..r]
  {
    hide StringLe;
    if t in s[..r] {
      var j :| 0 <= j < r && s[..r][j] == t;
      assert s[j] == t && StringLe(s[j], s[r]);
    } else if t in s && t != s[r] && StringLe(t, s[r]) {
      assert forall i :: 0 <= i < r ==> s[i] in s[..r];
      var j :| 0 <= j < |s| && s[j] == t;
      StringLeAntisymmetric(s[r], t);
    }
  }

  lemma RankIsPosition(ids: seq<string>, r: nat)
    requires Distinct(ids) && r < |Sorted(Filter(ids, IsTenant))|
    ensures Rank(ids, Sorted(Filter(ids, IsTenant))[r]) == r
  {
    var tenants := Filter(ids, IsTenant);
    var sorted := Sorted(tenants);
    FilterDistinct(ids, IsTenant);
    SortedDistinct(tenants);
    SortedAscends(tenants);
    PrefixDistinct(sorted, r);
    SetOfDistinct(sorted[..r]);
    hide Sorted, Filter, StringLe, Distinct, Ascending;
    forall t ensures t in ids && IsTenant(t) && t != sorted[r] && StringLe(t, sorted[r]) <==> t in sorted[..r] {
      InSorted(ids, t);
      BelowIsPrefix(sorted, r, t);
    }
    assert (set t | t in ids && IsTenant(t) && t != sorted[r] && StringLe(t, sorted[r])) == set x | x in sorted[..r];
  }

  /** The filter without sorting: the original list, less the tenants whose rank is outside the range. */
  lemma RangeByRank(ids: seq<string>, start: Option<int>, end: Option<int>)
    requires Distinct(ids)
    ensures var n := |Filter(ids, IsTenant)|;
            InRange(ids, start, end)
            == Filter(ids, id => !IsTenant(id) || Lowest(start) <= Rank(ids, id) < Beyond(end, n))
  {
    var tenants := Filter(ids, IsTenant);
    var sorted, n := Sorted(tenants), |tenants|;
    var byRank := id => !IsTenant(id) || Lowest(start) <= Rank(ids, id) < Beyond(end, n);
    var range := InRange(ids, start, end);
    SortedMultiset(tenants);
    forall id | id in ids ensures (id in range) == byRank(id) {
      if IsTenant(id) {
        InSorted(ids, id);
        var r :| 0 <= r < |sorted| && sorted[r] == id;
        RankIsPosition(ids, r);
        ShardMember(ids, start, end, r);
      } else if start.Some? || end.Some? {
        var chosen := TenantsInRange(ids, start, end);
        FilterMember(ids, x => x in chosen || !IsTenant(x), id);
      }
    }
    RangeFiltersItself(ids, start, end);
    FilterSame(ids, x => x in range, byRank);
  }

  lemma RangeFiltersItself(ids: seq<string>, start: Option<int>, end: Option<int>)
    ensures var range := InRange(ids, start, end); range == Filter(ids, x => x in range)
  {
    var range := InRange(ids, start, end);
    if start.None? && end.None? {
      FilterSame(ids, x => x in range, _ => true);
      KeepAll(ids);
    } else {
      var chosen := TenantsInRange(ids, start, end);
      var keep := x => x in chosen || !IsTenant(x);
      forall x | x in ids ensures keep(x) == (x in range) {
        FilterMember(ids, keep, x);
      }
      FilterSame(ids, keep, x => x in range);
    }
  }

  lemma {:induction false} KeepAll(s: seq<string>)
    ensures Filter(s, _ => true) == s
  {
    if s != [] {
      KeepAll(s[1..]);
      FilterSame(s[1..], _ => true, _ => true);
    }
  }

  lemma FilterLast(s: seq<string>, keep: string -> bool)
    requires s != []
    ensures var (init, last) := (s[..|s| - 1], s[|s| - 1]);
            Filter(s, keep) == Filter(init, keep) + if keep(last) then [last] else []
  {
    var init, last := s[..|s| - 1], s[|s| - 1];
    assert s == init + [last];
    FilterAppend(init, [last], keep);
    assert Filter([last], keep) == if keep(last) then [last] else [];
  }

  /** `out` lists the entries of `s` at the ascending positions `at`. */
  ghost predicate InOrder(s: seq<string>, at: seq<nat>, out: seq<string>) {
    && |at| == |out|
    && (forall i, j :: 0 <= i < j < |at| ==> at[i] < at[j])
    && forall i :: 0 <= i < |at| ==> at[i] < |s| && s[at[i]] == out[i]
  }

  lemma OneMoreInOrder(s: seq<string>, at: seq<nat>, out: seq<string>)
    requires s != [] && InOrder(s[..|s| - 1], at, out)
    ensures InOrder(s, at, out) && InOrder(s, at + [|s| - 1], out + [s[|s| - 1]])
  {
  }

  lemma InAppended(init: seq<string>, last: string, at: seq<nat>, keep: string -> bool, p: nat)
    requires forall q :: 0 <= q < |init| && keep(init[q]) ==> q in at
    requires p <= |init| && keep((init + [last])[p])
    ensures p in if keep(last) then at + [|init|] else at
  {
    if p < |init| {
      assert keep(init[p]);
    }
  }

  /** Positions a filter keeps. */
  lemma {:induction false} KeptPositions(s: seq<string>, keep: string -> bool) returns (at: seq<nat>)
    ensures InOrder(s, at, Filter(s, keep))
    ensures forall p :: 0 <= p < |s| && keep(s[p]) ==> p in at
  {
    if s == [] {
      at := [];
    } else {
      var init, last := s[..|s| - 1], s[|s| - 1];
      var before := KeptPositions(init, keep);
      hide InOrder, Filter;
      assert s == init + [last];
      FilterLast(s, keep);
      OneMoreInOrder(s, before, Filter(init, keep));
      at := if keep(last) then before + [|init|] else before;
      assert Filter(s, keep) == if keep(last) then Filter(init, keep) + [last] else Filter(init, keep);
      forall p | 0 <= p < |s| && keep(s[p]) ensures p in at {
        InAppended(init, last, before, keep, p);
      }
    }
  }

  /** Every shard lists entries of the original in the original order, every non-tenant occurrence among them. */
  lemma ShardKeepsOrder(ids: seq<string>, cuts: seq<nat>, k: nat) returns (at: seq<nat>)
    requires k + 1 < |cuts|
    ensures InOrder(ids, at, Shard(ids, cuts, k))
    ensures forall p :: 0 <= p < |ids| && !IsTenant(ids[p]) ==> p in at
  {
    var chosen := TenantsInRange(ids, Some(cuts[k]), Some(cuts[k + 1]));
    at := KeptPositions(ids, x => x in chosen || !IsTenant(x));
  }

  // ---- the documented range ----------------------------------------------------------------------

  /** The docstring's reading: one-based positions, both ends included. */
  predicate Documented(start: Option<int>, end: Option<int>, r: nat) {
    (start.None? || start.value <= r + 1) && (end.None? || r + 1 <= end.value)
  }

  /** The ranges on which code and docstring agree. */
  predicate RangesAgree(start: Option<int>, end: Option<int>, tenants: nat) {
    if end.Some? && end.value < 0 then Lowest(start) >= tenants + end.value
    else start.None? || start.value <= 0 || start.value > Beyond(end, tenants)
  }

  lemma DocumentedRangeIff(ids: seq<string>, start: Option<int>, end: Option<int>)
    requires Distinct(ids)
    ensures var sorted := Sorted(Filter(ids, IsTenant));
            (forall r :: 0 <= r < |sorted| ==> (sorted[r] in InRange(ids, start, end) <==> Documented(start, end, r)))
            <==> RangesAgree(start, end, |sorted|)
  {
    var sorted := Sorted(Filter(ids, IsTenant));
    var n := |sorted|;
    forall r | 0 <= r < n
      ensures sorted[r] in InRange(ids, start, end) <==> Lowest(start) <= r < Beyond(end, n)
    {
      ShardMember(ids, start, end, r);
    }
    hide InRange, Sorted;
    if !RangesAgree(start, end, n) {
      var odd := if end.Some? && end.value < 0 then Lowest(start) else start.value - 1;
      assert 0 <= odd < n;
      assert !(sorted[odd] in InRange(ids, start, end) <==> Documented(start, end, odd));
    }
  }

  /** One tenant, positions 1 to 1: the docstring keeps it, the code does not. */
  lemma MissedTenant()
    ensures Documented(Some(1), Some(1), 0)
    ensures InRange(["tenant_a"], Some(1), Some(1)) == []
  {
    var ids := ["tenant_a"];
    assert IsTenant(ids[0]) && ids[1..] == [];
    assert Filter(ids, IsTenant) == ids;
    var sorted := Sorted(ids);
    assert sorted == ids;
    assert TenantsInRange(ids, Some(1), Some(1)) == [];
  }

  /** Sharding loses no tenant and repeats none. */
  lemma ShardsPartition(ids: seq<string>, cuts: seq<nat>, id: string)
    requires Distinct(ids) && id in ids && IsTenant(id)
    requires Cuts(cuts, |Filter(ids, IsTenant)|)
    ensures exists k :: 0 <= k < |cuts| - 1 && id in Shard(ids, cuts, k)
    ensures forall k, l :: 0 <= k < l < |cuts| - 1 ==> !(id in Shard(ids, cuts, k) && id in Shard(ids, cuts, l))
  {
    var tenants := Filter(ids, IsTenant);
    var sorted := Sorted(tenants);
    InSorted(ids, id);
    SortedMultiset(tenants);
    var r :| 0 <= r < |sorted| && sorted[r] == id;
    forall k | 0 <= k < |cuts| - 1
      ensures id in Shard(ids, cuts, k) <==> cuts[k] <= r < cuts[k + 1]
    {
      ShardMember(ids, Some(cuts[k]), Some(cuts[k + 1]), r);
    }
    var k := CutBelow(cuts, r);
    assert id in Shard(ids, cuts, k);
  }

  lemma {:induction false} CutBelow(cuts: seq<nat>, r: nat) returns (k: nat)
    requires |cuts| >= 2 && cuts[0] <= r < cuts[|cuts| - 1]
    ensures k < |cuts| - 1 && cuts[k] <= r < cuts[k + 1]
  {
    if r < cuts[1] {
      k := 0;
    } else {
      k := CutBelow(cuts[1..], r);
      k := k + 1;
    }
  }

  // ---- migrating the chosen schemas ---------------------------------------------------------

  /** The schemas that are at head. Whether a schema can migrate is a fixed property of it. */
  class Database {
    var atHead: set<string>

    constructor ()
      ensures atHead == {}
    {
      atHead := {};
    }

    /** `do_run_migrations`: one transaction per schema, harmless on a schema already at head. */
    method UpgradeToHead(schema: string, migrates: string -> bool) returns (ok: bool)
      modifies this
      ensures ok == migrates(schema)
      ensures atHead == old(atHead) + (if ok then {schema} else {})
    {
      ok := migrates(schema);
      if ok {
        atHead := atHead + {schema};
      }
    }
  }

  ghost function Migratable(schemas: seq<string>, migrates: string -> bool): set<string> {
    set s | s in schemas && migrates(s)
  }

  /** Position of the first schema that cannot migrate, or the length. */
  function FirstFailure(schemas: seq<string>, migrates: string -> bool): (k: nat)
    ensures k <= |schemas|
    ensures forall i :: 0 <= i < k ==> migrates(schemas[i])
    ensures k < |schemas| ==> !migrates(schemas[k])
  {
    if schemas == [] || !migrates(schemas[0]) then 0 else 1 + FirstFailure(schemas[1..], migrates)
  }

  /** The per-schema loop; `ok` is false when an exception leaves it. */
  method MigrateSchemas(db: Database, schemas: seq<string>, continueOnError: bool, migrates: string -> bool)
    returns (ok: bool)
    modifies db
    ensures ok == (continueOnError || FirstFailure(schemas, migrates) == |schemas|)
    ensures db.atHead == old(db.atHead)
                         + Migratable(if continueOnError then schemas else schemas[..FirstFailure(schemas, migrates)],
                                      migrates)
  {
    for i := 0 to |schemas|
      invariant db.atHead == old(db.atHead) + Migratable(schemas[..i], migrates)
      invariant continueOnError || i <= FirstFailure(schemas, migrates)
    {
      var migrated := db.UpgradeToHead(schemas[i], migrates);
      assert schemas[..i + 1] == schemas[..i] + [schemas[i]];
      if !migrated && !continueOnError {
        return false;
      }
    }
    assert schemas[..|schemas|] == schemas;
    ok := true;
  }

  /** One `alembic -x ... upgrade head` process of a multi-tenant deployment. */
  method AlembicUpgrade(db: Database, raw: seq<string>, parseInt: string -> Option<int>, allTenants: seq<string>,
                        migrates: string -> bool)
    returns (exitZero: bool)
    modifies db
    ensures XArgs(raw, |raw|).Err? || OptionsOf(XArgs(raw, |raw|).value, true, parseInt).Err?
            ==> !exitZero && db.atHead == old(db.atHead)
    ensures XArgs(raw, |raw|).Ok? && OptionsOf(XArgs(raw, |raw|).value, true, parseInt).Ok? ==>
              var o := OptionsOf(XArgs(raw, |raw|).value, true, parseInt).value;
              var chosen := if o.schemas.Some? && o.schemas.value != [] then o.schemas.value
                            else InRange(allTenants, o.rangeStart, o.rangeEnd);
              && exitZero == (o.continueOnError || FirstFailure(chosen, migrates) == |chosen|)
              && db.atHead == old(db.atHead)
                              + Migratable(if o.continueOnError then chosen
                                           else chosen[..FirstFailure(chosen, migrates)], migrates)
  {
    var options := GetSchemaOptions(raw, true, parseInt);
    if options.Err? {
      return false;
    }
    var o := options.value;
    if o.schemas.Some? && o.schemas.value != [] {
      exitZero := MigrateSchemas(db, o.schemas.value, o.continueOnError, migrates);
    } else {
      var chosen := FilterTenantsByRange(allTenants, o.rangeStart, o.rangeEnd);
      exitZero := MigrateSchemas(db, chosen, o.continueOnError, migrates);
    }
  }
}
