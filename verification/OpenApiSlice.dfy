/**
 Slicing an OpenAPI document for publication (backend/scripts/transform_openapi_for_docs.py): keep the
 endpoints tagged "public", the schemas they reach, and no internal parameter or property.
 References are Reference Objects (section 4.8.23 of the OpenAPI Specification 3.1.0).
 */
module OpenApiSlice {
  import opened Base
  import opened Text

  datatype Json =
    | Null
    | Bool(b: bool)
    | Number(n: int)
    | Str(s: string)
    | Arr(items: seq<Json>)
    | Obj(fields: map<string, Json>)

  const PUBLIC_TAG := "public"
  const INTERNAL_PARAMETERS: set<string> := {"tenant_id", "db_session"}
  const SCHEMA_PREFIX := "#/components/schemas/"

  datatype Malformed = RefNotAString | TagsNotAContainer | ParametersNotAList

  // ---- references ---------------------------------------------------------------------

  /** `ref.split("/")[-1]`. */
  function LastSegment(ref: string): string {
    var parts := Split(ref, '/');
    SplitParts(ref, '/');
    parts[|parts| - 1]
  }

  function OwnRef(fields: map<string, Json>): set<string> {
    if "$ref" in fields && fields["$ref"].Str? && SCHEMA_PREFIX <= fields["$ref"].s
    then {LastSegment(fields["$ref"].s)} else {}
  }

  /** Names of all schemas a value refers to, at any depth. */
  function Refs(j: Json): set<string> {
    match j
    case Obj(fields) => OwnRef(fields) + (set k, r | k in fields && r in Refs(fields[k]) :: r)
    case Arr(items) => set i, r | 0 <= i < |items| && r in Refs(items[i]) :: r
    case _ => {}
  }

  lemma RefInItem(items: seq<Json>, x: string)
    ensures x in Refs(Arr(items)) <==> exists i :: 0 <= i < |items| && x in Refs(items[i])
  {
  }

  lemma RefInField(fields: map<string, Json>, x: string)
    ensures x in Refs(Obj(fields)) <==> x in OwnRef(fields) || exists k :: k in fields && x in Refs(fields[k])
  {
  }

  /** The `$ref` of an object, as written. */
  function OwnPointer(fields: map<string, Json>): set<string> {
    if "$ref" in fields && fields["$ref"].Str? then {fields["$ref"].s} else {}
  }

  /** All `$ref` strings in a value, at any depth. */
  function Pointers(j: Json): set<string> {
    match j
    case Obj(fields) => OwnPointer(fields) + (set k, r | k in fields && r in Pointers(fields[k]) :: r)
    case Arr(items) => set i, r | 0 <= i < |items| && r in Pointers(items[i]) :: r
    case _ => {}
  }

  lemma PointerInItem(items: seq<Json>, x: string)
    ensures x in Pointers(Arr(items)) <==> exists i :: 0 <= i < |items| && x in Pointers(items[i])
  {
  }

  lemma PointerInField(fields: map<string, Json>, x: string)
    ensures x in Pointers(Obj(fields)) <==> x in OwnPointer(fields) || exists k :: k in fields && x in Pointers(fields[k])
  {
  }

  /** What the code reads off a `$ref`: the last segment, if it starts like a schema pointer. */
  ghost predicate ReadAs(ref: string, name: string) {
    SCHEMA_PREFIX <= ref && LastSegment(ref) == name
  }

  /** The names collected are what the code reads off the `$ref` strings. */
  lemma {:induction false} RefsAreRead(j: Json, x: string)
    ensures x in Refs(j) <==> exists ref :: ref in Pointers(j) && ReadAs(ref, x)
    decreases j
  {
    match j
    case Obj(fields) =>
      RefInField(fields, x);
      forall k | k in fields ensures x in Refs(fields[k]) <==> exists ref :: ref in Pointers(fields[k]) && ReadAs(ref, x) {
        RefsAreRead(fields[k], x);
      }
      RefsOfObject(fields, x);
    case Arr(items) =>
      RefInItem(items, x);
      forall i | 0 <= i < |items|
        ensures x in Refs(items[i]) <==> exists ref :: ref in Pointers(items[i]) && ReadAs(ref, x)
      {
        RefsAreRead(items[i], x);
      }
      hide ReadAs, Refs;
      if i :| 0 <= i < |items| && x in Refs(items[i]) {
        var ref :| ref in Pointers(items[i]) && ReadAs(ref, x);
        PointerInItem(items, ref);
      }
      if ref :| ref in Pointers(Arr(items)) && ReadAs(ref, x) {
        PointerInItem(items, ref);
      }
    case _ =>
  }

  lemma RefsOfObject(fields: map<string, Json>, x: string)
    requires forall k :: k in fields ==>
               (x in Refs(fields[k]) <==> exists ref :: ref in Pointers(fields[k]) && ReadAs(ref, x))
    ensures x in Refs(Obj(fields)) <==> exists ref :: ref in Pointers(Obj(fields)) && ReadAs(ref, x)
  {
    RefInField(fields, x);
    OwnRead(fields, x);
    hide ReadAs, Refs, OwnRef, OwnPointer;
    if x in OwnRef(fields) {
      var ref :| ref in OwnPointer(fields) && ReadAs(ref, x);
      PointerInField(fields, ref);
    } else if k :| k in fields && x in Refs(fields[k]) {
      var ref :| ref in Pointers(fields[k]) && ReadAs(ref, x);
      PointerInField(fields, ref);
    }
    if ref :| ref in Pointers(Obj(fields)) && ReadAs(ref, x) {
      PointerInField(fields, ref);
    }
  }

  lemma OwnRead(fields: map<string, Json>, x: string)
    ensures x in OwnRef(fields) <==> exists ref :: ref in OwnPointer(fields) && ReadAs(ref, x)
  {
    if "$ref" in fields && fields["$ref"].Str? {
      assert fields["$ref"].s in OwnPointer(fields);
    }
  }

  /** Values with fewer `$ref` strings have fewer references. */
  lemma FewerPointers(a: Json, b: Json)
    requires Pointers(a) <= Pointers(b)
    ensures Refs(a) <= Refs(b)
  {
    forall x | x in Refs(a) ensures x in Refs(b) {
      RefsAreRead(a, x);
      RefsAreRead(b, x);
    }
  }

  // ---- by path ------------------------------------------------------------------------------

  datatype Step = Key(key: string) | Index(index: nat)

  /** The value at a path, if there is one. */
  function At(j: Json, path: seq<Step>): Option<Json> {
    if path == [] then Some(j)
    else match path[0]
      case Key(k) => if j.Obj? && k in j.fields then At(j.fields[k], path[1..]) else None
      case Index(i) => if j.Arr? && i < |j.items| then At(j.items[i], path[1..]) else None
  }

  /** The object at a path has this value as its `$ref`. */
  ghost predicate HasRef(j: Json, path: seq<Step>, ref: Json) {
    At(j, path).Some? && At(j, path).value.Obj?
    && "$ref" in At(j, path).value.fields && At(j, path).value.fields["$ref"] == ref
  }

  lemma AtStep(j: Json, step: Step, path: seq<Step>)
    ensures At(j, [step] + path) == match step
                                    case Key(k) => if j.Obj? && k in j.fields then At(j.fields[k], path) else None
                                    case Index(i) => if j.Arr? && i < |j.items| then At(j.items[i], path) else None
  {
    assert ([step] + path)[1..] == path;
  }

  lemma {:induction false} PathOfPointer(j: Json, ref: string) returns (path: seq<Step>)
    requires ref in Pointers(j)
    ensures HasRef(j, path, Str(ref))
    decreases j
  {
    match j
    case Obj(fields) =>
      PointerInField(fields, ref);
      if ref in OwnPointer(fields) {
        path := [];
      } else {
        var k :| k in fields && ref in Pointers(fields[k]);
        var rest := PathOfPointer(fields[k], ref);
        AtStep(j, Key(k), rest);
        path := [Key(k)] + rest;
      }
    case Arr(items) =>
      PointerInItem(items, ref);
      var i :| 0 <= i < |items| && ref in Pointers(items[i]);
      var rest := PathOfPointer(items[i], ref);
      AtStep(j, Index(i), rest);
      path := [Index(i)] + rest;
  }

  lemma {:induction false} PointerOfPath(j: Json, path: seq<Step>, ref: string)
    requires HasRef(j, path, Str(ref))
    ensures ref in Pointers(j)
    decreases path
  {
    if path != [] {
      match path[0]
      case Key(k) =>
        PointerOfPath(j.fields[k], path[1..], ref);
        PointerInField(j.fields, ref);
      case Index(i) =>
        PointerOfPath(j.items[i], path[1..], ref);
        PointerInItem(j.items, ref);
    }
  }

  /** The `$ref` strings of a value are those found at its paths, at any depth, in objects and arrays alike. */
  lemma PointersByPath(j: Json, ref: string)
    ensures ref in Pointers(j) <==> exists path :: HasRef(j, path, Str(ref))
  {
    hide HasRef, Pointers;
    if ref in Pointers(j) {
      var path := PathOfPointer(j, ref);
    } else if path :| HasRef(j, path, Str(ref)) {
      PointerOfPath(j, path, ref);
    }
  }

  // ---- what a `$ref` designates -------------------------------------------------------------

  function HexDigit(c: char): Option<nat> {
    if IsDigit(c) then Some(c as int - '0' as int)
    else if 'a' <= c <= 'f' then Some(c as int - 'a' as int + 10)
    else if 'A' <= c <= 'F' then Some(c as int - 'A' as int + 10)
    else None
  }

  /** Percent-encoded ASCII characters decoded; component names are ASCII (section 4.8.7 of the OpenAPI Specification). */
  function PercentDecode(s: string): string {
    if s == "" then ""
    else if |s| >= 3 && s[0] == '%' && HexDigit(s[1]).Some? && HexDigit(s[2]).Some?
            && HexDigit(s[1]).value * 16 + HexDigit(s[2]).value < 128
    then [(HexDigit(s[1]).value * 16 + HexDigit(s[2]).value) as char] + PercentDecode(s[3..])
    else [s[0]] + PercentDecode(s[1..])
  }

  /** A pointer segment's escapes, section 4 of RFC 6901. */
  function Unescape(s: string): string {
    if |s| < 2 || s[0] != '~' || (s[1] != '0' && s[1] != '1')
    then (if s == "" then "" else [s[0]] + Unescape(s[1..]))
    else [if s[1] == '0' then '~' else '/'] + Unescape(s[2..])
  }

  const SCHEMAS_POINTER := "/components/schemas/"

  /** The component schema at or above what a local reference points to, read as in section 6 of RFC 6901. */
  function Target(ref: string): Option<string> {
    if ref == "" || ref[0] != '#' then None
    else
      var pointer := PercentDecode(ref[1..]);
      if !(SCHEMAS_POINTER <= pointer) then None
      else
        var rest := pointer[|SCHEMAS_POINTER|..];
        Some(Unescape(rest[..IndexOf(rest, '/')]))
  }

  /** A reference into a component schema that the code takes for something else, or for nothing. */
  predicate Misread(ref: string) {
    Target(ref).Some? && !(SCHEMA_PREFIX <= ref && LastSegment(ref) == Target(ref).value)
  }

  lemma {:induction false} PlainDecodes(s: string)
    requires '%' !in s && '~' !in s
    ensures PercentDecode(s) == s && Unescape(s) == s
  {
    if s != "" {
      PlainDecodes(s[1..]);
      assert s == [s[0]] + s[1..];
    }
  }

  lemma SplitStep(s: string, c: char)
    ensures IndexOf(s, c) == |s| ==> Split(s, c) == [s]
    ensures IndexOf(s, c) < |s| ==> Split(s, c) == [s[..IndexOf(s, c)]] + Split(s[IndexOf(s, c) + 1..], c)
  {
    hide IndexOf;
  }

  lemma LastStep(s: string)
    ensures var k := IndexOf(s, '/');
            if k == |s| then LastSegment(s) == s else k < |s| && LastSegment(s) == LastSegment(s[k + 1..])
  {
    hide IndexOf, Split;
    SplitStep(s, '/');
    if IndexOf(s, '/') < |s| {
      SplitParts(s[IndexOf(s, '/') + 1..], '/');
    }
  }

  lemma SlashWithin(front: string, name: string)
    ensures IndexOf(front + "/" + name, '/') <= |front|
  {
    var s := front + "/" + name;
    var k := IndexOf(s, '/');
    IndexOfMeaning(s, '/');
    assert s[|front|] == '/';
    assert forall i :: 0 <= i < k ==> s[i] in s[..k];
  }

  lemma {:induction false} LastAfterSlash(front: string, name: string)
    requires '/' !in name
    ensures LastSegment(front + "/" + name) == name
    decreases |front|
  {
    var s := front + "/" + name;
    var k := IndexOf(s, '/');
    SlashWithin(front, name);
    LastStep(s);
    hide LastSegment;
    if k == |front| {
      assert s[k + 1..] == name;
      IndexAfterPart(name, '/', "");
      LastStep(name);
    } else {
      assert s[k + 1..] == front[k + 1..] + "/" + name;
      LastAfterSlash(front[k + 1..], name);
    }
  }

  lemma PrefixFacts(rest: string)
    ensures '%' !in SCHEMAS_POINTER && '~' !in SCHEMAS_POINTER
    ensures SCHEMA_PREFIX + rest == "#" + (SCHEMAS_POINTER + rest)
    ensures SCHEMA_PREFIX + rest == "#/components/schemas" + "/" + rest
  {
  }

  lemma TargetOfPlain(rest: string)
    requires '%' !in rest && '~' !in rest
    ensures Target(SCHEMA_PREFIX + rest) == Some(rest[..IndexOf(rest, '/')])
  {
    PrefixFacts(rest);
    var pointer := SCHEMAS_POINTER + rest;
    PlainDecodes(pointer);
    PlainDecodes(rest[..IndexOf(rest, '/')]);
    hide PercentDecode, Unescape, IndexOf;
    assert ("#" + pointer)[0] == '#' && ("#" + pointer)[1..] == pointer;
    assert pointer[|SCHEMAS_POINTER|..] == rest;
  }

  /** A reference without further slash or escape is read right. */
  lemma PlainIsReadRight(name: string)
    requires '/' !in name && '%' !in name && '~' !in name
    ensures Target(SCHEMA_PREFIX + name) == Some(name) && !Misread(SCHEMA_PREFIX + name)
  {
    PrefixFacts(name);
    LastAfterSlash("#/components/schemas", name);
    TargetOfPlain(name);
    IndexAfterPart(name, '/', "");
    hide Target, LastSegment, IndexOf;
    assert name[..|name|] == name;
  }

  /** Every `$ref` is a string, so that `startswith` exists on it. */
  ghost predicate RefsAreStrings(j: Json) {
    match j
    case Obj(fields) =>
      && ("$ref" in fields ==> fields["$ref"].Str?)
      && forall k :: k in fields ==> RefsAreStrings(fields[k])
    case Arr(items) => forall i :: 0 <= i < |items| ==> RefsAreStrings(items[i])
    case _ => true
  }

  lemma {:induction false} BadRefPath(j: Json) returns (path: seq<Step>, bad: Json)
    requires !RefsAreStrings(j)
    ensures HasRef(j, path, bad) && !bad.Str?
    decreases j
  {
    match j
    case Obj(fields) =>
      if "$ref" in fields && !fields["$ref"].Str? {
        path, bad := [], fields["$ref"];
      } else {
        var k :| k in fields && !RefsAreStrings(fields[k]);
        path, bad := BadRefPath(fields[k]);
        AtStep(j, Key(k), path);
        path := [Key(k)] + path;
      }
    case Arr(items) =>
      var i :| 0 <= i < |items| && !RefsAreStrings(items[i]);
      path, bad := BadRefPath(items[i]);
      AtStep(j, Index(i), path);
      path := [Index(i)] + path;
  }

  lemma {:induction false} RefsAreStringsByPath(j: Json, path: seq<Step>, ref: Json)
    requires RefsAreStrings(j) && HasRef(j, path, ref)
    ensures ref.Str?
    decreases path
  {
    if path != [] {
      match path[0]
      case Key(k) => RefsAreStringsByPath(j.fields[k], path[1..], ref);
      case Index(i) => RefsAreStringsByPath(j.items[i], path[1..], ref);
    }
  }

  /** Collecting fails on a `$ref` that is not a string, wherever it stands. */
  lemma RefsAreStringsIff(j: Json)
    ensures RefsAreStrings(j) <==> forall path, ref :: HasRef(j, path, ref) ==> ref.Str?
  {
    hide RefsAreStrings, HasRef;
    if RefsAreStrings(j) {
      forall path, ref | HasRef(j, path, ref) ensures ref.Str? {
        RefsAreStringsByPath(j, path, ref);
      }
    } else {
      var path, bad := BadRefPath(j);
    }
  }

  method CollectSchemaRefs(obj: Json, refs: set<string>) returns (r: Result<set<string>, Malformed>)
    ensures r.Ok? <==> RefsAreStrings(obj)
    ensures r.Ok? ==> r.value == refs + Refs(obj)
    decreases obj
  {
    var found := refs;
    match obj {
      case Obj(fields) =>
        if "$ref" in fields {
          if !fields["$ref"].Str? {
            return Err(RefNotAString);
          }
          if SCHEMA_PREFIX <= fields["$ref"].s {
            found := found + {LastSegment(fields["$ref"].s)};
          }
        }
        var keys := fields.Keys;
        while keys != {}
          invariant keys <= fields.Keys
          invariant forall k :: k in fields && k !in keys ==> RefsAreStrings(fields[k])
          invariant found == refs + OwnRef(fields)
                             + (set k, x | k in fields && k !in keys && x in Refs(fields[k]) :: x)
          decreases keys
        {
          var key :| key in keys;
          var inner := CollectSchemaRefs(fields[key], found);
          if inner.Err? {
            return inner;
          }
          keys := keys - {key};
          found := inner.value;
        }
        forall x ensures x in found <==> x in refs + Refs(obj) {
          RefInField(fields, x);
        }
      case Arr(items) =>
        r := CollectFromItems(items, found);
        return;
      case _ =>
        assert Refs(obj) == {};
    }
    r := Ok(found);
  }

  method CollectFromItems(items: seq<Json>, refs: set<string>) returns (r: Result<set<string>, Malformed>)
    ensures r.Ok? <==> RefsAreStrings(Arr(items))
    ensures r.Ok? ==> r.value == refs + Refs(Arr(items))
    decreases items
  {
    var found := refs;
    for i := 0 to |items|
      invariant forall k :: 0 <= k < i ==> RefsAreStrings(items[k])
      invariant found == refs + (set k, x | 0 <= k < i && x in Refs(items[k]) :: x)
    {
      var inner := CollectSchemaRefs(items[i], found);
      if inner.Err? {
        return inner;
      }
      found := inner.value;
    }
    forall x ensures x in found <==> x in refs + Refs(Arr(items)) {
      RefInItem(items, x);
    }
    r := Ok(found);
  }

  // ---- the closure ------------------------------------------------------------------------

  /** Holds the initial names and whatever a held, defined schema refers to. */
  ghost predicate Closed(schemas: map<string, Json>, initial: set<string>, names: set<string>) {
    && initial <= names
    && forall n :: n in names && n in schemas ==> Refs(schemas[n]) <= names
  }

  ghost predicate IsLeastClosed(schemas: map<string, Json>, initial: set<string>, names: set<string>) {
    && Closed(schemas, initial, names)
    && forall other :: Closed(schemas, initial, other) ==> names <= other
  }

  /** The inner loop: names not seen before join both the set and the worklist. */
  method Discover(newRefs: set<string>, seen: set<string>, worklist: seq<string>)
    returns (allRefs: set<string>, toProcess: seq<string>)
    ensures allRefs == seen + newRefs
    ensures forall n :: n in toProcess <==> n in worklist || (n in newRefs && n !in seen)
    ensures allRefs == seen ==> toProcess == worklist
  {
    allRefs, toProcess := seen, worklist;
    var todo := newRefs;
    while todo != {}
      invariant todo <= newRefs
      invariant allRefs == seen + (newRefs - todo)
      invariant forall n :: n in toProcess <==> n in worklist || (n in newRefs - todo && n !in seen)
      invariant allRefs == seen ==> toProcess == worklist
      decreases todo
    {
      var ref :| ref in todo;
      todo := todo - {ref};
      if ref !in allRefs {
        allRefs := allRefs + {ref};
        toProcess := toProcess + [ref];
      }
    }
  }

  /** The worklist; it fails only on a schema every closed set must hold. */
  method GetAllReferencedSchemas(schemas: map<string, Json>, initial: set<string>)
    returns (r: Result<set<string>, Malformed>)
    ensures r.Ok? ==> IsLeastClosed(schemas, initial, r.value)
    ensures r.Ok? ==> forall n :: n in r.value && n in schemas ==> RefsAreStrings(schemas[n])
    ensures r.Err? ==> exists n :: n in schemas && !RefsAreStrings(schemas[n])
                                   && forall names :: Closed(schemas, initial, names) ==> n in names
  {
    ghost var universe := initial + (set n, x | n in schemas && x in Refs(schemas[n]) :: x);
    var allRefs := initial;
    var toProcess := ListOf(initial);
    while toProcess != []
      invariant initial <= allRefs <= universe
      invariant forall n :: n in toProcess ==> n in allRefs
      invariant forall n :: n in allRefs && n !in toProcess && n in schemas ==>
                  RefsAreStrings(schemas[n]) && Refs(schemas[n]) <= allRefs
      invariant forall names :: Closed(schemas, initial, names) ==> allRefs <= names
      decreases universe - allRefs, |toProcess|
    {
      var name := toProcess[|toProcess| - 1];
      assert toProcess == toProcess[..|toProcess| - 1] + [name];
      toProcess := toProcess[..|toProcess| - 1];
      if name in schemas {
        var collected := CollectSchemaRefs(schemas[name], {});
        if collected.Err? {
          assert name in allRefs;
          return Err(collected.error);
        }
        allRefs, toProcess := Discover(collected.value, allRefs, toProcess);
      }
    }
    r := Ok(allRefs);
  }

  /** `list(s)`: the elements in some order. */
  method ListOf(s: set<string>) returns (l: seq<string>)
    ensures forall x :: x in l <==> x in s
  {
    l := [];
    var rest := s;
    while rest != {}
      invariant rest <= s
      invariant forall x :: x in l <==> x in s && x !in rest
      decreases rest
    {
      var x :| x in rest;
      rest := rest - {x};
      l := l + [x];
    }
  }

  // ---- pruning ---------------------------------------------------------------------------------

  predicate HasProperties(fields: map<string, Json>) {
    "properties" in fields && fields["properties"].Obj?
  }

  predicate IsInternal(j: Json) {
    j.Str? && j.s in INTERNAL_PARAMETERS
  }

  function PublicNames(required: seq<Json>): seq<Json> {
    Filter(required, r => !IsInternal(r))
  }

  /** A required list that is filtered away entirely. */
  predicate RequiredGoes(fields: map<string, Json>) {
    && HasProperties(fields)
    && "required" in fields && fields["required"].Arr? && PublicNames(fields["required"].items) == []
  }

  const COMBINATORS: set<string> := {"allOf", "oneOf", "anyOf"}

  /** The value key `k` keeps. */
  function PruneField(fields: map<string, Json>, k: string): Json
    requires k in fields
    decreases fields[k], 1
  {
    var v := fields[k];
    if k == "properties" && v.Obj? then Obj(v.fields - INTERNAL_PARAMETERS)
    else if k == "required" && HasProperties(fields) && v.Arr? then Arr(PublicNames(v.items))
    else if k in COMBINATORS && v.Arr? then
      Arr(seq(|v.items|, i requires 0 <= i < |v.items| => Prune(v.items[i])))
    else if k == "items" || (k == "additionalProperties" && v.Obj?) then Prune(v)
    else v
  }

  /** A schema without its internal properties and required names, along the recursion edges. */
  function Prune(schema: Json): Json
    decreases schema, 0
  {
    match schema
    case Obj(fields) =>
      Obj(map k | k in fields && !(k == "required" && RequiredGoes(fields)) :: PruneField(fields, k))
    case _ => schema
  }

  lemma KeywordsDiffer()
    ensures "properties" !in COMBINATORS && "required" !in COMBINATORS
    ensures "items" !in COMBINATORS && "additionalProperties" !in COMBINATORS
    ensures "properties" != "required" && "properties" != "items" && "properties" != "additionalProperties"
    ensures "required" != "items" && "required" != "additionalProperties" && "items" != "additionalProperties"
    ensures "allOf" != "oneOf" && "allOf" != "anyOf" && "oneOf" != "anyOf"
  {
  }

  /** The part of a node's keys already pruned, the others still as they were. */
  ghost predicate PrunedSoFar(original: map<string, Json>, done: set<string>, fields: map<string, Json>) {
    && (forall k :: k in fields <==> k in original && !(k == "required" && RequiredGoes(original)))
    && forall k :: k in fields ==> fields[k] == if k in done then PruneField(original, k) else original[k]
  }

  method RemoveInternalProperties(schema: Json) returns (pruned: Json)
    ensures pruned == Prune(schema)
    decreases schema, 2
  {
    if !schema.Obj? {
      return schema;
    }
    ghost var done: set<string> := {"properties", "required"};
    KeywordsDiffer();
    var fields := PruneNode(schema.fields);
    fields := PruneCombinator(fields, schema, "allOf", done);
    fields := PruneCombinator(fields, schema, "oneOf", done + {"allOf"});
    fields := PruneCombinator(fields, schema, "anyOf", done + {"allOf"} + {"oneOf"});
    fields := PruneItems(fields, schema, done + {"allOf"} + {"oneOf"} + {"anyOf"});
    fields := PruneAdditional(fields, schema, done + {"allOf"} + {"oneOf"} + {"anyOf"} + {"items"});
    AllKeysPruned(schema.fields, fields, done + {"allOf"} + {"oneOf"} + {"anyOf"} + {"items"} + {"additionalProperties"});
    pruned := Obj(fields);
  }

  lemma AllKeysPruned(original: map<string, Json>, fields: map<string, Json>, done: set<string>)
    requires PrunedSoFar(original, done, fields)
    requires forall k :: k in {"properties", "required", "items", "additionalProperties"} || k in COMBINATORS ==> k in done
    ensures Obj(fields) == Prune(Obj(original))
  {
  }

  method PruneItems(fields: map<string, Json>, schema: Json, ghost done: set<string>)
    returns (fields': map<string, Json>)
    requires schema.Obj? && "items" !in done && PrunedSoFar(schema.fields, done, fields)
    ensures PrunedSoFar(schema.fields, done + {"items"}, fields')
    decreases schema, 1
  {
    fields' := fields;
    if "items" in fields {
      KeywordsDiffer();
      var item := RemoveInternalProperties(schema.fields["items"]);
      fields' := fields["items" := item];
    }
  }

  method PruneAdditional(fields: map<string, Json>, schema: Json, ghost done: set<string>)
    returns (fields': map<string, Json>)
    requires schema.Obj? && "additionalProperties" !in done && PrunedSoFar(schema.fields, done, fields)
    ensures PrunedSoFar(schema.fields, done + {"additionalProperties"}, fields')
    decreases schema, 1
  {
    fields' := fields;
    if "additionalProperties" in fields && fields["additionalProperties"].Obj? {
      KeywordsDiffer();
      var extra := RemoveInternalProperties(schema.fields["additionalProperties"]);
      fields' := fields["additionalProperties" := extra];
    }
  }

  /** The properties and required lists of one node. */
  method PruneNode(original: map<string, Json>) returns (fields: map<string, Json>)
    ensures PrunedSoFar(original, {"properties", "required"}, fields)
  {
    fields := original;
    if "properties" in fields && fields["properties"].Obj? {
      ghost var all := original["properties"].fields;
      var props := fields["properties"].fields;
      var names := props.Keys;
      while names != {}
        invariant names <= all.Keys
        invariant props == all - ((all.Keys - names) * INTERNAL_PARAMETERS)
        decreases names
      {
        var name :| name in names;
        names := names - {name};
        if name in INTERNAL_PARAMETERS {
          props := props - {name};
        }
      }
      assert props == all - INTERNAL_PARAMETERS;
      fields := fields["properties" := Obj(props)];
      if "required" in fields && fields["required"].Arr? {
        var kept := PublicNames(fields["required"].items);
        if kept == [] {
          fields := fields - {"required"};
        } else {
          fields := fields["required" := Arr(kept)];
        }
      }
    }
  }

  /** One of the allOf/oneOf/anyOf loops. */
  method PruneCombinator(fields: map<string, Json>, schema: Json, key: string, ghost done: set<string>)
    returns (fields': map<string, Json>)
    requires schema.Obj? && key in COMBINATORS && key !in done && PrunedSoFar(schema.fields, done, fields)
    ensures PrunedSoFar(schema.fields, done + {key}, fields')
    decreases schema, 1
  {
    fields' := fields;
    if key in fields && fields[key].Arr? {
      var items := schema.fields[key].items;
      var prunedItems: seq<Json> := [];
      for i := 0 to |items|
        invariant |prunedItems| == i && forall k :: 0 <= k < i ==> prunedItems[k] == Prune(items[k])
      {
        var item := RemoveInternalProperties(items[i]);
        prunedItems := prunedItems + [item];
      }
      KeywordsDiffer();
      assert PruneField(schema.fields, key) == Arr(prunedItems);
      fields' := fields[key := Arr(prunedItems)];
    }
  }

  // ---- what pruning achieves ----------------------------------------------------------------------

  /** No internal name in this node's properties or required list, and no empty required list. */
  predicate CleanNode(fields: map<string, Json>) {
    HasProperties(fields) ==>
      && (forall k :: k in fields["properties"].fields ==> k !in INTERNAL_PARAMETERS)
      && ("required" in fields && fields["required"].Arr? ==>
            fields["required"].items != [] && forall r :: r in fields["required"].items ==> !IsInternal(r))
  }

  /** Whether the recursion follows key `k`: combinator lists, items, additionalProperties. */
  predicate IsEdge(fields: map<string, Json>, k: string)
    requires k in fields
  {
    (k in COMBINATORS && fields[k].Arr?) || k == "items" || (k == "additionalProperties" && fields[k].Obj?)
  }

  /** Every node reached from `schema` along the recursion edges is clean. */
  ghost predicate Clean(schema: Json) {
    match schema
    case Obj(fields) =>
      && CleanNode(fields)
      && forall k :: k in fields && IsEdge(fields, k) ==>
           if k in COMBINATORS then forall i :: 0 <= i < |fields[k].items| ==> Clean(fields[k].items[i])
           else Clean(fields[k])
    case _ => true
  }

  lemma PublicNamesMeaning(required: seq<Json>)
    ensures forall r :: r in PublicNames(required) <==> r in required && !IsInternal(r)
  {
    forall r ensures r in PublicNames(required) <==> r in required && !IsInternal(r) {
      FilterMember(required, x => !IsInternal(x), r);
    }
  }

  lemma PruneNodeClean(fields: map<string, Json>)
    ensures CleanNode(Prune(Obj(fields)).fields)
  {
    KeywordsDiffer();
    var goal := Prune(Obj(fields)).fields;
    assert forall k :: k in goal ==> k in fields && goal[k] == PruneField(fields, k);
    if HasProperties(goal) {
      assert HasProperties(fields);
      if "required" in goal && goal["required"].Arr? {
        PublicNamesMeaning(fields["required"].items);
      }
    }
  }

  /** Pruning cleans every node it recurses into. */
  lemma {:induction false} PruneCleans(schema: Json)
    ensures Clean(Prune(schema))
    decreases schema
  {
    if schema.Obj? {
      var fields := schema.fields;
      var goal := Prune(schema).fields;
      PruneNodeClean(fields);
      KeywordsDiffer();
      forall k | k in goal && IsEdge(goal, k)
        ensures if k in COMBINATORS then forall i :: 0 <= i < |goal[k].items| ==> Clean(goal[k].items[i])
                else Clean(goal[k])
      {
        assert goal[k] == PruneField(fields, k);
        if k in COMBINATORS {
          forall i | 0 <= i < |goal[k].items| ensures Clean(goal[k].items[i]) {
            PruneCleans(fields[k].items[i]);
          }
        } else {
          PruneCleans(fields[k]);
        }
      }
    }
  }

  lemma CleanFieldStays(fields: map<string, Json>, k: string)
    requires k in fields && CleanNode(fields) && (k == "properties" || k == "required")
    ensures PruneField(fields, k) == fields[k]
    ensures !RequiredGoes(fields)
  {
    KeywordsDiffer();
    if k == "properties" && HasProperties(fields) {
      assert fields[k].fields - INTERNAL_PARAMETERS == fields[k].fields;
    }
    if HasProperties(fields) && "required" in fields && fields["required"].Arr? {
      FilterAll(fields["required"].items, r => !IsInternal(r));
    }
  }

  /** Pruning leaves a clean schema exactly as it is. */
  lemma {:induction false} PruneKeepsClean(schema: Json)
    requires Clean(schema)
    ensures Prune(schema) == schema
    decreases schema
  {
    if schema.Obj? {
      var fields := schema.fields;
      var goal := Prune(schema).fields;
      KeywordsDiffer();
      assert !RequiredGoes(fields) by {
        if "required" in fields { CleanFieldStays(fields, "required"); }
      }
      assert goal.Keys == fields.Keys;
      forall k | k in fields ensures goal[k] == fields[k] {
        assert goal[k] == PruneField(fields, k);
        if k == "properties" || k == "required" {
          CleanFieldStays(fields, k);
        } else if IsEdge(fields, k) {
          if k in COMBINATORS {
            forall i | 0 <= i < |fields[k].items| ensures Prune(fields[k].items[i]) == fields[k].items[i] {
              PruneKeepsClean(fields[k].items[i]);
            }
            assert goal[k].items == fields[k].items;
          } else {
            PruneKeepsClean(fields[k]);
          }
        }
      }
    }
  }

  /** Pruning changes a schema exactly when it was not clean, so pruning twice is pruning once. */
  lemma PruneIdempotent(schema: Json)
    ensures Prune(Prune(schema)) == Prune(schema)
    ensures Prune(schema) == schema <==> Clean(schema)
  {
    PruneCleans(schema);
    PruneKeepsClean(Prune(schema));
    if Clean(schema) {
      PruneKeepsClean(schema);
    }
  }

  // ---- what pruning leaves inside property values ---------------------------------------------------

  /** The node test at every node, those below the values of `properties` included. */
  ghost predicate DeepClean(schema: Json)
    decreases schema, 1
  {
    schema.Obj? ==> CleanNode(schema.fields) && DeepProperties(schema) && DeepEdges(schema)
  }

  ghost predicate DeepProperties(schema: Json)
    requires schema.Obj?
    decreases schema, 0
  {
    HasProperties(schema.fields) ==>
      forall p :: p in schema.fields["properties"].fields ==> DeepClean(schema.fields["properties"].fields[p])
  }

  ghost predicate DeepEdges(schema: Json)
    requires schema.Obj?
    decreases schema, 0
  {
    forall k :: k in schema.fields && IsEdge(schema.fields, k) ==>
      if k in COMBINATORS then forall i :: 0 <= i < |schema.fields[k].items| ==> DeepClean(schema.fields[k].items[i])
      else DeepClean(schema.fields[k])
  }

  /** At every node the recursion reaches, each public property's own schema is deeply clean already. */
  ghost predicate NestedClean(schema: Json)
    decreases schema, 1
  {
    schema.Obj? ==> NestedProperties(schema.fields) && NestedEdges(schema)
  }

  ghost predicate NestedProperties(fields: map<string, Json>) {
    HasProperties(fields) ==>
      forall p :: p in fields["properties"].fields && p !in INTERNAL_PARAMETERS ==>
        DeepClean(fields["properties"].fields[p])
  }

  ghost predicate NestedEdges(schema: Json)
    requires schema.Obj?
    decreases schema, 0
  {
    forall k :: k in schema.fields && IsEdge(schema.fields, k) ==>
      if k in COMBINATORS then forall i :: 0 <= i < |schema.fields[k].items| ==> NestedClean(schema.fields[k].items[i])
      else NestedClean(schema.fields[k])
  }

  /** Pruning follows the edges there were, and each keeps its place. */
  lemma EdgesStay(fields: map<string, Json>, k: string)
    ensures var goal := Prune(Obj(fields)).fields;
            && (k in goal && IsEdge(goal, k) <==> k in fields && IsEdge(fields, k))
            && (k in fields && IsEdge(fields, k) ==>
                  if k in COMBINATORS
                  then |goal[k].items| == |fields[k].items|
                       && forall i :: 0 <= i < |fields[k].items| ==> goal[k].items[i] == Prune(fields[k].items[i])
                  else goal[k] == Prune(fields[k]))
  {
    KeywordsDiffer();
    hide RequiredGoes;
    var goal := Prune(Obj(fields)).fields;
    if k in goal {
      assert goal[k] == PruneField(fields, k);
    }
  }

  lemma DeepPropertiesIff(fields: map<string, Json>)
    ensures DeepProperties(Prune(Obj(fields))) <==> NestedProperties(fields)
  {
    KeywordsDiffer();
    hide DeepClean, RequiredGoes;
    var goal := Prune(Obj(fields)).fields;
    if "properties" in fields {
      assert goal["properties"] == PruneField(fields, "properties");
    }
    if HasProperties(fields) {
      var before := fields["properties"].fields;
      assert goal["properties"] == Obj(before - INTERNAL_PARAMETERS);
      var after := goal["properties"].fields;
      assert forall p :: p in after <==> p in before && p !in INTERNAL_PARAMETERS;
      assert forall p :: p in after ==> after[p] == before[p];
    }
  }

  /**
   Pruning leaves no internal property or required name at any depth, property values included, exactly
   when every public property along the way had a deeply clean schema before.
   */
  lemma {:induction false} DeepCleanIffNested(schema: Json)
    ensures DeepClean(Prune(schema)) <==> NestedClean(schema)
    decreases schema, 1
  {
    if schema.Obj? {
      hide CleanNode, DeepProperties, DeepEdges, NestedProperties, NestedEdges, Prune;
      PruneNodeClean(schema.fields);
      PruneIsObject(schema);
      DeepPropertiesIff(schema.fields);
      DeepEdgesIff(schema);
    }
  }

  lemma PruneIsObject(schema: Json)
    requires schema.Obj?
    ensures Prune(schema).Obj? && schema == Obj(schema.fields)
  {
  }

  lemma {:induction false} DeepEdgesIff(schema: Json)
    requires schema.Obj?
    ensures Prune(schema).Obj?
    ensures DeepEdges(Prune(schema)) <==> NestedEdges(schema)
    decreases schema, 0
  {
    PruneIsObject(schema);
    hide IsEdge, DeepClean, NestedClean, Prune;
    var fields, goal := schema.fields, Prune(schema).fields;
    forall k ensures k in goal && IsEdge(goal, k) <==> k in fields && IsEdge(fields, k) {
      EdgesStay(fields, k);
    }
    forall k | k in fields && IsEdge(fields, k)
      ensures k in COMBINATORS ==> |goal[k].items| == |fields[k].items|
      ensures k in COMBINATORS ==> forall i :: 0 <= i < |fields[k].items| ==>
                (DeepClean(goal[k].items[i]) <==> NestedClean(fields[k].items[i]))
      ensures k !in COMBINATORS ==> (DeepClean(goal[k]) <==> NestedClean(fields[k]))
    {
      EdgesStay(fields, k);
      if k in COMBINATORS {
        forall i | 0 <= i < |fields[k].items|
          ensures DeepClean(goal[k].items[i]) <==> NestedClean(fields[k].items[i])
        {
          DeepCleanIffNested(fields[k].items[i]);
        }
      } else {
        DeepCleanIffNested(fields[k]);
      }
    }
  }

  /** The smallest failing case: an internal property of an object-valued property survives. */
  lemma NestedPropertySurvives() returns (schema: Json)
    ensures Clean(Prune(schema)) && !DeepClean(Prune(schema)) && Prune(schema) == schema
    ensures schema == Obj(map["properties" := Obj(map["user" := Obj(map["properties" := Obj(map["tenant_id" := Null])])])])
  {
    var user := Obj(map["properties" := Obj(map["tenant_id" := Null])]);
    var properties := map["user" := user];
    schema := Obj(map["properties" := Obj(properties)]);
    KeywordsDiffer();
    assert |"user"| == 4 && |"tenant_id"| == 9 && |"db_session"| == 10;
    assert "tenant_id" in user.fields["properties"].fields;
    assert !CleanNode(user.fields) && !DeepClean(user);
    assert "user" in properties && properties["user"] == user;
    assert !NestedProperties(schema.fields);
    DeepCleanIffNested(schema);
    assert Clean(schema);
    PruneIdempotent(schema);
  }

  /** The names kept internal. */
  lemma InternalNames(j: Json)
    ensures IsInternal(j) <==> j == Str("tenant_id") || j == Str("db_session")
  {
  }

  lemma PublicNamesAre(required: seq<Json>)
    ensures PublicNames(required) == Filter(required, r => r != Str("tenant_id") && r != Str("db_session"))
  {
    forall r | r in required ensures !IsInternal(r) == (r != Str("tenant_id") && r != Str("db_session")) {
      InternalNames(r);
    }
    FilterSame(required, r => !IsInternal(r), r => r != Str("tenant_id") && r != Str("db_session"));
  }

  /** Public properties and required names survive with their values and order. */
  lemma PruneKeepsPublic(fields: map<string, Json>)
    requires HasProperties(fields)
    ensures var goal := Prune(Obj(fields)).fields;
            && HasProperties(goal)
            && (forall k :: k in goal["properties"].fields <==>
                  k in fields["properties"].fields && k != "tenant_id" && k != "db_session")
            && (forall k :: k in goal["properties"].fields ==>
                  goal["properties"].fields[k] == fields["properties"].fields[k])
            && ("required" in fields && fields["required"].Arr? ==>
                  if "required" in goal
                  then goal["required"] == Arr(Filter(fields["required"].items,
                                                      r => r != Str("tenant_id") && r != Str("db_session")))
                  else forall r :: r in fields["required"].items ==> r == Str("tenant_id") || r == Str("db_session"))
  {
    KeywordsDiffer();
    forall r ensures IsInternal(r) <==> r == Str("tenant_id") || r == Str("db_session") {
      InternalNames(r);
    }
    var goal := Prune(Obj(fields)).fields;
    assert goal["properties"] == PruneField(fields, "properties");
    if "required" in fields && fields["required"].Arr? {
      PublicNamesMeaning(fields["required"].items);
      PublicNamesAre(fields["required"].items);
      if "required" in goal {
        assert goal["required"] == PruneField(fields, "required");
      }
    }
  }

  /** What pruning leaves alone: every other key, and these where they are not of the kind it works on. */
  lemma PruneKeepsRest(fields: map<string, Json>, k: string)
    ensures var goal := Prune(Obj(fields)).fields;
            && (k in goal ==> k in fields)
            && (k in fields && k != "required" ==> k in goal)
            && (k !in {"properties", "required", "allOf", "oneOf", "anyOf", "items", "additionalProperties"} && k in fields ==>
                  goal[k] == fields[k])
            && (k in {"allOf", "oneOf", "anyOf"} && k in fields && !fields[k].Arr? ==> goal[k] == fields[k])
            && (k in {"properties", "additionalProperties"} && k in fields && !fields[k].Obj? ==> goal[k] == fields[k])
            && (k == "required" && k in fields && (!HasProperties(fields) || !fields[k].Arr?) ==>
                  k in goal && goal[k] == fields[k])
            && (k in {"items", "additionalProperties"} && k in fields && fields[k].Obj? ==> goal[k] == Prune(fields[k]))
            && (k in {"allOf", "oneOf", "anyOf"} && k in fields && fields[k].Arr? ==>
                  goal[k].Arr? && |goal[k].items| == |fields[k].items|
                  && forall i :: 0 <= i < |fields[k].items| ==> goal[k].items[i] == Prune(fields[k].items[i]))
  {
    KeywordsDiffer();
    hide RequiredGoes, HasProperties;
    var goal := Prune(Obj(fields)).fields;
    if k in goal {
      assert goal[k] == PruneField(fields, k);
    }
    if k == "required" && k in fields && (!HasProperties(fields) || !fields[k].Arr?) {
      RequiredStays(fields);
    }
  }

  lemma RequiredStays(fields: map<string, Json>)
    requires "required" in fields && (!HasProperties(fields) || !fields["required"].Arr?)
    ensures !RequiredGoes(fields)
  {
  }

  lemma FewerItems(a: seq<Json>, b: seq<Json>)
    requires forall x :: x in a ==> x in b
    ensures Pointers(Arr(a)) <= Pointers(Arr(b))
  {
    forall x | x in Pointers(Arr(a)) ensures x in Pointers(Arr(b)) {
      PointerInItem(a, x);
      PointerInItem(b, x);
      var i :| 0 <= i < |a| && x in Pointers(a[i]);
      assert a[i] in b;
      var k :| 0 <= k < |b| && b[k] == a[i];
      assert x in Pointers(b[k]);
    }
  }

  lemma FewerProperties(fields: map<string, Json>)
    ensures Pointers(Obj(fields - INTERNAL_PARAMETERS)) <= Pointers(Obj(fields))
  {
  }

  /** Pruning never adds a `$ref`. */
  lemma {:induction false} PrunePointers(schema: Json)
    ensures Pointers(Prune(schema)) <= Pointers(schema)
    decreases schema, 1
  {
    if schema.Obj? {
      var fields := schema.fields;
      var goal := Prune(schema).fields;
      RefKeyStays(fields);
      forall x | x in Pointers(Prune(schema)) ensures x in Pointers(schema) {
        PointerInField(goal, x);
        PointerInField(fields, x);
        if x !in OwnPointer(goal) {
          var k :| k in goal && x in Pointers(goal[k]);
          assert goal[k] == PruneField(fields, k);
          PruneFieldPointers(schema, k);
          assert x in Pointers(fields[k]);
        }
      }
    }
  }

  lemma RefKeyStays(fields: map<string, Json>)
    ensures OwnPointer(Prune(Obj(fields)).fields) <= OwnPointer(fields)
  {
  }

  lemma {:induction false} PruneFieldPointers(schema: Json, k: string)
    requires schema.Obj? && k in schema.fields
    ensures Pointers(PruneField(schema.fields, k)) <= Pointers(schema.fields[k])
    decreases schema, 0
  {
    var fields := schema.fields;
    var v := fields[k];
    KeywordsDiffer();
    if k == "properties" && v.Obj? {
      FewerProperties(v.fields);
    } else if k == "required" && v.Arr? {
      PublicNamesMeaning(v.items);
      FewerItems(PublicNames(v.items), v.items);
    } else if k in COMBINATORS && v.Arr? {
      var pruned := PruneField(fields, k).items;
      forall x | x in Pointers(Arr(pruned)) ensures x in Pointers(v) {
        PointerInItem(pruned, x);
        PointerInItem(v.items, x);
        var i :| 0 <= i < |pruned| && x in Pointers(pruned[i]);
        PrunePointers(v.items[i]);
        assert x in Pointers(v.items[i]);
      }
    } else if k == "items" || (k == "additionalProperties" && v.Obj?) {
      PrunePointers(v);
    }
  }

  /** So it never adds a reference. */
  lemma PruneRefs(schema: Json)
    ensures Refs(Prune(schema)) <= Refs(schema)
  {
    PrunePointers(schema);
    FewerPointers(Prune(schema), schema);
  }

  // ---- the whole document ------------------------------------------------------------------------------

  /** The parts of a document the transformation reads: path -> method -> operation, and named schemas. */
  datatype Spec = Spec(paths: map<string, map<string, Json>>, schemas: map<string, Json>)

  predicate Contains(s: string, part: string) {
    part <= s || (s != [] && Contains(s[1..], part))
  }

  /** `PUBLIC_TAG in method_data.get("tags", [])`, None where Python raises. */
  function TaggedPublic(fields: map<string, Json>): Option<bool> {
    if "tags" !in fields then Some(false)
    else match fields["tags"]
      case Arr(items) => Some(Str(PUBLIC_TAG) in items)
      case Str(s) => Some(Contains(s, PUBLIC_TAG))
      case Obj(tags) => Some(PUBLIC_TAG in tags)
      case _ => None
  }

  predicate IsPublic(operation: Json) {
    operation.Obj? && TaggedPublic(operation.fields) == Some(true)
  }

  const BEARER := Arr([Obj(map["BearerAuth" := Arr([])])])

  function WithBearer(fields: map<string, Json>): map<string, Json> {
    if "security" in fields then fields["security" := BEARER] else fields
  }

  /** `PUBLIC_TAG in tags`: an element of a list, a key of an object, a part of a string. */
  ghost predicate SaysPublic(tags: Json) {
    match tags
    case Arr(items) => exists i :: 0 <= i < |items| && items[i] == Str("public")
    case Obj(fields) => "public" in fields
    case Str(s) => exists before, after :: s == before + "public" + after
    case _ => false
  }

  lemma {:induction false} ContainsMeaning(s: string, part: string)
    ensures Contains(s, part) <==> exists before, after :: s == before + part + after
  {
    if part <= s {
      assert s == "" + part + s[|part|..];
    } else if s != "" {
      ContainsMeaning(s[1..], part);
      if before, after :| s[1..] == before + part + after {
        assert s == ([s[0]] + before) + part + after;
      }
      if before, after :| s == before + part + after {
        assert before == "" ==> part <= s;
        assert s[1..] == before[1..] + part + after;
      }
    }
  }

  /** Whether an operation is published: it has tags, and they say so. */
  lemma PublicMeaning(operation: Json)
    ensures IsPublic(operation) <==>
              operation.Obj? && "tags" in operation.fields && SaysPublic(operation.fields["tags"])
  {
    if operation.Obj? && "tags" in operation.fields && operation.fields["tags"].Str? {
      ContainsMeaning(operation.fields["tags"].s, PUBLIC_TAG);
    }
  }

  predicate IsInternalParameter(p: Json) {
    p.Obj? && "name" in p.fields && IsInternal(p.fields["name"])
  }

  function PublicParameters(parameters: seq<Json>): seq<Json> {
    Filter(parameters, p => !IsInternalParameter(p))
  }

  function WithoutInternalParameters(fields: map<string, Json>): map<string, Json> {
    if "parameters" !in fields || !fields["parameters"].Arr? then fields
    else
      var kept := PublicParameters(fields["parameters"].items);
      if kept == [] then fields - {"parameters"} else fields["parameters" := Arr(kept)]
  }

  function Endpoint(operation: Json): Json
    requires operation.Obj?
  {
    Obj(WithoutInternalParameters(WithBearer(operation.fields)))
  }

  function PublicOperations(operations: map<string, Json>): map<string, Json> {
    map m | m in operations && IsPublic(operations[m]) :: Endpoint(operations[m])
  }

  function PublicPaths(paths: map<string, map<string, Json>>): map<string, map<string, Json>> {
    map p | p in paths && PublicOperations(paths[p]) != map[] :: PublicOperations(paths[p])
  }

  function OperationRefs(operations: map<string, Json>): set<string> {
    set m, r | m in operations && IsPublic(operations[m]) && r in Refs(operations[m]) :: r
  }

  function InitialRefs(paths: map<string, map<string, Json>>): set<string> {
    set p, r | p in paths && r in OperationRefs(paths[p]) :: r
  }

  function Sliced(spec: Spec, names: set<string>): Spec {
    Spec(PublicPaths(spec.paths), map n | n in names && n in spec.schemas :: Prune(spec.schemas[n]))
  }

  ghost predicate OperationWellFormed(operation: Json) {
    operation.Obj? ==>
      && RefsAreStrings(operation)
      && TaggedPublic(operation.fields).Some?
      && ("parameters" in operation.fields ==> operation.fields["parameters"].Arr?)
  }

  ghost predicate WellFormed(spec: Spec) {
    && (forall p, m :: p in spec.paths && m in spec.paths[p] ==> OperationWellFormed(spec.paths[p][m]))
    && (forall n :: n in spec.schemas ==> RefsAreStrings(spec.schemas[n]))
  }

  /** Every schema name the code reads off the output, if the input defines it, the output does. */
  ghost predicate NoDangling(spec: Spec, out: Spec) {
    && (forall p, m, r :: p in out.paths && m in out.paths[p] && r in Refs(out.paths[p][m]) && r in spec.schemas ==>
          r in out.schemas)
    && (forall n, r :: n in out.schemas && r in Refs(out.schemas[n]) && r in spec.schemas ==> r in out.schemas)
  }

  ghost predicate CleanAlongEdges(out: Spec) {
    && (forall n :: n in out.schemas ==> Clean(out.schemas[n]))
    && (forall p, m :: p in out.paths && m in out.paths[p] ==>
          var operation := out.paths[p][m];
          operation.Obj? && ("parameters" in operation.fields && operation.fields["parameters"].Arr? ==>
            forall x :: x in operation.fields["parameters"].items ==> !IsInternalParameter(x)))
  }

  lemma {:induction false} ParametersMeaning(parameters: seq<Json>)
    ensures forall p :: p in PublicParameters(parameters) <==> p in parameters && !IsInternalParameter(p)
  {
    forall p ensures p in PublicParameters(parameters) <==> p in parameters && !IsInternalParameter(p) {
      FilterMember(parameters, x => !IsInternalParameter(x), p);
    }
  }

  lemma EndpointPointers(operation: Json)
    requires operation.Obj?
    ensures Pointers(Endpoint(operation)) <= Pointers(operation)
  {
    var fields := operation.fields;
    var secured := WithBearer(fields);
    var goal := WithoutInternalParameters(secured);
    assert "$ref"[0] == '$' && "security"[0] == 's' && "parameters"[0] == 'p';
    forall x | x in Pointers(Obj(goal)) ensures x in Pointers(operation) {
      PointerInField(goal, x);
      PointerInField(fields, x);
      if x !in OwnPointer(goal) {
        var k :| k in goal && x in Pointers(goal[k]);
        if k == "security" {
          BearerHasNoPointers();
        } else if k == "parameters" && secured[k].Arr? {
          ParametersMeaning(secured[k].items);
          FewerItems(PublicParameters(secured[k].items), secured[k].items);
        }
        assert x in Pointers(fields[k]);
      }
    }
  }

  lemma BearerHasNoPointers()
    ensures Pointers(BEARER) == {}
  {
  }

  lemma EndpointRefs(operation: Json)
    requires operation.Obj?
    ensures Refs(Endpoint(operation)) <= Refs(operation)
  {
    EndpointPointers(operation);
    FewerPointers(Endpoint(operation), operation);
  }

  /** An object whose name is internal. */
  ghost predicate NamedInternal(p: Json) {
    p.Obj? && "name" in p.fields && (p.fields["name"] == Str("tenant_id") || p.fields["name"] == Str("db_session"))
  }

  lemma PublicParametersAre(parameters: seq<Json>)
    ensures PublicParameters(parameters) == Filter(parameters, p => !NamedInternal(p))
  {
    forall p | p in parameters ensures !IsInternalParameter(p) == !NamedInternal(p) {
      if p.Obj? && "name" in p.fields {
        InternalNames(p.fields["name"]);
      }
    }
    FilterSame(parameters, p => !IsInternalParameter(p), p => !NamedInternal(p));
  }

  /** `now` is `was` but for a `security` entry set to the bearer scheme and the internal parameters gone. */
  ghost predicate OnlySecuredAndCleaned(was: map<string, Json>, now: map<string, Json>) {
    && (forall k :: k != "security" && k != "parameters" ==> (k in now <==> k in was) && (k in was ==> now[k] == was[k]))
    && ("security" in now <==> "security" in was)
    && ("security" in now ==> now["security"] == Arr([Obj(map["BearerAuth" := Arr([])])]))
    && ("parameters" in now ==> "parameters" in was)
    && ("parameters" in was && was["parameters"].Arr? ==>
          if "parameters" in now then now["parameters"] == Arr(Filter(was["parameters"].items, p => !NamedInternal(p)))
          else Filter(was["parameters"].items, p => !NamedInternal(p)) == [])
  }

  lemma EndpointMeaning(operation: Json)
    requires operation.Obj?
    ensures OnlySecuredAndCleaned(operation.fields, Endpoint(operation).fields)
  {
    hide PublicParameters, IsInternalParameter;
    var was := operation.fields;
    assert |"security"| == 8 && |"parameters"| == 10;
    if "parameters" in was && was["parameters"].Arr? {
      PublicParametersAre(was["parameters"].items);
    }
  }

  /** An operation is in the slice exactly when its tags say public, and then it is only secured and cleaned. */
  lemma SliceKeepsPublicOperations(spec: Spec, names: set<string>, p: string, m: string)
    ensures var out := Sliced(spec, names);
            && (p in out.paths && m in out.paths[p] <==>
                  p in spec.paths && m in spec.paths[p] && spec.paths[p][m].Obj?
                  && "tags" in spec.paths[p][m].fields && SaysPublic(spec.paths[p][m].fields["tags"]))
            && (p in out.paths && m in out.paths[p] ==>
                  out.paths[p][m].Obj? && OnlySecuredAndCleaned(spec.paths[p][m].fields, out.paths[p][m].fields))
  {
    if p in spec.paths && m in spec.paths[p] {
      PublicMeaning(spec.paths[p][m]);
    }
    hide OnlySecuredAndCleaned, WithBearer, WithoutInternalParameters, TaggedPublic, SaysPublic;
    if p in spec.paths && m in spec.paths[p] && IsPublic(spec.paths[p][m]) {
      assert m in PublicOperations(spec.paths[p]);
      EndpointMeaning(spec.paths[p][m]);
    }
  }

  /** The output's schemas hold no internal name at any depth exactly when their public properties already held none. */
  lemma SliceDeeplyClean(spec: Spec, names: set<string>)
    ensures (forall n :: n in Sliced(spec, names).schemas ==> DeepClean(Sliced(spec, names).schemas[n]))
            <==> forall n :: n in names && n in spec.schemas ==> NestedClean(spec.schemas[n])
  {
    hide DeepClean, NestedClean, Prune;
    var out := Sliced(spec, names).schemas;
    forall n | n in names && n in spec.schemas
      ensures n in out && (DeepClean(out[n]) <==> NestedClean(spec.schemas[n]))
    {
      DeepCleanIffNested(spec.schemas[n]);
    }
  }

  /** The slice defines every schema it still mentions; its component schemas and parameter lists are clean. */
  lemma SliceIsSound(spec: Spec, names: set<string>)
    requires IsLeastClosed(spec.schemas, InitialRefs(spec.paths), names)
    ensures NoDangling(spec, Sliced(spec, names))
    ensures CleanAlongEdges(Sliced(spec, names))
  {
    var out := Sliced(spec, names);
    forall n, r | n in out.schemas && r in Refs(out.schemas[n]) && r in spec.schemas
      ensures r in out.schemas
    {
      PruneRefs(spec.schemas[n]);
    }
    forall p, m, r | p in out.paths && m in out.paths[p] && r in Refs(out.paths[p][m]) && r in spec.schemas
      ensures r in out.schemas
    {
      EndpointRefs(spec.paths[p][m]);
      assert r in OperationRefs(spec.paths[p]);
      assert r in InitialRefs(spec.paths);
    }
    forall n | n in out.schemas ensures Clean(out.schemas[n]) {
      PruneCleans(spec.schemas[n]);
    }
    forall p, m | p in out.paths && m in out.paths[p]
      ensures var operation := out.paths[p][m];
              operation.Obj? && ("parameters" in operation.fields && operation.fields["parameters"].Arr? ==>
                forall x :: x in operation.fields["parameters"].items ==> !IsInternalParameter(x))
    {
      var secured := WithBearer(spec.paths[p][m].fields);
      if "parameters" in secured && secured["parameters"].Arr? {
        ParametersMeaning(secured["parameters"].items);
      }
    }
  }

  /** The `$ref` strings left in the output. */
  ghost predicate Kept(out: Spec, ref: string) {
    || (exists p, m :: p in out.paths && m in out.paths[p] && ref in Pointers(out.paths[p][m]))
    || (exists n :: n in out.schemas && ref in Pointers(out.schemas[n]))
  }

  /** Every reference left in the output into a schema the input defines leads into a schema of the output. */
  ghost predicate PointersResolve(spec: Spec, out: Spec) {
    forall ref :: Kept(out, ref) && Target(ref).Some? && Target(ref).value in spec.schemas ==>
      Target(ref).value in out.schemas
  }

  lemma ReadRightResolves(spec: Spec, names: set<string>, ref: string)
    requires IsLeastClosed(spec.schemas, InitialRefs(spec.paths), names)
    requires Kept(Sliced(spec, names), ref) && Target(ref).Some? && !Misread(ref)
    requires Target(ref).value in spec.schemas
    ensures Target(ref).value in Sliced(spec, names).schemas
  {
    SliceIsSound(spec, names);
    var out, name := Sliced(spec, names), Target(ref).value;
    assert ReadAs(ref, name);
    hide IsLeastClosed, Target, Sliced, Kept;
    KeptIsRead(out, ref, name);
  }

  /** References the code reads right resolve, so only misread ones can dangle: those whose schema was not kept. */
  lemma PointersResolveIff(spec: Spec, names: set<string>)
    requires IsLeastClosed(spec.schemas, InitialRefs(spec.paths), names)
    ensures PointersResolve(spec, Sliced(spec, names))
            <==> forall ref :: Kept(Sliced(spec, names), ref) && Misread(ref) && Target(ref).value in spec.schemas ==>
                   Target(ref).value in names
  {
    var out := Sliced(spec, names);
    assert forall n :: n in out.schemas <==> n in names && n in spec.schemas;
    assert forall ref :: Misread(ref) ==> Target(ref).Some?;
    hide IsLeastClosed, Target, Kept, Misread, Sliced;
    forall ref | Kept(out, ref) && Target(ref).Some? && !Misread(ref) && Target(ref).value in spec.schemas
      ensures Target(ref).value in out.schemas
    {
      ReadRightResolves(spec, names, ref);
    }
  }

  lemma KeptIsRead(out: Spec, ref: string, name: string)
    requires Kept(out, ref) && ReadAs(ref, name)
    ensures || (exists p, m :: p in out.paths && m in out.paths[p] && name in Refs(out.paths[p][m]))
            || (exists n :: n in out.schemas && name in Refs(out.schemas[n]))
  {
    hide ReadAs, Refs, Pointers;
    if p, m :| p in out.paths && m in out.paths[p] && ref in Pointers(out.paths[p][m]) {
      RefsAreRead(out.paths[p][m], name);
    } else if n :| n in out.schemas && ref in Pointers(out.schemas[n]) {
      RefsAreRead(out.schemas[n], name);
    }
  }

  /** In particular nothing dangles when every schema reference left is the prefix and a plain name. */
  lemma PlainPointersResolve(spec: Spec, names: set<string>)
    requires IsLeastClosed(spec.schemas, InitialRefs(spec.paths), names)
    requires forall ref :: Kept(Sliced(spec, names), ref) && Target(ref).Some? ==>
               exists name :: '/' !in name && '%' !in name && '~' !in name && ref == SCHEMA_PREFIX + name
    ensures PointersResolve(spec, Sliced(spec, names))
  {
    PointersResolveIff(spec, names);
    hide IsLeastClosed, Target, Misread, Kept;
    forall ref | Kept(Sliced(spec, names), ref) && Target(ref).Some? ensures !Misread(ref) {
      var name :| '/' !in name && '%' !in name && '~' !in name && ref == SCHEMA_PREFIX + name;
      PlainIsReadRight(name);
    }
  }

  const NESTED_POINTER := "#/components/schemas/Foo/properties/bar"

  lemma TargetBelow(name: string, rest: string)
    requires '/' !in name && '%' !in name && '~' !in name && '%' !in rest && '~' !in rest
    ensures Target(SCHEMA_PREFIX + name + "/" + rest) == Some(name)
  {
    var below := name + ['/'] + rest;
    TargetOfPlain(below);
    IndexAfterPart(name, '/', rest);
    hide Target, IndexOf;
    assert below[..|name|] == name && SCHEMA_PREFIX + name + "/" + rest == SCHEMA_PREFIX + below;
  }

  lemma NestedPointerMisread()
    ensures Target(NESTED_POINTER) == Some("Foo")
    ensures SCHEMA_PREFIX <= NESTED_POINTER && LastSegment(NESTED_POINTER) == "bar"
  {
    hide Target, LastSegment;
    LastAfterSlash("#/components/schemas/Foo/properties", "bar");
    assert "#/components/schemas/Foo/properties" + "/" + "bar" == NESTED_POINTER;
    TargetBelow("Foo", "properties/bar");
    assert SCHEMA_PREFIX + "Foo" + "/" + "properties/bar" == NESTED_POINTER;
  }

  /** A public operation with one more member. */
  function OperationWith(key: string, v: Json): Json {
    Obj(map["tags" := Arr([Str(PUBLIC_TAG)])][key := v])
  }

  function OneOperation(operation: Json, schemas: map<string, Json>): Spec {
    Spec(map["/p" := map["get" := operation]], schemas)
  }

  lemma OneOperationSliced(key: string, v: Json, schemas: map<string, Json>, names: set<string>)
    requires key != "tags" && key != "parameters" && key != "security"
    ensures var out := Sliced(OneOperation(OperationWith(key, v), schemas), names);
            && "/p" in out.paths && "get" in out.paths["/p"] && out.paths["/p"]["get"] == OperationWith(key, v)
    ensures InitialRefs(OneOperation(OperationWith(key, v), schemas).paths) == Refs(OperationWith(key, v))
  {
    hide Refs;
    var operation := OperationWith(key, v);
    assert |"tags"| == 4 && |"parameters"| == 10 && |"security"| == 8;
    assert operation.fields["tags"] == Arr([Str(PUBLIC_TAG)]) && Str(PUBLIC_TAG) in operation.fields["tags"].items;
    assert IsPublic(operation) && Endpoint(operation) == operation;
    var operations := map["get" := operation];
    assert "get" in PublicOperations(operations);
    assert OperationRefs(operations) == Refs(operation);
  }

  lemma OperationWithRefs(key: string, v: Json)
    requires key != "tags" && key != "$ref"
    ensures Refs(OperationWith(key, v)) == Refs(v) && Pointers(v) <= Pointers(OperationWith(key, v))
  {
    var fields := OperationWith(key, v).fields;
    assert "$ref"[0] == '$' && "tags"[0] == 't';
    assert key in fields && fields[key] == v && fields["tags"] == Arr([Str(PUBLIC_TAG)]);
    assert "$ref" !in fields && fields.Keys == {"tags", key};
    assert Refs(Str(PUBLIC_TAG)) == {};
    hide Refs, Pointers;
    forall x ensures x in Refs(Obj(fields)) <==> x in Refs(v) {
      RefInField(fields, x);
      RefInItem([Str(PUBLIC_TAG)], x);
    }
    forall x | x in Pointers(v) ensures x in Pointers(Obj(fields)) {
      PointerInField(fields, x);
    }
  }

  lemma OnlyPointer(ref: string)
    requires SCHEMA_PREFIX <= ref
    ensures Refs(Obj(map["$ref" := Str(ref)])) == {LastSegment(ref)}
    ensures ref in Pointers(Obj(map["$ref" := Str(ref)]))
  {
    var fields := map["$ref" := Str(ref)];
    assert Refs(Str(ref)) == {};
    hide LastSegment;
    forall x ensures x in Refs(Obj(fields)) <==> x == LastSegment(ref) {
      RefInField(fields, x);
    }
  }

  lemma Dangles(spec: Spec, names: set<string>, p: string, m: string, ref: string)
    requires var out := Sliced(spec, names); p in out.paths && m in out.paths[p] && ref in Pointers(out.paths[p][m])
    requires Target(ref).Some? && Target(ref).value in spec.schemas && Target(ref).value !in names
    ensures Kept(Sliced(spec, names), ref) && !PointersResolve(spec, Sliced(spec, names))
  {
    hide Pointers, Target;
  }

  /** A pointer below a schema is taken for a schema of its last name: "Foo" is dropped, the pointer stays. */
  lemma MisreadReferenceDangles() returns (spec: Spec, names: set<string>)
    ensures IsLeastClosed(spec.schemas, InitialRefs(spec.paths), names)
    ensures "Foo" in spec.schemas && Sliced(spec, names).schemas == map[]
    ensures Kept(Sliced(spec, names), NESTED_POINTER) && Target(NESTED_POINTER) == Some("Foo")
    ensures NoDangling(spec, Sliced(spec, names)) && !PointersResolve(spec, Sliced(spec, names))
  {
    hide Refs, Pointers, Target, LastSegment, OperationWith, Kept, PointersResolve, NoDangling, PublicPaths, InitialRefs;
    var v := Obj(map["$ref" := Str(NESTED_POINTER)]);
    spec, names := OneOperation(OperationWith("x", v), map["Foo" := Obj(map[])]), {"bar"};
    assert |"x"| == 1 && |"tags"| == 4 && |"$ref"| == 4 && |"parameters"| == 10 && |"security"| == 8;
    assert "Foo"[0] == 'F' && "bar"[0] == 'b';
    NestedPointerMisread();
    OneOperationSliced("x", v, spec.schemas, names);
    OperationWithRefs("x", v);
    OnlyPointer(NESTED_POINTER);
    assert InitialRefs(spec.paths) == {"bar"};
    assert IsLeastClosed(spec.schemas, {"bar"}, names);
    SliceIsSound(spec, names);
    Dangles(spec, names, "/p", "get", NESTED_POINTER);
  }

  /** A parameter given by reference stays as it is, wherever it points; the output has no parameters section. */
  lemma ParameterReferenceStays(spec: Spec, names: set<string>, p: string, m: string, ref: string)
    requires p in spec.paths && m in spec.paths[p] && IsPublic(spec.paths[p][m])
    requires "parameters" in spec.paths[p][m].fields && spec.paths[p][m].fields["parameters"].Arr?
    requires Obj(map["$ref" := Str(ref)]) in spec.paths[p][m].fields["parameters"].items
    ensures Kept(Sliced(spec, names), ref)
  {
    var operation, parameter := spec.paths[p][m], Obj(map["$ref" := Str(ref)]);
    var was := operation.fields["parameters"].items;
    SliceKeepsPublicOperations(spec, names, p, m);
    PublicMeaning(operation);
    ReferenceIsPublic(ref);
    var keep := x => !NamedInternal(x);
    FilterMember(was, keep, parameter);
    hide NamedInternal, SaysPublic, IsPublic, Sliced, Filter, Pointers;
    var now := Sliced(spec, names).paths[p][m].fields;
    assert Filter(was, keep) == Filter(was, p => !NamedInternal(p));
    assert now["parameters"] == Arr(Filter(was, keep));
    PointerOfItem(Filter(was, keep), parameter, ref);
    PointerInField(now, ref);
  }

  lemma ReferenceIsPublic(ref: string)
    ensures var parameter := Obj(map["$ref" := Str(ref)]); !NamedInternal(parameter) && ref in Pointers(parameter)
  {
    assert "$ref"[0] == '$' && "name"[0] == 'n';
  }

  lemma PointerOfItem(items: seq<Json>, item: Json, ref: string)
    requires item in items && ref in Pointers(item)
    ensures ref in Pointers(Arr(items))
  {
    var i :| 0 <= i < |items| && items[i] == item;
    PointerInItem(items, ref);
  }

  // ---- which schemas stay ---------------------------------------------------------------------------

  /** The code reads this schema name off some reference in `j`. */
  ghost predicate RefersTo(j: Json, name: string) {
    exists ref :: ref in Pointers(j) && ReadAs(ref, name)
  }

  /** Some published operation, as the input has it, refers to the schema. */
  ghost predicate Initially(spec: Spec, name: string) {
    exists p, m :: p in spec.paths && m in spec.paths[p] && RefersTo(spec.paths[p][m], name)
                   && spec.paths[p][m].Obj? && "tags" in spec.paths[p][m].fields
                   && SaysPublic(spec.paths[p][m].fields["tags"])
  }

  /** From a published operation, each schema referring to the next. */
  ghost predicate IsChain(spec: Spec, chain: seq<string>) {
    && chain != [] && Initially(spec, chain[0])
    && forall i :: 0 <= i < |chain| - 1 ==> chain[i] in spec.schemas && RefersTo(spec.schemas[chain[i]], chain[i + 1])
  }

  ghost predicate Reached(spec: Spec, name: string) {
    exists chain :: IsChain(spec, chain) && chain[|chain| - 1] == name
  }

  lemma InitialNames(spec: Spec, name: string)
    ensures name in InitialRefs(spec.paths) <==> Initially(spec, name)
  {
    forall p, m | p in spec.paths && m in spec.paths[p]
      ensures IsPublic(spec.paths[p][m]) <==> spec.paths[p][m].Obj? && "tags" in spec.paths[p][m].fields
                                              && SaysPublic(spec.paths[p][m].fields["tags"])
      ensures name in Refs(spec.paths[p][m]) <==> RefersTo(spec.paths[p][m], name)
    {
      PublicMeaning(spec.paths[p][m]);
      RefsAreRead(spec.paths[p][m], name);
    }
    hide IsPublic, Refs, RefersTo, SaysPublic;
    assert name in InitialRefs(spec.paths) <==> exists p :: p in spec.paths && name in OperationRefs(spec.paths[p]);
  }

  lemma ReachedNext(spec: Spec, name: string, next: string)
    requires Reached(spec, name) && name in spec.schemas && RefersTo(spec.schemas[name], next)
    ensures Reached(spec, next)
  {
    hide RefersTo, Initially;
    var chain :| IsChain(spec, chain) && chain[|chain| - 1] == name;
    var longer := chain + [next];
    assert IsChain(spec, longer) && longer[|longer| - 1] == next;
  }

  lemma {:induction false} ChainHeld(spec: Spec, names: set<string>, chain: seq<string>)
    requires Closed(spec.schemas, InitialRefs(spec.paths), names) && IsChain(spec, chain)
    ensures chain[|chain| - 1] in names
  {
    InitialNames(spec, chain[0]);
    hide Initially, RefersTo, Refs, InitialRefs;
    if |chain| > 1 {
      var init := chain[..|chain| - 1];
      ChainHeld(spec, names, init);
      RefsAreRead(spec.schemas[chain[|chain| - 2]], chain[|chain| - 1]);
      RefersIsRead(spec.schemas[chain[|chain| - 2]], chain[|chain| - 1]);
    }
  }

  lemma RefersIsRead(j: Json, name: string)
    ensures RefersTo(j, name) <==> name in Refs(j)
  {
    RefsAreRead(j, name);
  }

  /** The output keeps exactly the defined schemas that a published operation reaches, reference by reference. */
  lemma KeptIffReached(spec: Spec, names: set<string>, name: string)
    requires IsLeastClosed(spec.schemas, InitialRefs(spec.paths), names)
    ensures name in Sliced(spec, names).schemas <==> name in spec.schemas && Reached(spec, name)
  {
    var initial := InitialRefs(spec.paths);
    var reached := set n | n in names && Reached(spec, n);
    forall n | n in initial ensures n in reached {
      InitialNames(spec, n);
      assert IsChain(spec, [n]) && [n][|[n]| - 1] == n;
    }
    forall n, next | n in reached && n in spec.schemas && next in Refs(spec.schemas[n]) ensures next in reached {
      RefersIsRead(spec.schemas[n], next);
      ReachedNext(spec, n, next);
    }
    assert Closed(spec.schemas, initial, reached);
    if Reached(spec, name) {
      var chain :| IsChain(spec, chain) && chain[|chain| - 1] == name;
      ChainHeld(spec, names, chain);
    }
  }

  // ---- schemas written inside operations ------------------------------------------------------------

  /** The node test at every object of a value, whatever leads to it. */
  ghost predicate CleanEverywhere(j: Json) {
    match j
    case Obj(fields) => CleanNode(fields) && forall k :: k in fields ==> CleanEverywhere(fields[k])
    case Arr(items) => forall i :: 0 <= i < |items| ==> CleanEverywhere(items[i])
    case _ => true
  }

  /** An operation is clean throughout once sliced exactly when everything of it that stays was. */
  lemma OperationCleanIff(operation: Json)
    requires operation.Obj?
    ensures CleanEverywhere(Endpoint(operation)) <==>
              && CleanNode(operation.fields)
              && forall k :: k in operation.fields && k != "security" ==>
                   if k == "parameters" && operation.fields[k].Arr?
                   then forall x :: x in PublicParameters(operation.fields[k].items) ==> CleanEverywhere(x)
                   else CleanEverywhere(operation.fields[k])
  {
    var was, now := operation.fields, Endpoint(operation).fields;
    EndpointMeaning(operation);
    BearerIsClean();
    assert |"security"| == 8 && |"parameters"| == 10 && |"required"| == 8 && "required"[0] == 'r';
    assert "properties"[1] == 'r' && "parameters"[1] == 'a' && "security"[0] == 's';
    assert CleanNode(now) <==> CleanNode(was);
    hide CleanNode, PublicParameters, IsInternalParameter, Endpoint;
    if "parameters" in was && was["parameters"].Arr? {
      ParametersCleanIff(operation);
    }
  }

  lemma BearerIsClean()
    ensures CleanEverywhere(BEARER)
  {
  }

  lemma ParametersCleanIff(operation: Json)
    requires operation.Obj? && "parameters" in operation.fields && operation.fields["parameters"].Arr?
    ensures var (was, now) := (operation.fields["parameters"].items, Endpoint(operation).fields);
            ("parameters" in now ==> CleanEverywhere(now["parameters"]))
            <==> forall x :: x in PublicParameters(was) ==> CleanEverywhere(x)
  {
    var was, now := operation.fields["parameters"].items, Endpoint(operation).fields;
    EndpointMeaning(operation);
    ParametersMeaning(was);
    hide PublicParameters, IsInternalParameter, Endpoint;
    var kept := PublicParameters(was);
    ItemsClean(kept);
    if "parameters" in now {
      assert now["parameters"] == Arr(kept);
    } else {
      assert forall x :: x in kept ==> x in was;
    }
  }

  lemma ItemsClean(items: seq<Json>)
    ensures CleanEverywhere(Arr(items)) <==> forall x :: x in items ==> CleanEverywhere(x)
  {
    if CleanEverywhere(Arr(items)) {
      forall x | x in items ensures CleanEverywhere(x) {
        var i :| 0 <= i < |items| && items[i] == x;
        assert Arr(items).items[i] == x;
      }
    }
    assert forall i :: 0 <= i < |items| ==> items[i] in items;
  }

  /** A request body's own schema keeps its `tenant_id`. */
  lemma InlineSchemaSurvives() returns (spec: Spec)
    ensures forall names :: var out := Sliced(spec, names);
              && "/p" in out.paths && "get" in out.paths["/p"] && out.paths["/p"]["get"].Obj?
              && "requestBody" in out.paths["/p"]["get"].fields
              && out.paths["/p"]["get"].fields["requestBody"]
                 == Obj(map["schema" := Obj(map["properties" := Obj(map["tenant_id" := Null])])])
    ensures forall names :: !CleanEverywhere(Sliced(spec, names).paths["/p"]["get"])
  {
    var schema := Obj(map["properties" := Obj(map["tenant_id" := Null])]);
    var body := Obj(map["schema" := schema]);
    assert |"requestBody"| == 11 && |"tags"| == 4 && |"parameters"| == 10 && |"security"| == 8;
    assert "tenant_id" in schema.fields["properties"].fields && !CleanNode(schema.fields);
    assert !CleanEverywhere(schema);
    assert "schema" in body.fields && body.fields["schema"] == schema;
    assert !CleanEverywhere(body);
    var operation := OperationWith("requestBody", body);
    assert "requestBody" in operation.fields && operation.fields["requestBody"] == body;
    spec := OneOperation(operation, map[]);
    forall names ensures var out := Sliced(spec, names);
      "/p" in out.paths && "get" in out.paths["/p"] && out.paths["/p"]["get"] == operation
    {
      OneOperationSliced("requestBody", body, map[], names);
    }
  }

  lemma OneMoreOperation(operations: map<string, Json>, todo: set<string>, m: string)
    requires m in todo && m in operations
    ensures OperationRefs(operations - (todo - {m}))
            == OperationRefs(operations - todo) + (if IsPublic(operations[m]) then Refs(operations[m]) else {})
    ensures PublicOperations(operations - (todo - {m}))
            == if IsPublic(operations[m]) then PublicOperations(operations - todo)[m := Endpoint(operations[m])]
               else PublicOperations(operations - todo)
  {
    hide Refs, IsPublic, Endpoint;
    var more, less := operations - (todo - {m}), operations - todo;
    var added := if IsPublic(operations[m]) then Refs(operations[m]) else {};
    forall x ensures x in OperationRefs(more) <==> x in OperationRefs(less) + added {
      if x in OperationRefs(more) {
        var k :| k in more && IsPublic(more[k]) && x in Refs(more[k]);
        assert k == m || (k in less && less[k] == more[k]);
      }
      if x in OperationRefs(less) {
        var k :| k in less && IsPublic(less[k]) && x in Refs(less[k]);
        assert k in more && more[k] == less[k];
      } else if x in added {
        assert m in more && more[m] == operations[m];
      }
    }
  }

  method SliceOperations(operations: map<string, Json>, initial: set<string>)
    returns (r: Result<(map<string, Json>, set<string>), Malformed>)
    ensures r.Ok? ==> r.value == (PublicOperations(operations), initial + OperationRefs(operations))
    ensures r.Err? ==> exists m :: m in operations && !OperationWellFormed(operations[m])
  {
    var out: map<string, Json> := map[];
    var refs := initial;
    var methods := operations.Keys;
    while methods != {}
      invariant methods <= operations.Keys
      invariant out == PublicOperations(operations - methods)
      invariant refs == initial + OperationRefs(operations - methods)
      decreases methods
    {
      var m :| m in methods;
      OneMoreOperation(operations, methods, m);
      methods := methods - {m};
      var operation := operations[m];
      if operation.Obj? {
        var tagged := TaggedPublic(operation.fields);
        if tagged.None? {
          return Err(TagsNotAContainer);
        }
        if tagged.value {
          if "parameters" in operation.fields && !operation.fields["parameters"].Arr? {
            return Err(ParametersNotAList);
          }
          out := out[m := Endpoint(operation)];
          var collected := CollectSchemaRefs(operation, refs);
          if collected.Err? {
            return Err(collected.error);
          }
          refs := collected.value;
        }
      }
    }
    assert operations - {} == operations;
    r := Ok((out, refs));
  }

  lemma NoPaths(paths: map<string, map<string, Json>>)
    ensures PublicPaths(paths - paths.Keys) == map[] && InitialRefs(paths - paths.Keys) == {}
  {
  }

  lemma OneMorePath(paths: map<string, map<string, Json>>, todo: set<string>, p: string)
    requires p in todo && p in paths
    ensures InitialRefs(paths - (todo - {p})) == InitialRefs(paths - todo) + OperationRefs(paths[p])
    ensures PublicPaths(paths - (todo - {p}))
            == if PublicOperations(paths[p]) != map[] then PublicPaths(paths - todo)[p := PublicOperations(paths[p])]
               else PublicPaths(paths - todo)
  {
    hide PublicOperations, OperationRefs;
    var more, less := paths - (todo - {p}), paths - todo;
    assert forall q :: q in more <==> q == p || q in less;
    assert forall q :: q in more ==> more[q] == paths[q];
    assert forall q :: q in less ==> q in more && less[q] == paths[q];
  }

  method SlicePaths(paths: map<string, map<string, Json>>)
    returns (r: Result<(map<string, map<string, Json>>, set<string>), Malformed>)
    ensures r.Ok? ==> r.value == (PublicPaths(paths), InitialRefs(paths))
    ensures r.Err? ==> exists p, m :: p in paths && m in paths[p] && !OperationWellFormed(paths[p][m])
  {
    hide *;
    var out: map<string, map<string, Json>> := map[];
    var initial: set<string> := {};
    NoPaths(paths);
    var todo := paths.Keys;
    while todo != {}
      invariant todo <= paths.Keys
      invariant out == PublicPaths(paths - todo)
      invariant initial == InitialRefs(paths - todo)
      decreases todo
    {
      var p :| p in todo;
      OneMorePath(paths, todo, p);
      todo := todo - {p};
      var sliced := SliceOperations(paths[p], initial);
      if sliced.Err? {
        return Err(sliced.error);
      }
      if sliced.value.0 != map[] {
        out := out[p := sliced.value.0];
      }
      initial := sliced.value.1;
    }
    assert paths - {} == paths;
    r := Ok((out, initial));
  }

  method SliceSchemas(schemas: map<string, Json>, names: set<string>) returns (out: map<string, Json>)
    ensures out == map n | n in names && n in schemas :: Prune(schemas[n])
  {
    out := map[];
    var todo := names;
    while todo != {}
      invariant todo <= names
      invariant out == map n | n in names && n !in todo && n in schemas :: Prune(schemas[n])
      decreases todo
    {
      var n :| n in todo;
      todo := todo - {n};
      if n in schemas {
        var pruned := RemoveInternalProperties(schemas[n]);
        out := out[n := pruned];
      }
    }
  }

  /**
   The transformation. It succeeds on every well-formed document; whenever it succeeds the output is the
   public paths plus the least closed set of defined schemas, clean along the recursion edges; no name read
   off a schema reference is missing, and where none into a defined schema is misread no such reference dangles.
   */
  method TransformOpenApi(spec: Spec) returns (r: Result<Spec, Malformed>)
    ensures WellFormed(spec) ==> r.Ok?
    ensures r.Ok? ==> exists names :: IsLeastClosed(spec.schemas, InitialRefs(spec.paths), names)
                                      && r.value == Sliced(spec, names)
    ensures r.Ok? ==> NoDangling(spec, r.value) && CleanAlongEdges(r.value)
    ensures r.Ok? && (forall ref :: Kept(r.value, ref) && Misread(ref) ==> Target(ref).value !in spec.schemas) ==>
              PointersResolve(spec, r.value)
  {
    hide Kept, Misread, Target;
    var sliced := SlicePaths(spec.paths);
    if sliced.Err? {
      return Err(sliced.error);
    }
    var all := GetAllReferencedSchemas(spec.schemas, sliced.value.1);
    if all.Err? {
      return Err(all.error);
    }
    var schemas := SliceSchemas(spec.schemas, all.value);
    SliceIsSound(spec, all.value);
    PointersResolveIff(spec, all.value);
    r := Ok(Spec(sliced.value.0, schemas));
    assert r.value == Sliced(spec, all.value);
  }
}
