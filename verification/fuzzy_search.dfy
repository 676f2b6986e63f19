/** The record predicate `fuzzySearch(str, sm)` of lib/fuzzySearch.js: the
    function installed under `$where` and called by the datastore with each
    candidate record as `this`. It has three modes, chosen in this order: an
    array of dotted field paths, a deep walk over every string leaf, and a
    shallow scan of the record's own top-level properties. */
module FuzzySearch {
  import opened Wrappers
  import opened Text
  import opened RegexEscape
  import opened Values
  import opened Options

  /** `normalize(s, sm)` of lib/normalize.js: the text as given, or with its
      diacritics folded away when `fuzzyDiacritics` is set. A normalised
      string is its own normal form, so normalising the search string and
      the text once each is enough. */
  function Normalize(s: string, sm: Settings): (r: string)
    ensures !sm.fuzzyDiacritics ==> r == s
    ensures sm.fuzzyDiacritics ==> FoldDiacritics(r) == r
  {
    if sm.fuzzyDiacritics then
      FoldIdempotent(s);
      FoldDiacritics(s)
    else s
  }

  /** The source of `r`: the normalised search string with every regular
      expression metacharacter escaped, so that it denotes that string
      literally. */
  function NeedleSource(str: string, sm: Settings): (p: string)
    ensures Unescape(p) == Some(Normalize(str, sm))
  {
    UnescapeEscape(Normalize(str, sm));
    Escape(Normalize(str, sm))
  }

  /** `normalize(text, sm).match(r) !== null`, with `r` case-insensitive. */
  predicate TextMatches(str: string, sm: Settings, text: string) {
    LiteralTest(NeedleSource(str, sm), true, Normalize(text, sm)) == Some(true)
  }

  /** The test is a case-insensitive literal substring test between the two
      normalised strings; no metacharacter of the search string has any
      effect beyond standing for itself. */
  lemma TextMatchesIff(str: string, sm: Settings, text: string)
    ensures TextMatches(str, sm, text)
        <==> ContainsIgnoringCase(Normalize(text, sm), Normalize(str, sm))
  {
    EscapedPatternIsLiteral(Normalize(str, sm), true, Normalize(text, sm));
  }

  /** `typeof value === 'string' && normalize(value, sm).match(r) !== null`:
      anything but a string, including an absent value, does not match. */
  predicate ValueMatches(v: Option<Value>, str: string, sm: Settings) {
    v.Some? && v.value.Str? && TextMatches(str, sm, v.value.s)
  }

  /** One step of a dotted path: an own property of an object, or an
      element of an array named by a canonical decimal index. */
  function Child(v: Value, segment: string): Option<Value> {
    match v
    case Obj(props) => Lookup(props, segment)
    case Arr(items) =>
      var idx := ParseIndex(segment);
      if idx.Some? && idx.value < |items| then Some(items[idx.value]) else None
    case _ => None
  }

  /** Every string leaf of a child is a string leaf of its parent. */
  lemma ChildLeaves(v: Value, segment: string)
    requires Child(v, segment).Some?
    ensures forall t | t in StringLeaves(Child(v, segment).value) :: t in StringLeaves(v)
  {
    match v
    case Obj(props) =>
      LookupFound(props, segment);
      var i :| 0 <= i < |props| && props[i] == Prop(segment, Child(v, segment).value);
      PropLeavesContain(props, i);
    case Arr(items) =>
      ItemLeavesContain(items, ParseIndex(segment).value);
  }

  /** Following the segments one by one, a missing step yields undefined. */
  function ResolveSegments(v: Value, segments: seq<string>): (r: Option<Value>)
    ensures r.Some? ==> forall t | t in StringLeaves(r.value) :: t in StringLeaves(v)
    decreases |segments|
  {
    if segments == [] then Some(v)
    else
      var next :- Child(v, segments[0]);
      ChildLeaves(v, segments[0]);
      ResolveSegments(next, segments[1..])
  }

  /** `objectPath.get(record, path)`: the empty path yields the record
      itself, any other path is split on dots and followed step by step; a
      missing step yields undefined and never fails. Whatever a path finds
      is part of the record: its string leaves are the record's. */
  function Resolve(record: seq<Prop>, path: string): (r: Option<Value>)
    ensures r.Some? ==> forall t | t in StringLeaves(r.value) :: t in PropLeaves(record)
  {
    if path == "" then Some(Obj(record)) else ResolveSegments(Obj(record), Split(path, '.'))
  }

  /** A path of dot-free segments resolves segment by segment. */
  lemma ResolveJoin(record: seq<Prop>, segments: seq<string>)
    requires |segments| >= 1 && segments[0] != ""
    requires forall i | 0 <= i < |segments| :: '.' !in segments[i]
    ensures Resolve(record, Join(segments, '.')) == ResolveSegments(Obj(record), segments)
  {
    SplitJoin(segments, '.');
    assert Join(segments, '.') != "" by {
      if |segments| > 1 {
        assert Join(segments, '.') == segments[0] + ['.'] + Join(segments[1..], '.');
      }
    }
  }

  /** A field name without a dot is an ordinary top-level property lookup. */
  lemma ResolveTopLevel(record: seq<Prop>, key: string)
    requires key != "" && '.' !in key
    ensures Resolve(record, key) == Lookup(record, key)
  {
    ResolveJoin(record, [key]);
    assert Join([key], '.') == key;
  }

  /** `fields.reduce((match, field) => match === true ? true : test(field), false)`. */
  function FieldsReduce(record: seq<Prop>, fields: seq<string>, str: string, sm: Settings): bool
    decreases |fields|
  {
    if fields == [] then false
    else
      var acc := FieldsReduce(record, fields[..|fields| - 1], str, sm);
      if acc then true else ValueMatches(Resolve(record, fields[|fields| - 1]), str, sm)
  }

  /** The reduce is true exactly when some listed path resolves to a
      matching string. */
  lemma {:induction false} FieldsReduceIff(record: seq<Prop>, fields: seq<string>, str: string, sm: Settings)
    ensures FieldsReduce(record, fields, str, sm)
        <==> exists i | 0 <= i < |fields| :: ValueMatches(Resolve(record, fields[i]), str, sm)
    decreases |fields|
  {
    if fields != [] {
      var init := fields[..|fields| - 1];
      FieldsReduceIff(record, init, str, sm);
      if exists i | 0 <= i < |fields| :: ValueMatches(Resolve(record, fields[i]), str, sm) {
        var i :| 0 <= i < |fields| && ValueMatches(Resolve(record, fields[i]), str, sm);
        if i < |fields| - 1 {
          assert init[i] == fields[i];
        }
      }
      if FieldsReduce(record, init, str, sm) {
        var i :| 0 <= i < |init| && ValueMatches(Resolve(record, init[i]), str, sm);
        assert fields[i] == init[i];
      }
    }
  }

  /** `deepReduce(v, (match, value) => match || test(value), false)`: a
      string leaf at any depth, under any key, can match. */
  function DeepMatches(v: Value, str: string, sm: Settings): bool {
    match v
    case Str(t) => TextMatches(str, sm, t)
    case Arr(items) => DeepMatchesItems(items, str, sm)
    case Obj(props) => DeepMatchesProps(props, str, sm)
    case _ => false
  }

  function DeepMatchesItems(items: seq<Value>, str: string, sm: Settings): bool {
    items != [] && (DeepMatches(items[0], str, sm) || DeepMatchesItems(items[1..], str, sm))
  }

  function DeepMatchesProps(props: seq<Prop>, str: string, sm: Settings): bool {
    props != [] && (DeepMatches(props[0].value, str, sm) || DeepMatchesProps(props[1..], str, sm))
  }

  /** Every string leaf of a value, at any depth, in enumeration order. */
  function StringLeaves(v: Value): seq<string> {
    match v
    case Str(t) => [t]
    case Arr(items) => ItemLeaves(items)
    case Obj(props) => PropLeaves(props)
    case _ => []
  }

  function ItemLeaves(items: seq<Value>): seq<string> {
    if items == [] then [] else StringLeaves(items[0]) + ItemLeaves(items[1..])
  }

  function PropLeaves(props: seq<Prop>): seq<string> {
    if props == [] then [] else StringLeaves(props[0].value) + PropLeaves(props[1..])
  }

  lemma {:induction false} ItemLeavesContain(items: seq<Value>, i: nat)
    requires i < |items|
    ensures forall t | t in StringLeaves(items[i]) :: t in ItemLeaves(items)
  {
    if i > 0 {
      ItemLeavesContain(items[1..], i - 1);
      assert items[1..][i - 1] == items[i];
    }
  }

  lemma {:induction false} PropLeavesContain(props: seq<Prop>, i: nat)
    requires i < |props|
    ensures forall t | t in StringLeaves(props[i].value) :: t in PropLeaves(props)
  {
    if i > 0 {
      PropLeavesContain(props[1..], i - 1);
      assert props[1..][i - 1] == props[i];
    }
  }

  predicate SomeLeafMatches(leaves: seq<string>, str: string, sm: Settings) {
    exists i | 0 <= i < |leaves| :: TextMatches(str, sm, leaves[i])
  }

  lemma SomeLeafMatchesAppend(a: seq<string>, b: seq<string>, str: string, sm: Settings)
    ensures SomeLeafMatches(a + b, str, sm) <==> SomeLeafMatches(a, str, sm) || SomeLeafMatches(b, str, sm)
  {
    if SomeLeafMatches(a + b, str, sm) {
      var i :| 0 <= i < |a + b| && TextMatches(str, sm, (a + b)[i]);
      if i >= |a| {
        assert b[i - |a|] == (a + b)[i];
      }
    }
    if SomeLeafMatches(b, str, sm) {
      var i :| 0 <= i < |b| && TextMatches(str, sm, b[i]);
      assert (a + b)[i + |a|] == b[i];
    }
    if SomeLeafMatches(a, str, sm) {
      var i :| 0 <= i < |a| && TextMatches(str, sm, a[i]);
      assert (a + b)[i] == a[i];
    }
  }

  /** Deep mode matches exactly when some string leaf matches. */
  lemma {:induction false} DeepMatchesLeaves(v: Value, str: string, sm: Settings)
    ensures DeepMatches(v, str, sm) <==> SomeLeafMatches(StringLeaves(v), str, sm)
    decreases v, 1
  {
    match v
    case Str(t) =>
      assert StringLeaves(v)[0] == t;
    case Arr(items) => DeepMatchesItemLeaves(items, str, sm);
    case Obj(props) => DeepMatchesPropLeaves(props, str, sm);
    case _ =>
  }

  lemma {:induction false} DeepMatchesItemLeaves(items: seq<Value>, str: string, sm: Settings)
    ensures DeepMatchesItems(items, str, sm) <==> SomeLeafMatches(ItemLeaves(items), str, sm)
    decreases items, 0
  {
    if items != [] {
      DeepMatchesLeaves(items[0], str, sm);
      DeepMatchesItemLeaves(items[1..], str, sm);
      SomeLeafMatchesAppend(StringLeaves(items[0]), ItemLeaves(items[1..]), str, sm);
    }
  }

  lemma {:induction false} DeepMatchesPropLeaves(props: seq<Prop>, str: string, sm: Settings)
    ensures DeepMatchesProps(props, str, sm) <==> SomeLeafMatches(PropLeaves(props), str, sm)
    decreases props, 0
  {
    if props != [] {
      DeepMatchesLeaves(props[0].value, str, sm);
      DeepMatchesPropLeaves(props[1..], str, sm);
      SomeLeafMatchesAppend(StringLeaves(props[0].value), PropLeaves(props[1..]), str, sm);
    }
  }

  /** Deep mode over an object matches exactly when some property's value
      matches deeply; no key is skipped. */
  lemma {:induction false} DeepMatchesPropsIff(props: seq<Prop>, str: string, sm: Settings)
    ensures DeepMatchesProps(props, str, sm)
        <==> exists i | 0 <= i < |props| :: DeepMatches(props[i].value, str, sm)
  {
    if props != [] {
      DeepMatchesPropsIff(props[1..], str, sm);
      if exists i | 0 <= i < |props| :: DeepMatches(props[i].value, str, sm) {
        var i :| 0 <= i < |props| && DeepMatches(props[i].value, str, sm);
        if i > 0 {
          assert props[1..][i - 1] == props[i];
        }
      }
      if DeepMatchesProps(props[1..], str, sm) {
        var i :| 0 <= i < |props[1..]| && DeepMatches(props[1..][i].value, str, sm);
        assert props[i + 1] == props[1..][i];
      }
    }
  }

  /** The shallow `for (let key in this)` loop: skips keys starting with an
      underscore, ignores values that are not strings, returns on the first
      match. */
  function ShallowScan(record: seq<Prop>, str: string, sm: Settings): bool {
    if record == [] then false
    else if StartsWithUnderscore(record[0].key) then ShallowScan(record[1..], str, sm)
    else if record[0].value.Str? && TextMatches(str, sm, record[0].value.s) then true
    else ShallowScan(record[1..], str, sm)
  }

  /** The top-level property `p` is one the shallow scan inspects and it
      holds a matching string. */
  predicate ShallowHit(p: Prop, str: string, sm: Settings) {
    !StartsWithUnderscore(p.key) && p.value.Str? && TextMatches(str, sm, p.value.s)
  }

  /** The shallow scan accepts exactly the records with a matching string in
      a top-level property whose key does not start with an underscore. */
  lemma {:induction false} ShallowScanIff(record: seq<Prop>, str: string, sm: Settings)
    ensures ShallowScan(record, str, sm) <==> exists i | 0 <= i < |record| :: ShallowHit(record[i], str, sm)
  {
    if record != [] {
      ShallowScanIff(record[1..], str, sm);
      if exists i | 0 <= i < |record| :: ShallowHit(record[i], str, sm) {
        var i :| 0 <= i < |record| && ShallowHit(record[i], str, sm);
        if i > 0 {
          assert record[1..][i - 1] == record[i];
        }
      }
      if ShallowScan(record[1..], str, sm) {
        var i :| 0 <= i < |record[1..]| && ShallowHit(record[1..][i], str, sm);
        assert record[i + 1] == record[1..][i];
      }
    }
  }

  /** The function `fuzzySearch(str, sm)` returns, called with `record` as
      `this`. An array `fields` selects the path mode whatever `deep` says.
      Whatever the mode, an accepted record holds a matching string
      somewhere: the path and shallow modes accept only records the deep
      mode accepts. */
  function Evaluate(str: string, sm: Settings, record: seq<Prop>): (r: bool)
    ensures r ==> DeepMatches(Obj(record), str, sm)
  {
    if sm.fields.Some? then
      FieldsReduceDeep(record, sm.fields.value, str, sm);
      FieldsReduce(record, sm.fields.value, str, sm)
    else if sm.deep then DeepMatches(Obj(record), str, sm)
    else
      ShallowScanDeep(record, str, sm);
      ShallowScan(record, str, sm)
  }

  /** A path that resolves to a matching string leads to a matching leaf. */
  lemma FieldsReduceDeep(record: seq<Prop>, fields: seq<string>, str: string, sm: Settings)
    ensures FieldsReduce(record, fields, str, sm) ==> DeepMatches(Obj(record), str, sm)
  {
    FieldsReduceIff(record, fields, str, sm);
    if FieldsReduce(record, fields, str, sm) {
      var i :| 0 <= i < |fields| && ValueMatches(Resolve(record, fields[i]), str, sm);
      var t := Resolve(record, fields[i]).value.s;
      assert t in StringLeaves(Str(t));
      var j :| 0 <= j < |PropLeaves(record)| && PropLeaves(record)[j] == t;
      DeepMatchesLeaves(Obj(record), str, sm);
    }
  }

  /** A top-level string the shallow scan accepts is a leaf deep mode sees. */
  lemma ShallowScanDeep(record: seq<Prop>, str: string, sm: Settings)
    ensures ShallowScan(record, str, sm) ==> DeepMatches(Obj(record), str, sm)
  {
    ShallowScanIff(record, str, sm);
    if ShallowScan(record, str, sm) {
      var i :| 0 <= i < |record| && ShallowHit(record[i], str, sm);
      assert DeepMatches(record[i].value, str, sm);
      DeepMatchesPropsIff(record, str, sm);
    }
  }

  /** Path mode: the record matches exactly when some listed path resolves
      to a string whose normalised form contains the normalised search
      string, ignoring case. Missing paths and non-string values contribute
      nothing, and an empty list matches no record. */
  lemma FieldsMode(str: string, sm: Settings, record: seq<Prop>)
    requires sm.fields.Some?
    ensures Evaluate(str, sm, record) <==>
      exists i | 0 <= i < |sm.fields.value| ::
        var v := Resolve(record, sm.fields.value[i]);
        v.Some? && v.value.Str? && ContainsIgnoringCase(Normalize(v.value.s, sm), Normalize(str, sm))
  {
    var fields := sm.fields.value;
    FieldsReduceIff(record, fields, str, sm);
    forall i | 0 <= i < |fields|
      ensures ValueMatches(Resolve(record, fields[i]), str, sm) <==>
        var v := Resolve(record, fields[i]);
        v.Some? && v.value.Str? && ContainsIgnoringCase(Normalize(v.value.s, sm), Normalize(str, sm))
    {
      var v := Resolve(record, fields[i]);
      if v.Some? && v.value.Str? {
        TextMatchesIff(str, sm, v.value.s);
      }
    }
  }

  /** With an empty path list the predicate rejects every record. */
  lemma EmptyFieldsMatchNothing(str: string, sm: Settings, record: seq<Prop>)
    requires sm.fields == Some([])
    ensures !Evaluate(str, sm, record)
  {
  }

  /** A path that resolves to nothing, or to a non-string, changes nothing
      when added to the list. */
  lemma UnresolvedPathIgnored(str: string, sm: Settings, record: seq<Prop>, path: string)
    requires sm.fields.Some?
    requires !(Resolve(record, path).Some? && Resolve(record, path).value.Str?)
    ensures Evaluate(str, sm.(fields := Some(sm.fields.value + [path])), record) == Evaluate(str, sm, record)
  {
    var fields := sm.fields.value;
    var sm' := sm.(fields := Some(fields + [path]));
    assert (fields + [path])[..|fields|] == fields;
    assert Normalize(str, sm') == Normalize(str, sm);
    assert forall t :: TextMatches(str, sm', t) == TextMatches(str, sm, t);
    FieldsReduceSettings(record, fields, str, sm, sm');
  }

  /** The reduce only reads the normalisation flag of the settings. */
  lemma {:induction false} FieldsReduceSettings(record: seq<Prop>, fields: seq<string>, str: string, sm: Settings, sm': Settings)
    requires sm'.fuzzyDiacritics == sm.fuzzyDiacritics
    ensures FieldsReduce(record, fields, str, sm) == FieldsReduce(record, fields, str, sm')
    decreases |fields|
  {
    if fields != [] {
      FieldsReduceSettings(record, fields[..|fields| - 1], str, sm, sm');
    }
  }

  /** An array `fields` takes precedence over `deep`. */
  lemma FieldsOverrideDeep(str: string, sm: Settings, record: seq<Prop>)
    requires sm.fields.Some?
    ensures Evaluate(str, sm.(deep := true), record) == Evaluate(str, sm.(deep := false), record)
  {
    FieldsReduceSettings(record, sm.fields.value, str, sm.(deep := true), sm.(deep := false));
  }

  /** Deep mode: the record matches exactly when one of its string leaves, at
      any depth and under any key (underscore-prefixed ones included),
      matches. */
  lemma DeepMode(str: string, sm: Settings, record: seq<Prop>)
    requires sm.fields.None? && sm.deep
    ensures Evaluate(str, sm, record) <==>
      exists i | 0 <= i < |PropLeaves(record)| ::
        ContainsIgnoringCase(Normalize(PropLeaves(record)[i], sm), Normalize(str, sm))
  {
    DeepMatchesLeaves(Obj(record), str, sm);
    var leaves := PropLeaves(record);
    forall i | 0 <= i < |leaves|
      ensures TextMatches(str, sm, leaves[i]) <==> ContainsIgnoringCase(Normalize(leaves[i], sm), Normalize(str, sm))
    {
      TextMatchesIff(str, sm, leaves[i]);
    }
  }

  /** Shallow mode: the record matches exactly when a top-level property
      whose key does not start with an underscore holds a matching string. */
  lemma ShallowMode(str: string, sm: Settings, record: seq<Prop>)
    requires sm.fields.None? && !sm.deep
    ensures Evaluate(str, sm, record) <==>
      exists i | 0 <= i < |record| ::
        && !StartsWithUnderscore(record[i].key)
        && record[i].value.Str?
        && ContainsIgnoringCase(Normalize(record[i].value.s, sm), Normalize(str, sm))
  {
    ShallowScanIff(record, str, sm);
    forall i | 0 <= i < |record| && record[i].value.Str?
      ensures TextMatches(str, sm, record[i].value.s)
          <==> ContainsIgnoringCase(Normalize(record[i].value.s, sm), Normalize(str, sm))
    {
      TextMatchesIff(str, sm, record[i].value.s);
    }
  }

  /** Every record the shallow mode accepts, the deep mode accepts too. */
  lemma ShallowImpliesDeep(str: string, sm: Settings, record: seq<Prop>)
    requires sm.fields.None?
    requires Evaluate(str, sm.(deep := false), record)
    ensures Evaluate(str, sm.(deep := true), record)
  {
    var shallow := sm.(deep := false);
    var deep := sm.(deep := true);
    ShallowScanIff(record, str, shallow);
    var i :| 0 <= i < |record| && ShallowHit(record[i], str, shallow);
    assert TextMatches(str, deep, record[i].value.s) == TextMatches(str, shallow, record[i].value.s);
    assert DeepMatches(record[i].value, str, deep);
    DeepMatchesPropsIff(record, str, deep);
  }

  /** An empty search string matches every string, so it accepts every
      record in which any inspected value is a string. */
  lemma EmptySearchMatchesEveryString(sm: Settings, text: string)
    ensures TextMatches("", sm, text)
  {
    TextMatchesIff("", sm, text);
  }
}
