/** How the root index.js predicate relates to the newer one of
    lib/fuzzySearch.js: on records whose inspected values are all strings
    they agree as long as diacritic folding is off and no path has a dot;
    they part ways on dotted paths and on values that are not strings. */
module LegacyComparison {
  import opened Wrappers
  import opened Text
  import opened Values
  import opened Options
  import opened FuzzySearch
  import opened Hooks
  import opened Legacy

  /** Without field names the two predicates accept the same records: the
      legacy all-keys loop and the newer shallow scan, both skipping keys
      that start with an underscore. */
  lemma LegacyAgreesShallow(str: string, sm: Settings, record: seq<Prop>)
    requires sm.fields.None? && !sm.deep && !sm.fuzzyDiacritics
    requires AllInspectsStrings(record)
    ensures LegacyEvaluate(str, None, record) == Success(Evaluate(str, sm, record))
  {
    ScanAllIff(record, str);
    ShallowScanIff(record, str, sm);
    forall i | 0 <= i < |record| ensures AllHit(record[i], str) <==> ShallowHit(record[i], str, sm) {
      if record[i].value.Str? {
        TextMatchesIff(str, sm, record[i].value.s);
      }
    }
  }

  /** With a list of dot-free, non-empty field names the two predicates
      accept the same records. */
  lemma LegacyAgreesFields(str: string, sm: Settings, fields: seq<string>, record: seq<Prop>)
    requires !sm.fuzzyDiacritics
    requires forall i | 0 <= i < |fields| :: fields[i] != "" && '.' !in fields[i]
    requires FieldInspectsStrings(record, fields)
    ensures LegacyEvaluate(str, Some(fields), record) == Success(Evaluate(str, sm.(fields := Some(fields)), record))
  {
    var sm' := sm.(fields := Some(fields));
    ScanFieldsIff(record, fields, str);
    FieldsMode(str, sm', record);
    forall i | 0 <= i < |fields| ensures Resolve(record, fields[i]) == Lookup(record, fields[i]) {
      ResolveTopLevel(record, fields[i]);
    }
  }

  /** A dotted field name is a path for the newer predicate and a plain
      property name for the legacy one: the record `{a: {b: t}}` matches a
      search contained in `t` through the path `a.b` only in the newer
      predicate. */
  lemma DottedPathOnlyInCurrent(str: string, sm: Settings, a: string, b: string, t: string)
    requires !sm.fuzzyDiacritics
    requires a != "" && '.' !in a && '.' !in b
    requires ContainsIgnoringCase(t, str)
    ensures var record := [Prop(a, Obj([Prop(b, Str(t))]))];
      && Evaluate(str, sm.(fields := Some([a + ['.'] + b])), record)
      && LegacyEvaluate(str, Some([a + ['.'] + b]), record) == Success(false)
  {
    var record := [Prop(a, Obj([Prop(b, Str(t))]))];
    var path := a + ['.'] + b;
    var sm' := sm.(fields := Some([path]));
    assert Join([a, b], '.') == path;
    ResolveJoin(record, [a, b]);
    var inner := Obj([Prop(b, Str(t))]);
    assert Child(Obj(record), a) == Some(inner);
    assert Child(inner, b) == Some(Str(t));
    assert ResolveSegments(Str(t), []) == Some(Str(t));
    assert ResolveSegments(inner, [b]) == Some(Str(t)) by {
      assert [b][1..] == [];
    }
    assert ResolveSegments(Obj(record), [a, b]) == Some(Str(t)) by {
      assert [a, b][1..] == [b];
    }
    FieldsMode(str, sm', record);
    assert sm'.fields.value[0] == path;
    assert path != a by {
      assert |path| > |a|;
    }
    assert Lookup(record, path) == None;
    assert [path][1..] == [];
    assert ScanFields(record, [path], str) == ScanFields(record, [], str);
  }

  /** A top-level number ahead of any match is skipped by the newer shallow
      scan and makes the legacy predicate throw. */
  lemma NonStringDiverges(str: string, sm: Settings, key: string, n: int, rest: seq<Prop>)
    requires sm.fields.None? && !sm.deep
    requires !StartsWithUnderscore(key)
    ensures LegacyEvaluate(str, None, [Prop(key, Num(n))] + rest) == Failure(MatchOnNonString(key))
    ensures Evaluate(str, sm, [Prop(key, Num(n))] + rest) == Evaluate(str, sm, rest)
  {
    var record := [Prop(key, Num(n))] + rest;
    assert record[1..] == rest;
    ScanAllError(record, str);
  }
}
