/** The earlier hook and predicate of the package's root index.js. The
    hook only looks at `find` calls and never at `hook.id`; the predicate
    matches the escaped search string case-insensitively without any
    diacritic folding, looks fields up as top-level keys only, and calls
    `.match` on whatever it inspects, so a value that is not a string is an
    error rather than a non-match. */
module Legacy {
  import opened Wrappers
  import opened Text
  import opened RegexEscape
  import opened Values
  import opened Hooks

  /** `this[key].match(r)` with `r = new RegExp(escape(str), 'i')` built once
      by `fuzzySearch(str, fields)`: a string answers the test of that
      escaped, case-insensitive pattern; any other value has no `match`
      method. */
  function MatchValue(key: string, v: Value, str: string): (r: Result<bool, Failure>)
    ensures r.Success? <==> v.Str?
    ensures r.Failure? ==> r.error == MatchOnNonString(key)
    ensures r.Success? ==> LiteralTest(Escape(str), true, v.s) == Some(r.value)
  {
    if v.Str? then
      EscapedPatternIsLiteral(str, true, v.s);
      Success(ContainsIgnoringCase(v.s, str))
    else Failure(MatchOnNonString(key))
  }

  /** The `for (let key of fields)` loop: keys the record does not have are
      skipped, the first match returns `true`. */
  function ScanFields(record: seq<Prop>, fields: seq<string>, str: string): Result<bool, Failure>
  {
    if fields == [] then Success(false)
    else
      var key := fields[0];
      match Lookup(record, key)
      case None => ScanFields(record, fields[1..], str)
      case Some(v) =>
        var hit :- MatchValue(key, v, str);
        if hit then Success(true) else ScanFields(record, fields[1..], str)
  }

  /** The `for (let key in this)` loop over the record's own properties,
      skipping keys that start with an underscore. */
  function ScanAll(record: seq<Prop>, str: string): Result<bool, Failure>
  {
    if record == [] then Success(false)
    else if StartsWithUnderscore(record[0].key) then ScanAll(record[1..], str)
    else
      var hit :- MatchValue(record[0].key, record[0].value, str);
      if hit then Success(true) else ScanAll(record[1..], str)
  }

  /** The function `fuzzySearch(str, fields)` of index.js returns, called
      with `record` as `this`. A `fields` array, even an empty one, selects
      the field loop. Either loop accepts a record only when one of its own
      properties holds a string containing the search string, ignoring case,
      and throws only on an own property whose value is not a string. */
  function LegacyEvaluate(str: string, fields: Option<seq<string>>, record: seq<Prop>): (r: Result<bool, Failure>)
    ensures r == Success(true) ==> HoldsMatch(record, str)
    ensures r.Failure? ==> exists i | 0 <= i < |record| ::
      r.error == MatchOnNonString(record[i].key) && !record[i].value.Str?
  {
    if fields.Some? then
      ScanFieldsOutcome(record, fields.value, str);
      ScanFields(record, fields.value, str)
    else
      ScanAllOutcome(record, str);
      ScanAll(record, str)
  }

  /** Some own property holds a string containing `str`, ignoring case. */
  predicate HoldsMatch(record: seq<Prop>, str: string) {
    exists i | 0 <= i < |record| :: record[i].value.Str? && ContainsIgnoringCase(record[i].value.s, str)
  }

  lemma {:induction false} ScanFieldsOutcome(record: seq<Prop>, fields: seq<string>, str: string)
    ensures ScanFields(record, fields, str) == Success(true) ==> HoldsMatch(record, str)
    ensures ScanFields(record, fields, str).Failure? ==> exists i | 0 <= i < |record| ::
      ScanFields(record, fields, str).error == MatchOnNonString(record[i].key) && !record[i].value.Str?
    decreases |fields|
  {
    if fields != [] {
      var key := fields[0];
      LookupFound(record, key);
      ScanFieldsOutcome(record, fields[1..], str);
      if Lookup(record, key).Some? {
        var v := Lookup(record, key).value;
        var i :| 0 <= i < |record| && record[i] == Prop(key, v);
      }
    }
  }

  lemma {:induction false} ScanAllOutcome(record: seq<Prop>, str: string)
    ensures ScanAll(record, str) == Success(true) ==> HoldsMatch(record, str)
    ensures ScanAll(record, str).Failure? ==> exists i | 0 <= i < |record| ::
      ScanAll(record, str).error == MatchOnNonString(record[i].key) && !record[i].value.Str?
    decreases |record|
  {
    if record != [] {
      ScanAllOutcome(record[1..], str);
      if ScanAll(record[1..], str) == Success(true) {
        var i :| 0 <= i < |record[1..]| && record[1..][i].value.Str? && ContainsIgnoringCase(record[1..][i].value.s, str);
        assert record[i + 1] == record[1..][i];
      }
      if ScanAll(record[1..], str).Failure? {
        var i :| 0 <= i < |record[1..]| &&
          ScanAll(record[1..], str).error == MatchOnNonString(record[1..][i].key) && !record[1..][i].value.Str?;
        assert record[i + 1] == record[1..][i];
      }
    }
  }

  /** The field loop inspects the values of the listed keys the record has. */
  predicate FieldInspectsStrings(record: seq<Prop>, fields: seq<string>) {
    forall i | 0 <= i < |fields| :: Lookup(record, fields[i]).Some? ==> Lookup(record, fields[i]).value.Str?
  }

  /** A listed key holds a string containing the search string. */
  predicate FieldHit(record: seq<Prop>, key: string, str: string) {
    Lookup(record, key).Some? && Lookup(record, key).value.Str? && ContainsIgnoringCase(Lookup(record, key).value.s, str)
  }

  /** When every inspected value is a string, the field loop accepts exactly
      the records in which some listed top-level key holds a string
      containing the search string, ignoring case. A dotted key is a plain
      property name here. */
  lemma {:induction false} ScanFieldsIff(record: seq<Prop>, fields: seq<string>, str: string)
    requires FieldInspectsStrings(record, fields)
    ensures ScanFields(record, fields, str)
         == Success(exists i | 0 <= i < |fields| :: FieldHit(record, fields[i], str))
  {
    if fields != [] {
      assert FieldInspectsStrings(record, fields[1..]) by {
        forall i | 0 <= i < |fields[1..]| ensures Lookup(record, fields[1..][i]).Some? ==> Lookup(record, fields[1..][i]).value.Str? {
          assert fields[1..][i] == fields[i + 1];
        }
      }
      ScanFieldsIff(record, fields[1..], str);
      LookupFound(record, fields[0]);
      if exists i | 0 <= i < |fields| :: FieldHit(record, fields[i], str) {
        var i :| 0 <= i < |fields| && FieldHit(record, fields[i], str);
        if i > 0 {
          assert fields[1..][i - 1] == fields[i];
        }
      }
      if exists i | 0 <= i < |fields[1..]| :: FieldHit(record, fields[1..][i], str) {
        var i :| 0 <= i < |fields[1..]| && FieldHit(record, fields[1..][i], str);
        assert fields[i + 1] == fields[1..][i];
      }
    }
  }

  /** A listed key whose value is not a string makes the predicate throw
      when the loop reaches it before any match. */
  lemma {:induction false} ScanFieldsError(record: seq<Prop>, fields: seq<string>, str: string)
    requires fields != [] && Lookup(record, fields[0]).Some? && !Lookup(record, fields[0]).value.Str?
    ensures ScanFields(record, fields, str) == Failure(MatchOnNonString(fields[0]))
  {
    LookupFound(record, fields[0]);
  }

  /** The all-keys loop inspects the values of keys that do not start with
      an underscore. */
  predicate AllInspectsStrings(record: seq<Prop>) {
    forall i | 0 <= i < |record| :: !StartsWithUnderscore(record[i].key) ==> record[i].value.Str?
  }

  predicate AllHit(p: Prop, str: string) {
    !StartsWithUnderscore(p.key) && p.value.Str? && ContainsIgnoringCase(p.value.s, str)
  }

  /** When every inspected value is a string, the all-keys loop accepts
      exactly the records with a top-level property, its key not starting
      with an underscore, whose string contains the search string. */
  lemma {:induction false} ScanAllIff(record: seq<Prop>, str: string)
    requires AllInspectsStrings(record)
    ensures ScanAll(record, str) == Success(exists i | 0 <= i < |record| :: AllHit(record[i], str))
  {
    if record != [] {
      assert AllInspectsStrings(record[1..]) by {
        forall i | 0 <= i < |record[1..]| ensures !StartsWithUnderscore(record[1..][i].key) ==> record[1..][i].value.Str? {
          assert record[1..][i] == record[i + 1];
        }
      }
      ScanAllIff(record[1..], str);
      if exists i | 0 <= i < |record| :: AllHit(record[i], str) {
        var i :| 0 <= i < |record| && AllHit(record[i], str);
        if i > 0 {
          assert record[1..][i - 1] == record[i];
        }
      }
      if exists i | 0 <= i < |record[1..]| :: AllHit(record[1..][i], str) {
        var i :| 0 <= i < |record[1..]| && AllHit(record[1..][i], str);
        assert record[i + 1] == record[1..][i];
      }
    }
  }

  /** The first inspected non-string before any match is an error, where the
      newer predicate would skip it. */
  lemma {:induction false} ScanAllError(record: seq<Prop>, str: string)
    requires record != [] && !StartsWithUnderscore(record[0].key) && !record[0].value.Str?
    ensures ScanAll(record, str) == Failure(MatchOnNonString(record[0].key))
  {
  }

  /** The activation condition: a `find` call whose query has a truthy
      `$search`. Unlike the newer hook, `hook.id` is not consulted. */
  predicate Active(hook: Hook) {
    hook.methodName == "find" && hook.query.Some? && TruthyAt(hook.query.value, "$search")
  }

  /** `$where` installed under one key, then `$search` deleted. */
  function InstallThenDelete(q: seq<Prop>, w: string, s: string, v: Value): (r: seq<Prop>)
    requires w != s
    ensures Lookup(r, w) == Some(v) && Lookup(r, s) == None
    ensures forall j | j != w && j != s :: Lookup(r, j) == Lookup(q, j)
  {
    Delete(Set(q, w, v), s)
  }

  /** The hook of index.js for the option `fields`: on activation it
      installs the legacy predicate under `$where` and deletes `$search`;
      escaping a search value that is not a string throws. */
  function LegacyHook(fields: Option<seq<string>>, hook: Hook): (r: Result<Hook, Failure>)
    ensures !Active(hook) ==> r == Success(hook)
    ensures Active(hook) ==> (r.Success? <==> Lookup(hook.query.value, "$search").value.Str?)
    ensures r.Success? ==> r.value.methodName == hook.methodName && r.value.id == hook.id
    ensures r.Success? ==> r.value.query.Some? == hook.query.Some?
    ensures Active(hook) && r.Success? ==>
      var q := hook.query.value;
      var q' := r.value.query.value;
      && Lookup(q', "$where") == Some(LegacyWhere(Lookup(q, "$search").value.s, fields))
      && Lookup(q', "$search") == None
      && (forall j | j != "$where" && j != "$search" :: Lookup(q', j) == Lookup(q, j))
  {
    if !Active(hook) then Success(hook)
    else
      var q := hook.query.value;
      match Lookup(q, "$search")
      case Some(Str(s)) =>
        OperatorKeysDistinct();
        Success(hook.(query := Some(InstallThenDelete(q, "$where", "$search", LegacyWhere(s, fields)))))
      case _ => Failure(ExpectedString)
  }

  /** A second application changes nothing. */
  lemma LegacyIdempotent(fields: Option<seq<string>>, hook: Hook)
    requires LegacyHook(fields, hook).Success?
    ensures LegacyHook(fields, LegacyHook(fields, hook).value) == LegacyHook(fields, hook)
  {
  }
}
