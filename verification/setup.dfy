/** `search(opts)` of lib/index.js: it normalises the options into the
    settings `sm` the other parts read and picks one of two hooks. A
    non-empty allow-list or deny-list selects the field rewriter of
    lib/regexFieldSearch.js, with the other list forced empty; anything else
    selects the full-text hook. */
module Setup {
  import opened Wrappers
  import opened Text
  import opened Values
  import opened Options
  import opened Hooks
  import opened Transform
  import opened FullText
  import opened FuzzySearch
  import TransformFacts
  import TransformScenarios

  /** The argument of `search`: an array of field names, or an options
      object whose absent properties are `None` (or `false` for the two
      flags, which the library only tests for truthiness). */
  datatype SearchArgument =
    | FieldList(list: seq<string>)
    | OptionObject(
        fields: Option<seq<string>>,
        excludeFields: Option<seq<string>>,
        deep: bool,
        fuzzyDiacritics: bool,
        fieldsNotEscaped: Option<seq<string>>,
        escape: Option<bool>)

  /** The hook `search` returns, with the settings it closes over. */
  datatype Installed =
    | FullTextSearch(sm: Settings)
    | RegexFieldSearch(sm: Settings)

  /** `sm.fields` after the array case or `Object.assign`. */
  function RequestedFields(opts: SearchArgument): Option<seq<string>> {
    match opts
    case FieldList(list) => Some(list)
    case OptionObject(fields, _, _, _, _, _) => fields
  }

  /** `sm.excludeFields` after the array case or `Object.assign`. */
  function RequestedExclude(opts: SearchArgument): Option<seq<string>> {
    if opts.OptionObject? then opts.excludeFields else None
  }

  predicate NonEmpty(list: Option<seq<string>>) {
    list.Some? && list.value != []
  }

  /** The settings before the choice of hook: `escape` defaults to true and
      a missing `fieldsNotEscaped` becomes the empty list. */
  function BaseSettings(opts: SearchArgument): Settings {
    match opts
    case FieldList(list) =>
      Settings(true, Some(list), None, false, false, [])
    case OptionObject(fields, excludeFields, deep, fuzzyDiacritics, fieldsNotEscaped, escape) =>
      Settings(escape.GetOr(true), fields, excludeFields, deep, fuzzyDiacritics, fieldsNotEscaped.GetOr([]))
  }

  /** `search(opts)`. The field rewriter is chosen exactly when one of the
      two lists is non-empty; it then sees both lists, at most one of them
      non-empty, and an allow-list takes precedence over a deny-list. The
      full-text hook sees the lists exactly as given. Every other setting
      is carried through. */
  function Search(opts: SearchArgument): (r: Installed)
    ensures r.RegexFieldSearch? <==> NonEmpty(RequestedFields(opts)) || NonEmpty(RequestedExclude(opts))
    ensures r.RegexFieldSearch? ==> r.sm.HasFieldLists()
    ensures r.RegexFieldSearch? ==> r.sm.fields.value == [] || r.sm.excludeFields.value == []
    ensures NonEmpty(RequestedFields(opts)) ==>
      r.sm.fields == RequestedFields(opts) && r.sm.excludeFields == Some([])
    ensures !NonEmpty(RequestedFields(opts)) && NonEmpty(RequestedExclude(opts)) ==>
      r.sm.fields == Some([]) && r.sm.excludeFields == RequestedExclude(opts)
    ensures r.FullTextSearch? ==>
      r.sm.fields == RequestedFields(opts) && r.sm.excludeFields == RequestedExclude(opts)
    ensures opts.FieldList? ==> r.sm.escape && !r.sm.deep && !r.sm.fuzzyDiacritics && r.sm.fieldsNotEscaped == []
    ensures opts.OptionObject? ==>
      && r.sm.escape == opts.escape.GetOr(true)
      && r.sm.deep == opts.deep
      && r.sm.fuzzyDiacritics == opts.fuzzyDiacritics
      && r.sm.fieldsNotEscaped == opts.fieldsNotEscaped.GetOr([])
  {
    var sm := BaseSettings(opts);
    if NonEmpty(sm.fields) then RegexFieldSearch(sm.(excludeFields := Some([])))
    else if NonEmpty(sm.excludeFields) then RegexFieldSearch(sm.(fields := Some([])))
    else FullTextSearch(sm)
  }

  /** The hook of lib/regexFieldSearch.js: the query, when there is one, is
      rewritten in place for every method and whatever the id. A call keeps
      its method and id; a query without `$search` passes unchanged; an
      accepted query had every clause the walk reached on a permitted key,
      and keeps its `$text`. */
  function RegexFieldHook(sm: Settings, hook: Hook): (r: Result<Hook, Failure>)
    requires sm.HasFieldLists()
    ensures r.Success? ==> r.value.methodName == hook.methodName && r.value.id == hook.id
    ensures hook.query.None? ==> r == Success(hook)
    ensures hook.query.Some? && SearchFreeQuery(hook.query.value) ==> r == Success(hook)
    ensures hook.query.Some? && WellFormed(Obj(hook.query.value)) && r.Success? ==>
      TransformFacts.ClausesPermitted(Obj(hook.query.value), sm, None)
    ensures hook.query.Some? && r.Success? ==>
      && r.value.query.Some?
      && Lookup(r.value.query.value, "$text") == Lookup(hook.query.value, "$text")
    ensures hook.query.Some? ==>
      && (r.Success? <==> TransformQuery(hook.query.value, sm).Success?)
      && (r.Success? ==> r.value.query == Some(TransformQuery(hook.query.value, sm).value))
      && (r.Failure? ==> r.error == TransformQuery(hook.query.value, sm).error)
  {
    match hook.query
    case None => Success(hook)
    case Some(q) =>
      QueryFacts(q, sm);
      var q' :- TransformQuery(q, sm);
      Success(hook.(query := Some(q')))
  }

  lemma QueryFacts(q: seq<Prop>, sm: Settings)
    requires sm.HasFieldLists()
    ensures SearchFreeQuery(q) ==> TransformQuery(q, sm) == Success(q)
    ensures WellFormed(Obj(q)) && TransformQuery(q, sm).Success? ==>
      TransformFacts.ClausesPermitted(Obj(q), sm, None)
  {
    if SearchFreeQuery(q) {
      TransformFacts.IdentityQuery(q, sm);
    }
    if WellFormed(Obj(q)) && TransformQuery(q, sm).Success? {
      TransformFacts.TransformSound(q, sm);
    }
  }

  /** Running the installed hook on one call. */
  function Run(inst: Installed, hook: Hook): Result<Hook, Failure>
    requires inst.RegexFieldSearch? ==> inst.sm.HasFieldLists()
  {
    match inst
    case FullTextSearch(sm) => FullTextHook(sm, hook)
    case RegexFieldSearch(sm) => RegexFieldHook(sm, hook)
  }

  /** The field rewriter leaves a query without `$search` alone, whatever
      the lists, and a call without a query too. */
  lemma FieldModeWithoutSearch(opts: SearchArgument, hook: Hook)
    requires Search(opts).RegexFieldSearch?
    requires hook.query.Some? ==> SearchFreeQuery(hook.query.value)
    ensures Run(Search(opts), hook) == Success(hook)
  {
    if hook.query.Some? {
      TransformFacts.IdentityQuery(hook.query.value, Search(opts).sm);
    }
  }

  /** A call the field rewriter accepts had every `$search` clause the walk
      reached on a key the lists permit: with an allow-list only listed
      keys, with a deny-list only unlisted ones. */
  lemma FieldModeSound(opts: SearchArgument, hook: Hook)
    requires Search(opts).RegexFieldSearch?
    requires hook.query.Some? && WellFormed(Obj(hook.query.value))
    requires Run(Search(opts), hook).Success?
    ensures TransformFacts.ClausesPermitted(Obj(hook.query.value), Search(opts).sm, None)
  {
    TransformFacts.TransformSound(hook.query.value, Search(opts).sm);
  }

  predicate SearchFreeQuery(q: seq<Prop>) {
    TransformFacts.SearchFree(Obj(q))
  }

  /** An empty field array, `search([])` or `search({fields: []})`, does not
      select the field rewriter: it installs the full-text hook with an
      empty path list, whose predicate rejects every record. */
  lemma EmptyFieldListMatchesNothing(opts: SearchArgument, str: string, record: seq<Prop>)
    requires RequestedFields(opts) == Some([]) && !NonEmpty(RequestedExclude(opts))
    ensures Search(opts).FullTextSearch?
    ensures !Evaluate(str, Search(opts).sm, record)
  {
    EmptyFieldsMatchNothing(str, Search(opts).sm, record);
  }

  /** With only a deny-list the allow-list is forced empty, so a top-level
      `$search` installs a predicate that rejects every record. */
  lemma DenyListRootSearchMatchesNothing(opts: SearchArgument, s: string, record: seq<Prop>)
    requires !NonEmpty(RequestedFields(opts)) && NonEmpty(RequestedExclude(opts))
    ensures Search(opts).RegexFieldSearch?
    ensures TransformQuery([Prop("$search", Str(s))], Search(opts).sm)
         == Success([Prop("$where", Where(s, Search(opts).sm))])
    ensures !Evaluate(s, Search(opts).sm, record)
  {
    TransformScenarios.RootClause(s, Search(opts).sm);
    EmptyFieldsMatchNothing(s, Search(opts).sm, record);
  }

  /** With an allow-list, a top-level `$search` passes the permission check
      (it is not under any key) and becomes a path-mode predicate over the
      listed paths: a record matches exactly when one of them resolves to a
      string containing the search string, after normalisation and ignoring
      case. */
  lemma AllowListRootSearch(opts: SearchArgument, m: string, id: Value, s: string, record: seq<Prop>)
    requires NonEmpty(RequestedFields(opts))
    ensures Search(opts).RegexFieldSearch?
    ensures var sm := Search(opts).sm;
      Run(Search(opts), Hook(m, id, Some([Prop("$search", Str(s))])))
        == Success(Hook(m, id, Some([Prop("$where", Where(s, sm))])))
    ensures var sm := Search(opts).sm;
      Evaluate(s, sm, record) <==>
        exists i | 0 <= i < |sm.fields.value| ::
          var v := Resolve(record, sm.fields.value[i]);
          v.Some? && v.value.Str? && ContainsIgnoringCase(Normalize(v.value.s, sm), Normalize(s, sm))
  {
    var sm := Search(opts).sm;
    TransformScenarios.RootClause(s, sm);
    FieldsMode(s, sm, record);
  }

  /** The `escape` option is stored but never read: it changes neither the
      choice of hook nor what an installed predicate accepts. */
  lemma EscapeNeverRead(opts: SearchArgument, e: bool, str: string, record: seq<Prop>)
    requires opts.OptionObject?
    ensures Search(opts.(escape := Some(e))).RegexFieldSearch? == Search(opts).RegexFieldSearch?
    ensures Evaluate(str, Search(opts.(escape := Some(e))).sm, record) == Evaluate(str, Search(opts).sm, record)
  {
    var a := Search(opts.(escape := Some(e))).sm;
    var b := Search(opts).sm;
    assert a == b.(escape := e);
    if a.fields.Some? {
      FieldsReduceSettings(record, a.fields.value, str, a, b);
    }
    assert DeepMatches(Obj(record), str, a) == DeepMatches(Obj(record), str, b) by {
      DeepMatchesLeaves(Obj(record), str, a);
      DeepMatchesLeaves(Obj(record), str, b);
      SameNormalisation(StringLeaves(Obj(record)), str, a, b);
    }
    ShallowSame(record, str, a, b);
  }

  lemma SameNormalisation(leaves: seq<string>, str: string, a: Settings, b: Settings)
    requires a.fuzzyDiacritics == b.fuzzyDiacritics
    ensures SomeLeafMatches(leaves, str, a) == SomeLeafMatches(leaves, str, b)
  {
    forall i | 0 <= i < |leaves| ensures TextMatches(str, a, leaves[i]) == TextMatches(str, b, leaves[i]) {
      TextMatchesIff(str, a, leaves[i]);
      TextMatchesIff(str, b, leaves[i]);
    }
  }

  lemma {:induction false} ShallowSame(record: seq<Prop>, str: string, a: Settings, b: Settings)
    requires a.fuzzyDiacritics == b.fuzzyDiacritics
    ensures ShallowScan(record, str, a) == ShallowScan(record, str, b)
  {
    if record != [] {
      if record[0].value.Str? {
        TextMatchesIff(str, a, record[0].value.s);
        TextMatchesIff(str, b, record[0].value.s);
      }
      ShallowSame(record[1..], str, a, b);
    }
  }
}
