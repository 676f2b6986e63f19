/** The rewriter of lib/transformSearchFieldsInQuery.js on the query shapes
    the package documents, including the ones where its behaviour is easy
    to misread: only the immediate key of a clause is checked, and inside an
    array the element index plays the part of the field name. */
module TransformScenarios {
  import opened Wrappers
  import opened Values
  import opened Options
  import opened Hooks
  import opened RegexEscape
  import opened Transform
  import TransformFacts

  // Small steps, stated for arbitrary keys so that the solver never has to
  // compare string literals while unfolding.

  lemma ReplaceOnly(a: string, b: string, t: string, x: Value, v: Value)
    requires a != b && a != t && b != t
    ensures Replace([Prop(a, x)], a, b, t, v) == [Prop(t, v)]
  {
    assert Set([Prop(a, x)], t, v) == [Prop(a, x), Prop(t, v)];
    assert Delete([Prop(a, x), Prop(t, v)], a) == [Prop(t, v)];
  }

  lemma ReplacePair(a: string, b: string, t: string, x: Value, y: Value, v: Value)
    requires a != b && a != t && b != t
    ensures Replace([Prop(a, x), Prop(b, y)], a, b, t, v) == [Prop(t, v)]
  {
    assert Set([Prop(b, y)], t, v) == [Prop(b, y), Prop(t, v)];
    assert Set([Prop(a, x), Prop(b, y)], t, v) == [Prop(a, x), Prop(b, y), Prop(t, v)];
    assert Delete([Prop(a, x), Prop(b, y), Prop(t, v)], a) == [Prop(b, y), Prop(t, v)];
    assert Delete([Prop(b, y), Prop(t, v)], b) == [Prop(t, v)];
  }

  lemma DepthOfOne(a: string, x: Value)
    ensures Depth(Obj([Prop(a, x)])) == 1 + Depth(x)
  {
    assert MaxPropDepth([Prop(a, x)]) == Depth(x);
  }

  lemma DepthOfTwo(a: string, x: Value, b: string, y: Value)
    requires Depth(x) == 0 && Depth(y) == 0
    ensures Depth(Obj([Prop(a, x), Prop(b, y)])) == 1
  {
    assert [Prop(a, x), Prop(b, y)][1..] == [Prop(b, y)];
    assert MaxPropDepth([Prop(b, y)]) == 0;
  }

  lemma KeysTwo(a: string, x: Value, b: string, y: Value)
    ensures Keys([Prop(a, x), Prop(b, y)]) == [a, b]
  {
    assert [Prop(a, x), Prop(b, y)][1..] == [Prop(b, y)];
  }

  lemma FoldOne(state: seq<Prop>, k: string, sm: Settings, fieldName: Option<Key>, d: nat)
    requires sm.HasFieldLists()
    requires d > 0 && DepthBelow(state, d)
    ensures TransformProps(state, [k], sm, fieldName, d) == VisitKey(state, k, sm, fieldName, d)
  {
    var r := VisitKey(state, k, sm, fieldName, d);
    if r.Success? {
      assert TransformProps(r.value, [], sm, fieldName, d) == Success(r.value);
    }
  }

  lemma FoldTwo(state: seq<Prop>, k: string, l: string, sm: Settings, fieldName: Option<Key>, d: nat)
    requires sm.HasFieldLists()
    requires d > 0 && DepthBelow(state, d)
    ensures
      var r := VisitKey(state, k, sm, fieldName, d);
      TransformProps(state, [k, l], sm, fieldName, d)
        == if r.Success? then TransformProps(r.value, [l], sm, fieldName, d) else Failure(r.error)
  {
    assert [k, l][1..] == [l];
  }

  lemma VisitClause(state: seq<Prop>, sm: Settings, fieldName: Option<Key>, d: nat)
    requires sm.HasFieldLists()
    requires d > 0 && DepthBelow(state, d)
    requires Lookup(state, "$search").Some? && !IsObject(Lookup(state, "$search").value)
    ensures VisitKey(state, "$search", sm, fieldName, d) == RewriteClause(state, sm, fieldName)
  {
  }

  /** The walk through an object with a single property whose value is an
      object: the result is that of descending into it. */
  lemma OneObjectProp(k: string, u: Value, sm: Settings, fieldName: Option<Key>)
    requires sm.HasFieldLists()
    requires k != "$text" && IsObject(u)
    ensures
      var q := [Prop(k, u)];
      var d := 1 + Depth(u);
      var r := Descend(u, sm, Name(k), d);
      && Depth(Obj(q)) == d
      && TransformProps(q, Keys(q), sm, fieldName, d)
           == if r.Success? then Success([Prop(k, r.value)]) else Failure(r.error)
  {
    var q := [Prop(k, u)];
    var d := 1 + Depth(u);
    DepthOfOne(k, u);
    assert Keys(q) == [k];
    assert Lookup(q, k) == Some(u);
    FoldOne(q, k, sm, fieldName, d);
    var r := Descend(u, sm, Name(k), d);
    if r.Success? {
      assert Set(q, k, r.value) == [Prop(k, r.value)];
    }
  }

  lemma SearchOnlyRegex(s: string, sm: Settings, fieldName: Option<Key>)
    requires FieldNameTruthy(fieldName)
    ensures
      var source := if Includes(sm.fieldsNotEscaped, fieldName) then s else Escape(s);
      RewriteClause([Prop("$search", Str(s))], sm, fieldName) == Success([Prop("$regex", Regex(source, true))])
  {
    var inner := [Prop("$search", Str(s))];
    var source := if Includes(sm.fieldsNotEscaped, fieldName) then s else Escape(s);
    OperatorKeysDistinct();
    assert Lookup(inner, "$search") == Some(Str(s));
    assert Lookup(inner, "$caseSensitive") == None;
    assert PatternSource(Some(Str(s)), !Includes(sm.fieldsNotEscaped, fieldName)) == Success(source);
    ReplaceOnly("$search", "$caseSensitive", "$regex", Str(s), Regex(source, true));
  }

  lemma SearchOnlyWhere(s: string, sm: Settings, fieldName: Option<Key>)
    requires !FieldNameTruthy(fieldName)
    ensures RewriteClause([Prop("$search", Str(s))], sm, fieldName) == Success([Prop("$where", Where(s, sm))])
  {
    var inner := [Prop("$search", Str(s))];
    OperatorKeysDistinct();
    assert Lookup(inner, "$search") == Some(Str(s));
    ReplaceOnly("$search", "$caseSensitive", "$where", Str(s), Where(s, sm));
  }

  /** The clause object `{$search: s}`: under a truthy field name it becomes
      `{$regex}`, escaped unless the field is listed in `fieldsNotEscaped`;
      under a falsy one it becomes `{$where}`. */
  lemma SearchOnly(s: string, sm: Settings, fieldName: Option<Key>)
    requires sm.HasFieldLists()
    ensures
      var inner := [Prop("$search", Str(s))];
      var source := if Includes(sm.fieldsNotEscaped, fieldName) then s else Escape(s);
      var out := if FieldNameTruthy(fieldName) then [Prop("$regex", Regex(source, true))]
                 else [Prop("$where", Where(s, sm))];
      && Depth(Obj(inner)) == 1
      && TransformProps(inner, Keys(inner), sm, fieldName, 1) == Success(out)
  {
    var inner := [Prop("$search", Str(s))];
    if FieldNameTruthy(fieldName) {
      SearchOnlyRegex(s, sm, fieldName);
    } else {
      SearchOnlyWhere(s, sm, fieldName);
    }
    DepthOfOne("$search", Str(s));
    assert Keys(inner) == ["$search"];
    assert Lookup(inner, "$search") == Some(Str(s));
    VisitClause(inner, sm, fieldName, 1);
    FoldOne(inner, "$search", sm, fieldName, 1);
  }

  /** A clause at the root installs the fuzzy predicate, whatever the field
      lists are: the root has no key to test. */
  lemma RootClause(s: string, sm: Settings)
    requires sm.HasFieldLists()
    ensures TransformQuery([Prop("$search", Str(s))], sm) == Success([Prop("$where", Where(s, sm))])
  {
    SearchOnly(s, sm, None);
  }

  /** A clause on a permitted field becomes a case-insensitive `$regex` of
      the escaped search string. */
  lemma FieldClause(k: string, s: string, sm: Settings)
    requires sm.HasFieldLists()
    requires k != "" && k != "$text"
    requires Permitted(Name(k), sm) && k !in sm.fieldsNotEscaped
    ensures TransformQuery([Prop(k, Obj([Prop("$search", Str(s))]))], sm)
         == Success([Prop(k, Obj([Prop("$regex", Regex(Escape(s), true))]))])
  {
    SearchOnly(s, sm, Some(Name(k)));
    OneObjectProp(k, Obj([Prop("$search", Str(s))]), sm, None);
  }

  /** A field listed in `fieldsNotEscaped` gets the search string itself as
      the pattern. */
  lemma UnescapedClause(k: string, s: string, sm: Settings)
    requires sm.HasFieldLists()
    requires k != "" && k != "$text"
    requires Permitted(Name(k), sm) && k in sm.fieldsNotEscaped
    ensures TransformQuery([Prop(k, Obj([Prop("$search", Str(s))]))], sm)
         == Success([Prop(k, Obj([Prop("$regex", Regex(s, true))]))])
  {
    SearchOnly(s, sm, Some(Name(k)));
    OneObjectProp(k, Obj([Prop("$search", Str(s))]), sm, None);
  }

  lemma CaseSensitiveRewrite(s: string, sm: Settings, fieldName: Option<Key>)
    requires FieldNameTruthy(fieldName) && !Includes(sm.fieldsNotEscaped, fieldName)
    ensures RewriteClause([Prop("$search", Str(s)), Prop("$caseSensitive", Bool(true))], sm, fieldName)
         == Success([Prop("$regex", Regex(Escape(s), false))])
  {
    var inner := [Prop("$search", Str(s)), Prop("$caseSensitive", Bool(true))];
    OperatorKeysDistinct();
    assert Lookup(inner, "$search") == Some(Str(s));
    assert TruthyAt(inner, "$caseSensitive");
    ReplacePair("$search", "$caseSensitive", "$regex", Str(s), Bool(true), Regex(Escape(s), false));
  }

  lemma VisitAbsent(state: seq<Prop>, k: string, sm: Settings, fieldName: Option<Key>, d: nat)
    requires sm.HasFieldLists()
    requires d > 0 && DepthBelow(state, d)
    requires k != "$search" && Lookup(state, k) == None
    ensures TransformProps(state, [k], sm, fieldName, d) == Success(state)
  {
    FoldOne(state, k, sm, fieldName, d);
  }

  lemma CaseSensitiveFirstStep(s: string, sm: Settings, fieldName: Option<Key>)
    requires sm.HasFieldLists()
    requires FieldNameTruthy(fieldName) && !Includes(sm.fieldsNotEscaped, fieldName)
    ensures
      var inner := [Prop("$search", Str(s)), Prop("$caseSensitive", Bool(true))];
      && DepthBelow(inner, 1)
      && VisitKey(inner, "$search", sm, fieldName, 1) == Success([Prop("$regex", Regex(Escape(s), false))])
  {
    var inner := [Prop("$search", Str(s)), Prop("$caseSensitive", Bool(true))];
    ClauseStep(inner, Str(s), sm, fieldName);
    CaseSensitiveRewrite(s, sm, fieldName);
  }

  /** The step for `$search` in a two-property clause of flat values is the
      clause rewrite. */
  lemma ClauseStep(inner: seq<Prop>, x: Value, sm: Settings, fieldName: Option<Key>)
    requires sm.HasFieldLists()
    requires |inner| == 2 && inner[0] == Prop("$search", x) && !IsObject(x)
    requires Depth(x) == 0 && Depth(inner[1].value) == 0
    ensures DepthBelow(inner, 1)
    ensures VisitKey(inner, "$search", sm, fieldName, 1) == RewriteClause(inner, sm, fieldName)
  {
    assert DepthBelow(inner, 1);
    assert Lookup(inner, "$search") == Some(x);
    VisitClause(inner, sm, fieldName, 1);
  }

  lemma CaseSensitiveSecondStep(s: string, sm: Settings, fieldName: Option<Key>)
    requires sm.HasFieldLists()
    ensures
      var out := [Prop("$regex", Regex(Escape(s), false))];
      TransformProps(out, ["$caseSensitive"], sm, fieldName, 1) == Success(out)
  {
    var out := [Prop("$regex", Regex(Escape(s), false))];
    OperatorKeysDistinct();
    assert Lookup(out, "$caseSensitive") == None;
    VisitAbsent(out, "$caseSensitive", sm, fieldName, 1);
  }

  lemma CaseSensitiveFold(s: string, sm: Settings, fieldName: Option<Key>)
    requires sm.HasFieldLists()
    requires FieldNameTruthy(fieldName) && !Includes(sm.fieldsNotEscaped, fieldName)
    ensures
      var inner := [Prop("$search", Str(s)), Prop("$caseSensitive", Bool(true))];
      && Depth(Obj(inner)) == 1
      && TransformProps(inner, Keys(inner), sm, fieldName, 1)
           == Success([Prop("$regex", Regex(Escape(s), false))])
  {
    var inner := [Prop("$search", Str(s)), Prop("$caseSensitive", Bool(true))];
    DepthOfTwo("$search", Str(s), "$caseSensitive", Bool(true));
    CaseSensitiveFirstStep(s, sm, fieldName);
    CaseSensitiveSecondStep(s, sm, fieldName);
    KeysTwo("$search", Str(s), "$caseSensitive", Bool(true));
    FoldTwo(inner, "$search", "$caseSensitive", sm, fieldName, 1);
  }

  /** `$caseSensitive: true` next to the clause makes the expression case
      sensitive, and is removed with the clause; the later step for the
      `$caseSensitive` key then finds nothing to do. */
  lemma CaseSensitiveClause(k: string, s: string, sm: Settings)
    requires sm.HasFieldLists()
    requires k != "" && k != "$text"
    requires Permitted(Name(k), sm) && k !in sm.fieldsNotEscaped
    ensures TransformQuery([Prop(k, Obj([Prop("$search", Str(s)), Prop("$caseSensitive", Bool(true))]))], sm)
         == Success([Prop(k, Obj([Prop("$regex", Regex(Escape(s), false))]))])
  {
    CaseSensitiveFold(s, sm, Some(Name(k)));
    OneObjectProp(k, Obj([Prop("$search", Str(s)), Prop("$caseSensitive", Bool(true))]), sm, None);
  }

  /** A clause on a field the lists forbid is rejected with the name of that
      field, before anything inside it is looked at. */
  lemma ForbiddenClause(k: string, body: seq<Prop>, sm: Settings)
    requires sm.HasFieldLists()
    requires k != "$text"
    requires HasSearch(Obj(body)) && !Permitted(Name(k), sm)
    ensures TransformQuery([Prop(k, Obj(body))], sm) == Failure(BadRequest(Name(k)))
  {
    OneObjectProp(k, Obj(body), sm, None);
  }

  /** Only the key that immediately holds the clause is checked: a dotted
      entry in `fields` never permits a nested clause, which is rejected
      under its last segment even though its full path is listed. */
  lemma DottedFieldRejectsNestedClause(s: string)
    ensures
      var sm := Settings(true, Some(["a.b"]), Some([]), false, false, []);
      TransformQuery([Prop("a", Obj([Prop("b", Obj([Prop("$search", Str(s))]))]))], sm)
        == Failure(BadRequest(Name("b")))
  {
    var sm := Settings(true, Some(["a.b"]), Some([]), false, false, []);
    var clause := Obj([Prop("$search", Str(s))]);
    var inner := [Prop("b", clause)];
    assert Keys([Prop("$search", Str(s))]) == ["$search"];
    assert HasSearch(clause);
    assert !Permitted(Name("b"), sm);
    OneObjectProp("b", clause, sm, Some(Name("a")));
    assert Keys(inner) == ["b"];
    assert !HasSearch(Obj(inner));
    OneObjectProp("a", Obj(inner), sm, None);
  }

  /** The other half: the same entry permits a top-level key that is
      literally named `a.b`. */
  lemma DottedKeyPermitted(s: string)
    ensures
      var sm := Settings(true, Some(["a.b"]), Some([]), false, false, []);
      TransformQuery([Prop("a.b", Obj([Prop("$search", Str(s))]))], sm)
        == Success([Prop("a.b", Obj([Prop("$regex", Regex(Escape(s), true))]))])
  {
    var sm := Settings(true, Some(["a.b"]), Some([]), false, false, []);
    var k := "a.b";
    assert k != "" && k != "$text" by {
      assert k[0] != "$text"[0];
    }
    assert Permitted(Name(k), sm);
    FieldClause(k, s, sm);
  }

  /** A clause under a clause key is an ordinary nested clause: with
      `fields: ['a']`, `{$regex: {$search: s}}` is rejected under the name
      `$regex`, and the permission predicate says so too. */
  lemma ClauseUnderOperatorKey(s: string)
    ensures
      var sm := Settings(true, Some(["a"]), Some([]), false, false, []);
      var q := [Prop("$regex", Obj([Prop("$search", Str(s))]))];
      && TransformQuery(q, sm) == Failure(BadRequest(Name("$regex")))
      && !TransformFacts.ClausesPermitted(Obj(q), sm, None)
  {
    var sm := Settings(true, Some(["a"]), Some([]), false, false, []);
    var body := [Prop("$search", Str(s))];
    var q := [Prop("$regex", Obj(body))];
    OperatorKeysDistinct();
    assert Keys(body) == ["$search"];
    assert HasSearch(Obj(body));
    assert "$regex" != "a" by {
      assert |"$regex"| != |"a"|;
    }
    assert !Permitted(Name("$regex"), sm);
    ForbiddenClause("$regex", body, sm);
    assert TransformFacts.Reached(q, 0, None);
    assert !TransformFacts.PropPermitted(q[0], sm);
  }

  lemma ClauseElement(s: string, sm: Settings, i: nat, d: nat)
    requires sm.HasFieldLists() && d > 1
    requires sm.fields == Some([])
    ensures
      var source := if Includes(sm.fieldsNotEscaped, Some(Index(i))) then s else Escape(s);
      var out := if i != 0 then [Prop("$regex", Regex(source, true))] else [Prop("$where", Where(s, sm))];
      && Depth(Obj([Prop("$search", Str(s))])) == 1
      && Descend(Obj([Prop("$search", Str(s))]), sm, Index(i), d) == Success(Obj(out))
  {
    assert Keys([Prop("$search", Str(s))]) == ["$search"];
    SearchOnly(s, sm, Some(Index(i)));
  }

  lemma ItemsTwo(x: Value, y: Value, sm: Settings, d: nat)
    requires sm.HasFieldLists()
    requires IsObject(x) && IsObject(y) && Depth(x) < d && Depth(y) < d
    requires Descend(x, sm, Index(0), d).Success? && Descend(y, sm, Index(1), d).Success?
    ensures TransformItems([x, y], sm, 0, d)
         == Success([Descend(x, sm, Index(0), d).value, Descend(y, sm, Index(1), d).value])
  {
    var items := [x, y];
    assert items[0] == x && items[1] == y;
    var hx := Descend(x, sm, Index(0), d).value;
    var hy := Descend(y, sm, Index(1), d).value;
    assert TransformItems(items, sm, 2, d) == Success([]);
    assert [hy] + [] == [hy];
    assert TransformItems(items, sm, 1, d) == Success([hy]);
    assert TransformItems(items, sm, 0, d) == Success([hx] + [hy]);
    assert [hx] + [hy] == [hx, hy];
  }

  lemma DepthOfPair(x: Value, y: Value)
    requires Depth(x) == 1 && Depth(y) == 1
    ensures Depth(Arr([x, y])) == 2
  {
    assert [x, y][1..] == [y];
    assert MaxDepth([y]) == 1;
  }

  /** Inside an array the element index is the field name. Under the
      settings `search({excludeFields: ['x']})` installs, a clause object in
      the first element sees the falsy index 0 and installs the fuzzy
      predicate, one in the second element sees the truthy index 1 and
      installs a regular expression. */
  lemma ArrayIndexAsFieldName(s: string, t: string)
    ensures
      var sm := Settings(true, Some([]), Some(["x"]), false, false, []);
      var items := [Obj([Prop("$search", Str(s))]), Obj([Prop("$search", Str(t))])];
      TransformValue(Arr(items), sm, Name("$or")) == Success(Arr([
        Obj([Prop("$where", Where(s, sm))]),
        Obj([Prop("$regex", Regex(Escape(t), true))])]))
  {
    var sm := Settings(true, Some([]), Some(["x"]), false, false, []);
    var x := Obj([Prop("$search", Str(s))]);
    var y := Obj([Prop("$search", Str(t))]);
    ClauseElement(s, sm, 0, 2);
    ClauseElement(t, sm, 1, 2);
    DepthOfPair(x, y);
    ItemsTwo(x, y, sm, 2);
  }
}
