/** The field-targeted rewriter `transformSearchFieldsInQuery(query, options,
    fieldName)` of lib/transformSearchFieldsInQuery.js.

    The library walks the query with `feathers-commons`' `each`, mutating each
    object in place while it iterates over the snapshot of its keys. The model
    is the same walk made functional: an object is rewritten by a left fold
    over the snapshot `Keys(props)`, each step reading the live object and
    returning its next version, so that a property deleted or installed by an
    earlier step is seen by a later one exactly as in the library. A thrown
    exception is a `Failure`; the partially mutated query the caller would
    hold after a throw is not represented. */
module Transform {
  import opened Wrappers
  import opened Text
  import opened RegexEscape
  import opened Values
  import opened Options
  import opened Hooks

  /** The truthiness of the `fieldName` argument: absent at the root, and
      falsy for the empty name and for array index 0. */
  predicate FieldNameTruthy(fieldName: Option<Key>) {
    match fieldName
    case None => false
    case Some(Name(n)) => n != ""
    case Some(Index(i)) => i != 0
  }

  /** `list.includes(fieldName)` with strict equality: a numeric index or an
      absent name is never in a list of strings. */
  predicate Includes(list: seq<string>, fieldName: Option<Key>) {
    fieldName.Some? && fieldName.value.Name? && fieldName.value.name in list
  }

  /** The permission test on the key that holds a `$search` clause: the key
      must be listed when `fields` is non-empty, and must not be listed in
      `excludeFields`. Only the immediate key is checked, never a dotted path. */
  predicate Permitted(key: Key, sm: Settings)
    requires sm.HasFieldLists()
  {
    var fields := sm.fields.value;
    var excluded := sm.excludeFields.value;
    !((|fields| > 0 && !Includes(fields, Some(key))) || Includes(excluded, Some(key)))
  }

  /** `value.hasOwnProperty('$search')` for an object-typed value. */
  predicate HasSearch(v: Value) {
    v.Obj? && HasKey(v.props, "$search")
  }

  /** The keys the clause rewrite reads or writes. */
  predicate IsClauseKey(k: string) {
    k == "$search" || k == "$caseSensitive" || k == "$regex" || k == "$where"
  }

  /** `String(value)` as `new RegExp(value)` reads an unescaped search value.
      Arrays, objects and regular expressions never get here, since the walk
      descends into them instead; the only other values are the functions
      an earlier rewrite installed (`Where`, `LegacyWhere`), whose source
      text JavaScript would use and which are reported as `ExpectedString`
      here. */
  function Coerce(v: Option<Value>): Result<string, Failure> {
    match v
    case None => Success("(?:)")
    case Some(Str(s)) => Success(s)
    case Some(Num(n)) => Success(IntToDecimal(n))
    case Some(Bool(b)) => Success(if b then "true" else "false")
    case Some(Null) => Success("null")
    case Some(_) => Failure(ExpectedString)
  }

  /** The source text of the installed regular expression: the escaped search
      string, or the search value itself for a field listed in
      `fieldsNotEscaped`. */
  function PatternSource(v: Option<Value>, escaped: bool): (r: Result<string, Failure>)
    ensures escaped ==> (r.Success? <==> v.Some? && v.value.Str?)
    ensures escaped && r.Success? ==> Unescape(r.value) == Some(v.value.s)
    ensures !escaped && v.Some? && v.value.Str? ==> r == Success(v.value.s)
  {
    if escaped then
      match v
      case Some(Str(s)) => UnescapeEscape(s); Success(Escape(s))
      case _ => Failure(ExpectedString)
    else Coerce(v)
  }

  /** Install `v` under `target`, then delete `search` and `cs`. */
  function Replace(obj: seq<Prop>, search: string, cs: string, target: string, v: Value): (r: seq<Prop>)
    requires search != cs && search != target && cs != target
    ensures Lookup(r, target) == Some(v)
    ensures Lookup(r, search) == None && Lookup(r, cs) == None
    ensures forall j :: j != search && j != cs && j != target ==> Lookup(r, j) == Lookup(obj, j)
    ensures forall i | 0 <= i < |r| :: r[i] in obj || r[i] == Prop(target, v)
  {
    Delete(Delete(Set(obj, target, v), search), cs)
  }

  /** The `key === '$search'` branch: install `$regex` under a truthy field
      name and `$where` otherwise, then delete `$search` and
      `$caseSensitive`. */
  function RewriteClause(obj: seq<Prop>, sm: Settings, fieldName: Option<Key>): (r: Result<seq<Prop>, Failure>)
    ensures r.Success? ==> Lookup(r.value, "$search") == None && Lookup(r.value, "$caseSensitive") == None
    ensures r.Success? ==> forall i | 0 <= i < |r.value| ::
      r.value[i] in obj || r.value[i].value.Regex? || r.value[i].value.Where?
    ensures FieldNameTruthy(fieldName) ==>
      var src := PatternSource(Lookup(obj, "$search"), !Includes(sm.fieldsNotEscaped, fieldName));
      && (r.Success? <==> src.Success?)
      && (r.Success? ==> Lookup(r.value, "$regex") == Some(Regex(src.value, !TruthyAt(obj, "$caseSensitive"))))
      && (r.Success? ==> forall j :: j != "$regex" && j != "$search" && j != "$caseSensitive" ==> Lookup(r.value, j) == Lookup(obj, j))
    ensures !FieldNameTruthy(fieldName) ==>
      && (r.Success? <==> Lookup(obj, "$search").Some? && Lookup(obj, "$search").value.Str?)
      && (r.Success? ==> Lookup(r.value, "$where") == Some(Where(Lookup(obj, "$search").value.s, sm)))
      && (r.Success? ==> forall j :: j != "$where" && j != "$search" && j != "$caseSensitive" ==> Lookup(r.value, j) == Lookup(obj, j))
  {
    OperatorKeysDistinct();
    var search := Lookup(obj, "$search");
    if FieldNameTruthy(fieldName) then
      match PatternSource(search, !Includes(sm.fieldsNotEscaped, fieldName))
      case Success(source) =>
        Success(Replace(obj, "$search", "$caseSensitive", "$regex", Regex(source, !TruthyAt(obj, "$caseSensitive"))))
      case Failure(e) => Failure(e)
    else
      match search
      case Some(Str(s)) => Success(Replace(obj, "$search", "$caseSensitive", "$where", Where(s, sm)))
      case _ => Failure(ExpectedString)
  }

  /** `transformSearchFieldsInQuery(v, options, key)` on a value the walk
      descends into: arrays element by element, objects key by key, and a
      regular expression (an object without enumerable keys) unchanged. */
  function TransformValue(v: Value, sm: Settings, key: Key): (r: Result<Value, Failure>)
    requires sm.HasFieldLists()
    ensures r.Success? ==> Depth(r.value) <= Depth(v)
    ensures r.Success? ==> (v.Arr? <==> r.value.Arr?) && (v.Obj? <==> r.value.Obj?)
    ensures r.Success? && !v.Arr? && !v.Obj? ==> r.value == v
    decreases Depth(v), 2, 0
  {
    match v
    case Arr(items) =>
      var items' :- TransformItems(items, sm, 0, Depth(v));
      MaxDepthBelow(items', Depth(v));
      Success(Arr(items'))
    case Obj(props) =>
      var props' :- TransformProps(props, Keys(props), sm, Some(key), Depth(v));
      MaxPropDepthBelow(props', Depth(v));
      Success(Obj(props'))
    case _ => Success(v)
  }

  /** The `value && typeof value === 'object'` branch for the value under
      `key`: a clause on a key that is not permitted is rejected before
      anything under it is visited; otherwise the walk recurses with `key` as
      the new field name. What an accepted descent means is stated by
      `TransformFacts.DescendSound` and `TransformFacts.DescendSearchFree`. */
  function Descend(v: Value, sm: Settings, key: Key, d: nat): (r: Result<Value, Failure>)
    requires sm.HasFieldLists()
    requires IsObject(v) && Depth(v) < d
    ensures HasSearch(v) && !Permitted(key, sm) ==> r == Failure(BadRequest(key))
    ensures !(HasSearch(v) && !Permitted(key, sm)) ==> r == TransformValue(v, sm, key)
    ensures r.Success? ==> Depth(r.value) <= Depth(v) && IsObject(r.value)
    decreases d, 0, 0
  {
    if HasSearch(v) && !Permitted(key, sm) then Failure(BadRequest(key))
    else TransformValue(v, sm, key)
  }

  /** `each` over an array: every object element is visited with its index as
      the key; other elements are left alone. The first failure wins. */
  function TransformItems(items: seq<Value>, sm: Settings, from: nat, d: nat): (r: Result<seq<Value>, Failure>)
    requires sm.HasFieldLists()
    requires from <= |items|
    requires forall i | 0 <= i < |items| :: Depth(items[i]) < d
    ensures r.Success? ==> |r.value| == |items| - from
    ensures r.Success? ==> forall i | 0 <= i < |r.value| :: Depth(r.value[i]) < d
    decreases d, 1, |items| - from
  {
    if from == |items| then Success([])
    else
      var item := items[from];
      var head :- if IsObject(item) then Descend(item, sm, Index(from), d) else Success(item);
      var tail :- TransformItems(items, sm, from + 1, d);
      Success([head] + tail)
  }

  predicate DepthBelow(props: seq<Prop>, d: nat) {
    forall i | 0 <= i < |props| :: Depth(props[i].value) < d
  }

  /** The callback of `each` for the key `k` whose value is an object: the
      value is rewritten, or the call fails, and the result is written back
      under `k`. */
  function VisitObject(state: seq<Prop>, k: string, sm: Settings, d: nat): (r: Result<seq<Prop>, Failure>)
    requires sm.HasFieldLists()
    requires d > 0 && DepthBelow(state, d)
    requires Lookup(state, k).Some? && IsObject(Lookup(state, k).value)
    ensures Depth(Lookup(state, k).value) < d
    ensures r.Success? <==> Descend(Lookup(state, k).value, sm, Name(k), d).Success?
    ensures r.Success? ==> r.value == Set(state, k, Descend(Lookup(state, k).value, sm, Name(k), d).value)
    ensures r.Failure? ==> r.error == Descend(Lookup(state, k).value, sm, Name(k), d).error
    ensures r.Success? ==> DepthBelow(r.value, d)
    decreases d, 0, 1
  {
    LookupFound(state, k);
    var v' :- Descend(Lookup(state, k).value, sm, Name(k), d);
    Success(Set(state, k, v'))
  }

  /** The callback of `each` for the key `k` of an object, given the object
      as earlier callbacks left it. */
  function VisitKey(state: seq<Prop>, k: string, sm: Settings, fieldName: Option<Key>, d: nat): (r: Result<seq<Prop>, Failure>)
    requires sm.HasFieldLists()
    requires d > 0 && DepthBelow(state, d)
    ensures r.Success? ==> DepthBelow(r.value, d)
    ensures r.Success? && k != "$search" ==> forall j :: j != k ==> Lookup(r.value, j) == Lookup(state, j)
    ensures r.Success? ==> forall j :: j != k && !IsClauseKey(j) ==> Lookup(r.value, j) == Lookup(state, j)
    ensures k == "$text" ==> r == Success(state)
    ensures k != "$text" && Lookup(state, k).Some? && IsObject(Lookup(state, k).value) ==>
      r == VisitObject(state, k, sm, d)
    ensures k == "$search" && !(Lookup(state, k).Some? && IsObject(Lookup(state, k).value)) ==>
      r == RewriteClause(state, sm, fieldName)
    ensures k != "$search" && !(Lookup(state, k).Some? && IsObject(Lookup(state, k).value)) ==>
      r == Success(state)
    decreases d, 0, 2
  {
    if k == "$text" then Success(state)
    else if Lookup(state, k).Some? && IsObject(Lookup(state, k).value) then VisitObject(state, k, sm, d)
    else if k == "$search" then RewriteClause(state, sm, fieldName)
    else Success(state)
  }

  /** `each` over an object: the callbacks for the snapshot `keys`, in order,
      each seeing the object the previous ones produced. */
  function TransformProps(state: seq<Prop>, keys: seq<string>, sm: Settings, fieldName: Option<Key>, d: nat): (r: Result<seq<Prop>, Failure>)
    requires sm.HasFieldLists()
    requires d > 0 && DepthBelow(state, d)
    ensures r.Success? ==> DepthBelow(r.value, d)
    decreases d, 1, |keys|
  {
    if keys == [] then Success(state)
    else
      var next :- VisitKey(state, keys[0], sm, fieldName, d);
      TransformProps(next, keys[1..], sm, fieldName, d)
  }

  /** The fold keeps `$text` as it was, and never adds or removes a key
      other than the four clause keys: every other key is only ever
      overwritten in place. */
  lemma {:induction false} PropsKeepKeys(state: seq<Prop>, keys: seq<string>, sm: Settings, fieldName: Option<Key>, d: nat)
    requires sm.HasFieldLists()
    requires d > 0 && DepthBelow(state, d)
    ensures var r := TransformProps(state, keys, sm, fieldName, d);
      r.Success? ==>
        && Lookup(r.value, "$text") == Lookup(state, "$text")
        && forall j :: !IsClauseKey(j) ==> (Lookup(r.value, j).Some? <==> Lookup(state, j).Some?)
    decreases |keys|
  {
    if keys != [] {
      var step := VisitKey(state, keys[0], sm, fieldName, d);
      if step.Success? {
        VisitKeepsKeys(state, keys[0], sm, fieldName, d);
        PropsKeepKeys(step.value, keys[1..], sm, fieldName, d);
      }
    }
  }

  /** One callback of the fold: `$text` and the presence of every key that
      is not a clause key survive it. */
  lemma VisitKeepsKeys(state: seq<Prop>, k: string, sm: Settings, fieldName: Option<Key>, d: nat)
    requires sm.HasFieldLists()
    requires d > 0 && DepthBelow(state, d)
    ensures var r := VisitKey(state, k, sm, fieldName, d);
      r.Success? ==>
        && Lookup(r.value, "$text") == Lookup(state, "$text")
        && forall j :: !IsClauseKey(j) ==> (Lookup(r.value, j).Some? <==> Lookup(state, j).Some?)
  {
    OperatorKeysDistinct();
    assert !IsClauseKey("$text");
  }

  /** `transformSearchFieldsInQuery(query, sm)`: the walk from the root,
      where the field name is absent. An accepted query keeps its `$text`
      and every key that is not a clause key: the rewrite only replaces
      values and swaps clause keys. */
  function TransformQuery(query: seq<Prop>, sm: Settings): (r: Result<seq<Prop>, Failure>)
    requires sm.HasFieldLists()
    ensures r.Success? ==> Lookup(r.value, "$text") == Lookup(query, "$text")
    ensures r.Success? ==> forall j :: !IsClauseKey(j) ==> (Lookup(r.value, j).Some? <==> Lookup(query, j).Some?)
  {
    PropsKeepKeys(query, Keys(query), sm, None, Depth(Obj(query)));
    TransformProps(query, Keys(query), sm, None, Depth(Obj(query)))
  }
}
