/** JSON-like values: the queries the hooks rewrite and the records the
    installed `$where` predicates inspect. A JavaScript object is an
    association list of properties in enumeration order; the library only ever
    sees objects with distinct keys, which `UniqueKeys` and `WellFormed`
    state where a theorem depends on it. */
module Values {
  import opened Wrappers
  import opened Options

  datatype Value =
    | Str(s: string)
    | Num(n: int)
    | Bool(b: bool)
    | Null
    | Arr(items: seq<Value>)
    | Obj(props: seq<Prop>)
      /** A `RegExp` object, as installed under `$regex`. */
    | Regex(source: string, ignoreCase: bool)
      /** The closure `fuzzySearch(search, settings)` installed under `$where`. */
    | Where(search: string, settings: Settings)
      /** The closure built by the legacy hook's `fuzzySearch(search, fields)`. */
    | LegacyWhere(search: string, fields: Option<seq<string>>)

  datatype Prop = Prop(key: string, value: Value)

  /** JavaScript truthiness. Functions, arrays, objects and regular
      expressions are always truthy. */
  predicate Truthy(v: Value) {
    match v
    case Str(s) => s != ""
    case Num(n) => n != 0
    case Bool(b) => b
    case Null => false
    case _ => true
  }

  /** `value && typeof value === 'object'`. */
  predicate IsObject(v: Value) {
    v.Arr? || v.Obj? || v.Regex?
  }

  function Keys(props: seq<Prop>): (ks: seq<string>)
    ensures |ks| == |props|
    ensures forall i | 0 <= i < |props| :: ks[i] == props[i].key
  {
    if props == [] then [] else [props[0].key] + Keys(props[1..])
  }

  predicate HasKey(props: seq<Prop>, k: string) {
    k in Keys(props)
  }

  predicate UniqueKeys(props: seq<Prop>) {
    forall i, j | 0 <= i < j < |props| :: props[i].key != props[j].key
  }

  /** `obj[k]`: the value of the property named `k`, `None` for undefined. */
  function Lookup(props: seq<Prop>, k: string): (r: Option<Value>)
  {
    if props == [] then None
    else if props[0].key == k then Some(props[0].value)
    else Lookup(props[1..], k)
  }

  /** The operator keys the hooks read and write are distinct strings: they
      already differ in their second character. */
  lemma OperatorKeysDistinct()
    ensures
      && "$search" != "$where"
      && "$search" != "$regex"
      && "$search" != "$caseSensitive"
      && "$search" != "$language"
      && "$search" != "$diacriticSensitive"
      && "$search" != "$text"
    ensures
      && "$where" != "$regex"
      && "$where" != "$caseSensitive"
      && "$where" != "$language"
      && "$where" != "$diacriticSensitive"
      && "$where" != "$text"
    ensures
      && "$regex" != "$caseSensitive"
      && "$regex" != "$language"
      && "$regex" != "$diacriticSensitive"
      && "$regex" != "$text"
    ensures
      && "$caseSensitive" != "$language"
      && "$caseSensitive" != "$diacriticSensitive"
      && "$caseSensitive" != "$text"
    ensures
      && "$language" != "$diacriticSensitive"
      && "$language" != "$text"
    ensures "$diacriticSensitive" != "$text"
  {
    assert "$search"[1] != "$where"[1];
    assert "$search"[1] != "$regex"[1];
    assert "$search"[1] != "$caseSensitive"[1];
    assert "$search"[1] != "$language"[1];
    assert "$search"[1] != "$diacriticSensitive"[1];
    assert "$search"[1] != "$text"[1];
    assert "$where"[1] != "$regex"[1];
    assert "$where"[1] != "$caseSensitive"[1];
    assert "$where"[1] != "$language"[1];
    assert "$where"[1] != "$diacriticSensitive"[1];
    assert "$where"[1] != "$text"[1];
    assert "$regex"[1] != "$caseSensitive"[1];
    assert "$regex"[1] != "$language"[1];
    assert "$regex"[1] != "$diacriticSensitive"[1];
    assert "$regex"[1] != "$text"[1];
    assert "$caseSensitive"[1] != "$language"[1];
    assert "$caseSensitive"[1] != "$diacriticSensitive"[1];
    assert "$caseSensitive"[1] != "$text"[1];
    assert "$language"[1] != "$diacriticSensitive"[1];
    assert "$language"[1] != "$text"[1];
    assert "$diacriticSensitive"[1] != "$text"[1];
  }

  /** The property `k` is present and truthy (`if (obj[k])`). */
  predicate TruthyAt(props: seq<Prop>, k: string) {
    var v := Lookup(props, k);
    v.Some? && Truthy(v.value)
  }

  /** `Lookup` finds a property exactly when one is present, and what it
      finds is one of the properties. */
  lemma {:induction false} LookupFound(props: seq<Prop>, k: string)
    ensures Lookup(props, k).Some? <==> HasKey(props, k)
    ensures Lookup(props, k).Some? ==> Prop(k, Lookup(props, k).value) in props
  {
    if props != [] {
      assert Keys(props) == [props[0].key] + Keys(props[1..]);
      LookupFound(props[1..], k);
    }
  }

  /** `obj[k] = v`: an existing property keeps its position, a new one is
      appended. */
  function Set(props: seq<Prop>, k: string, v: Value): (r: seq<Prop>)
    ensures Lookup(r, k) == Some(v)
    ensures forall j :: j != k ==> Lookup(r, j) == Lookup(props, j)
    ensures forall i | 0 <= i < |r| :: r[i] in props || r[i] == Prop(k, v)
  {
    if props == [] then [Prop(k, v)]
    else if props[0].key == k then [Prop(k, v)] + props[1..]
    else
      var rest := Set(props[1..], k, v);
      assert ([props[0]] + rest)[1..] == rest;
      [props[0]] + rest
  }

  /** Writing back the value an object already holds leaves it as it was. */
  lemma {:induction false} SetExisting(props: seq<Prop>, k: string)
    requires Lookup(props, k).Some?
    ensures Set(props, k, Lookup(props, k).value) == props
  {
    if props[0].key != k {
      SetExisting(props[1..], k);
      assert [props[0]] + props[1..] == props;
    } else {
      assert [props[0]] + props[1..] == props;
    }
  }

  /** `Set` keeps the key order, appending a key only when it is new. */
  lemma {:induction false} SetKeys(props: seq<Prop>, k: string, v: Value)
    ensures k in Keys(props) ==> Keys(Set(props, k, v)) == Keys(props)
    ensures k !in Keys(props) ==> Keys(Set(props, k, v)) == Keys(props) + [k]
  {
    if props != [] {
      assert Keys(props) == [props[0].key] + Keys(props[1..]);
      if props[0].key != k {
        SetKeys(props[1..], k, v);
        assert Set(props, k, v) == [props[0]] + Set(props[1..], k, v);
        assert Keys(Set(props, k, v)) == [props[0].key] + Keys(Set(props[1..], k, v));
      } else {
        assert Keys(Set(props, k, v)) == [k] + Keys(props[1..]);
      }
    }
  }

  /** `Set` keeps the keys distinct. */
  lemma SetUnique(props: seq<Prop>, k: string, v: Value)
    requires UniqueKeys(props)
    ensures UniqueKeys(Set(props, k, v))
  {
    SetKeys(props, k, v);
    var r := Set(props, k, v);
    var ks := Keys(props);
    forall i, j | 0 <= i < j < |r| ensures r[i].key != r[j].key {
      assert r[i].key == Keys(r)[i] && r[j].key == Keys(r)[j];
      if j < |props| {
        assert ks[i] != ks[j];
      } else {
        assert k !in ks;
        assert ks[i] in ks;
      }
    }
  }

  /** `delete obj[k]`. */
  function Delete(props: seq<Prop>, k: string): (r: seq<Prop>)
    ensures Lookup(r, k) == None
    ensures forall j :: j != k ==> Lookup(r, j) == Lookup(props, j)
    ensures !HasKey(props, k) ==> r == props
    ensures forall i | 0 <= i < |r| :: r[i] in props
    ensures UniqueKeys(props) ==> UniqueKeys(r)
  {
    if props == [] then []
    else if props[0].key == k then Delete(props[1..], k)
    else [props[0]] + Delete(props[1..], k)
  }

  /** With distinct keys, `Lookup` finds every property. */
  lemma {:induction false} LookupUnique(props: seq<Prop>, i: nat)
    requires UniqueKeys(props)
    requires i < |props|
    ensures Lookup(props, props[i].key) == Some(props[i].value)
  {
    if i > 0 {
      assert props[0].key != props[i].key;
      assert props[1..][i - 1] == props[i];
      LookupUnique(props[1..], i - 1);
    }
  }

  /** Nesting depth: the measure that makes the rewriter's walk terminate. */
  function Depth(v: Value): nat {
    match v
    case Arr(items) => 1 + MaxDepth(items)
    case Obj(props) => 1 + MaxPropDepth(props)
    case _ => 0
  }

  function MaxDepth(items: seq<Value>): (m: nat)
    ensures forall i | 0 <= i < |items| :: Depth(items[i]) <= m
  {
    if items == [] then 0
    else
      var rest := MaxDepth(items[1..]);
      if Depth(items[0]) > rest then Depth(items[0]) else rest
  }

  function MaxPropDepth(props: seq<Prop>): (m: nat)
    ensures forall i | 0 <= i < |props| :: Depth(props[i].value) <= m
  {
    if props == [] then 0
    else
      var rest := MaxPropDepth(props[1..]);
      if Depth(props[0].value) > rest then Depth(props[0].value) else rest
  }

  lemma {:induction false} MaxDepthBelow(items: seq<Value>, d: nat)
    requires d > 0
    requires forall i | 0 <= i < |items| :: Depth(items[i]) < d
    ensures MaxDepth(items) < d
  {
    if items != [] {
      MaxDepthBelow(items[1..], d);
    }
  }

  lemma {:induction false} MaxPropDepthBelow(props: seq<Prop>, d: nat)
    requires d > 0
    requires forall i | 0 <= i < |props| :: Depth(props[i].value) < d
    ensures MaxPropDepth(props) < d
  {
    if props != [] {
      MaxPropDepthBelow(props[1..], d);
    }
  }

  /** Every object at every depth has distinct keys, as every JavaScript
      object does. */
  predicate WellFormed(v: Value) {
    match v
    case Arr(items) => forall i | 0 <= i < |items| :: WellFormed(items[i])
    case Obj(props) =>
      && UniqueKeys(props)
      && forall i | 0 <= i < |props| :: WellFormed(props[i].value)
    case _ => true
  }
}
