/** What the rewriter of lib/transformSearchFieldsInQuery.js guarantees
    about a whole query: it is the identity on queries without `$search`,
    every clause it accepts sits on a permitted key, it never looks under
    `$text`, and it only ever tests the immediate key of a clause. */
module TransformFacts {
  import opened Wrappers
  import opened Values
  import opened Options
  import opened Hooks
  import opened Transform

  /** No `$search` property anywhere, except under `$text`, which the walk
      never enters. */
  predicate SearchFree(v: Value)
    decreases v
  {
    match v
    case Arr(items) => forall i | 0 <= i < |items| :: SearchFree(items[i])
    case Obj(props) => forall i | 0 <= i < |props| :: SearchFreeProp(props[i])
    case _ => true
  }

  predicate SearchFreeProp(p: Prop)
    decreases p
  {
    p.key != "$search" && (p.key != "$text" ==> SearchFree(p.value))
  }

  lemma SearchFreeHasNoClause(v: Value)
    requires SearchFree(v)
    ensures !HasSearch(v)
  {
    if v.Obj? {
      forall i | 0 <= i < |v.props| ensures Keys(v.props)[i] != "$search" {
        assert SearchFreeProp(v.props[i]);
      }
    }
  }

  /** A query without `$search` comes back exactly as it went in, whatever
      the field lists say: nothing is rejected and nothing is rewritten. */
  lemma {:induction false} IdentityValue(v: Value, sm: Settings, key: Key)
    requires sm.HasFieldLists()
    requires SearchFree(v)
    ensures TransformValue(v, sm, key) == Success(v)
    decreases Depth(v), 2
  {
    match v
    case Arr(items) =>
      IdentityItems(items, sm, 0, Depth(v));
      assert items[0..] == items;
    case Obj(props) =>
      forall k | k in Keys(props) ensures k != "$search" {
        var i :| 0 <= i < |props| && Keys(props)[i] == k;
        assert SearchFreeProp(props[i]);
      }
      IdentityProps(props, Keys(props), sm, Some(key), Depth(v));
      MaxPropDepthBelow(props, Depth(v));
    case _ =>
  }

  /** Descending into an object without `$search` accepts it unchanged,
      under any key and whatever the lists say. */
  lemma DescendSearchFree(v: Value, sm: Settings, key: Key, d: nat)
    requires sm.HasFieldLists()
    requires IsObject(v) && Depth(v) < d
    requires SearchFree(v)
    ensures Descend(v, sm, key, d) == Success(v)
    decreases Depth(v), 3
  {
    SearchFreeHasNoClause(v);
    IdentityValue(v, sm, key);
  }

  lemma {:induction false} IdentityItems(items: seq<Value>, sm: Settings, from: nat, d: nat)
    requires sm.HasFieldLists()
    requires from <= |items|
    requires forall i | 0 <= i < |items| :: Depth(items[i]) < d
    requires forall i | 0 <= i < |items| :: SearchFree(items[i])
    ensures TransformItems(items, sm, from, d) == Success(items[from..])
    decreases d, 1, |items| - from
  {
    if from < |items| {
      var item := items[from];
      if IsObject(item) {
        DescendSearchFree(item, sm, Index(from), d);
      }
      IdentityItems(items, sm, from + 1, d);
      assert [items[from]] + items[from + 1..] == items[from..];
    }
  }

  lemma {:induction false} IdentityProps(state: seq<Prop>, keys: seq<string>, sm: Settings, fieldName: Option<Key>, d: nat)
    requires sm.HasFieldLists()
    requires d > 0 && DepthBelow(state, d)
    requires forall i | 0 <= i < |state| :: SearchFreeProp(state[i])
    requires forall k | k in keys :: k != "$search"
    ensures TransformProps(state, keys, sm, fieldName, d) == Success(state)
    decreases d, 1, |keys|
  {
    if keys != [] {
      var k := keys[0];
      if k != "$text" {
        var cur := Lookup(state, k);
        if cur.Some? && IsObject(cur.value) {
          LookupFound(state, k);
          var i :| 0 <= i < |state| && state[i] == Prop(k, cur.value);
          assert SearchFreeProp(state[i]);
          assert Depth(cur.value) < d;
          DescendSearchFree(cur.value, sm, Name(k), d);
          SetExisting(state, k);
        }
      }
      assert k in keys;
      assert VisitKey(state, k, sm, fieldName, d) == Success(state);
      assert forall j | j in keys[1..] :: j in keys;
      IdentityProps(state, keys[1..], sm, fieldName, d);
    }
  }

  /** `transformSearchFieldsInQuery` on a query without `$search`. */
  lemma IdentityQuery(query: seq<Prop>, sm: Settings)
    requires sm.HasFieldLists()
    requires SearchFree(Obj(query))
    ensures TransformQuery(query, sm) == Success(query)
  {
    var d := Depth(Obj(query));
    MaxPropDepthBelow(query, d);
    forall k | k in Keys(query) ensures k != "$search" {
      var i :| 0 <= i < |query| && Keys(query)[i] == k;
      assert SearchFreeProp(query[i]);
    }
    IdentityProps(query, Keys(query), sm, None, d);
  }

  /** The key a clause rewrite installs: `$regex` under a truthy field
      name, `$where` otherwise. */
  function RewriteTarget(fieldName: Option<Key>): string {
    if FieldNameTruthy(fieldName) then "$regex" else "$where"
  }

  /** The property at position `i` is replaced before its own callback runs:
      an earlier property is a `$search` whose value is not an object, whose
      rewrite deletes `$caseSensitive` and overwrites the rewrite target. */
  predicate Overwritten(props: seq<Prop>, i: int, fieldName: Option<Key>)
    requires 0 <= i < |props|
  {
    && (props[i].key == "$caseSensitive" || props[i].key == RewriteTarget(fieldName))
    && exists j | 0 <= j < i :: props[j].key == "$search" && !IsObject(props[j].value)
  }

  /** The walk enters the property at position `i` with its original value:
      it is not `$text` and no earlier clause rewrite has replaced it. */
  predicate Reached(props: seq<Prop>, i: int, fieldName: Option<Key>)
    requires 0 <= i < |props|
  {
    props[i].key != "$text" && !Overwritten(props, i, fieldName)
  }

  /** Every object the walk enters that holds a `$search` clause sits under
      a permitted key: an array element under its index, a property under
      its name. `fieldName` is the key the value itself was reached under. */
  predicate ClausesPermitted(v: Value, sm: Settings, fieldName: Option<Key>)
    requires sm.HasFieldLists()
    decreases v
  {
    match v
    case Arr(items) =>
      forall i | 0 <= i < |items| ::
        && (HasSearch(items[i]) ==> Permitted(Index(i), sm))
        && ClausesPermitted(items[i], sm, Some(Index(i)))
    case Obj(props) =>
      forall i | 0 <= i < |props| :: Reached(props, i, fieldName) ==> PropPermitted(props[i], sm)
    case _ => true
  }

  predicate PropPermitted(p: Prop, sm: Settings)
    requires sm.HasFieldLists()
    decreases p
  {
    && (HasSearch(p.value) ==> Permitted(Name(p.key), sm))
    && ClausesPermitted(p.value, sm, Some(Name(p.key)))
  }

  /** An accepted descent under `key`: a clause right there is on a
      permitted key, and so is every clause the walk reaches inside. */
  lemma DescendSound(v: Value, sm: Settings, key: Key, d: nat)
    requires sm.HasFieldLists()
    requires IsObject(v) && Depth(v) < d && WellFormed(v)
    requires Descend(v, sm, key, d).Success?
    ensures HasSearch(v) ==> Permitted(key, sm)
    ensures ClausesPermitted(v, sm, Some(key))
    decreases Depth(v), 3
  {
    SoundValue(v, sm, key);
  }

  /** An accepted value has all the clauses the walk reaches on permitted
      keys. */
  lemma {:induction false} SoundValue(v: Value, sm: Settings, key: Key)
    requires sm.HasFieldLists()
    requires WellFormed(v)
    requires TransformValue(v, sm, key).Success?
    ensures ClausesPermitted(v, sm, Some(key))
    decreases Depth(v), 2
  {
    match v
    case Arr(items) =>
      SoundItems(items, sm, 0, Depth(v));
    case Obj(props) =>
      MaxPropDepthBelow(props, Depth(v));
      forall m | 0 <= m < |props| ensures Lookup(props, props[m].key) == Some(props[m].value) {
        LookupUnique(props, m);
      }
      assert Keys(props)[0..] == Keys(props);
      SoundProps(props, props, 0, sm, Some(key), Depth(v));
    case _ =>
  }

  lemma {:induction false} SoundItems(items: seq<Value>, sm: Settings, from: nat, d: nat)
    requires sm.HasFieldLists()
    requires from <= |items|
    requires forall i | 0 <= i < |items| :: Depth(items[i]) < d
    requires forall i | 0 <= i < |items| :: WellFormed(items[i])
    requires TransformItems(items, sm, from, d).Success?
    ensures forall i | from <= i < |items| ::
      && (HasSearch(items[i]) ==> Permitted(Index(i), sm))
      && ClausesPermitted(items[i], sm, Some(Index(i)))
    decreases d, 1, |items| - from
  {
    if from < |items| {
      var item := items[from];
      if IsObject(item) {
        DescendSound(item, sm, Index(from), d);
      }
      SoundItems(items, sm, from + 1, d);
    }
  }

  /** One callback of the walk over `orig` changes no property that a later
      callback still has to visit with its original value: the callback for
      `$search` only deletes `$caseSensitive` and overwrites the rewrite
      target, and those are exactly the properties `Overwritten` exempts. */
  lemma VisitFrame(orig: seq<Prop>, state: seq<Prop>, n: nat, m: nat, sm: Settings, fieldName: Option<Key>, d: nat)
    requires sm.HasFieldLists()
    requires d > 0 && DepthBelow(state, d)
    requires UniqueKeys(orig) && n < m < |orig|
    requires !Overwritten(orig, n, fieldName) ==> Lookup(state, orig[n].key) == Some(orig[n].value)
    requires !Overwritten(orig, m, fieldName)
    requires VisitKey(state, orig[n].key, sm, fieldName, d).Success?
    ensures Lookup(VisitKey(state, orig[n].key, sm, fieldName, d).value, orig[m].key) == Lookup(state, orig[m].key)
  {
    var k, j := orig[n].key, orig[m].key;
    assert j != k;
    if k == "$search" && IsClauseKey(j) {
      OperatorKeysDistinct();
      if !(Lookup(state, k).Some? && IsObject(Lookup(state, k).value)) {
        assert !Overwritten(orig, n, fieldName);
        assert orig[n].key == "$search" && !IsObject(orig[n].value) && n < m;
        assert (j == "$caseSensitive" || j == RewriteTarget(fieldName)) ==> Overwritten(orig, m, fieldName);
      }
    }
  }

  /** The fold over the snapshot of the keys of `orig`, from position `n`:
      every property still to be visited that has not been overwritten
      holds its original value in the live object, and every such property
      the walk reaches has its clauses on permitted keys. */
  lemma {:induction false} SoundProps(orig: seq<Prop>, state: seq<Prop>, n: nat, sm: Settings, fieldName: Option<Key>, d: nat)
    requires sm.HasFieldLists()
    requires d > 0 && DepthBelow(state, d)
    requires WellFormed(Obj(orig)) && n <= |orig|
    requires forall m | n <= m < |orig| && !Overwritten(orig, m, fieldName) ::
      Lookup(state, orig[m].key) == Some(orig[m].value)
    requires TransformProps(state, Keys(orig)[n..], sm, fieldName, d).Success?
    ensures forall m | n <= m < |orig| && Reached(orig, m, fieldName) :: PropPermitted(orig[m], sm)
    decreases d, 1, |orig| - n
  {
    if n < |orig| {
      var keys := Keys(orig)[n..];
      var k := orig[n].key;
      assert keys[0] == k && keys[1..] == Keys(orig)[n + 1..];
      var step := VisitKey(state, k, sm, fieldName, d);
      if Reached(orig, n, fieldName) && IsObject(orig[n].value) {
        assert Lookup(state, k) == Some(orig[n].value);
        assert WellFormed(orig[n].value);
        DescendSound(orig[n].value, sm, Name(k), d);
      }
      forall m | n + 1 <= m < |orig| && !Overwritten(orig, m, fieldName)
        ensures Lookup(step.value, orig[m].key) == Some(orig[m].value)
      {
        VisitFrame(orig, state, n, m, sm, fieldName, d);
      }
      SoundProps(orig, step.value, n + 1, sm, fieldName, d);
    }
  }

  /** A query the rewriter accepts has every `$search` clause the walk
      reaches on a key the field lists permit; equivalently, a clause on a
      forbidden key anywhere the walk reaches makes the whole rewrite
      fail. The only clauses it does not reach are those under `$text` and
      those a sibling clause rewrite deletes or overwrites first. */
  lemma TransformSound(query: seq<Prop>, sm: Settings)
    requires sm.HasFieldLists()
    requires WellFormed(Obj(query))
    requires TransformQuery(query, sm).Success?
    ensures ClausesPermitted(Obj(query), sm, None)
  {
    var d := Depth(Obj(query));
    forall m | 0 <= m < |query| ensures Lookup(query, query[m].key) == Some(query[m].value) {
      LookupUnique(query, m);
    }
    assert Keys(query)[0..] == Keys(query);
    SoundProps(query, query, 0, sm, None, d);
  }
}
