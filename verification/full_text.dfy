/** The hook `fullTextSearch(sm)` of lib/fullTextSearch.js, installed when
    neither field list is in use: it turns a top-level `$search` into a
    `$where` predicate and drops the hint keys the datastore does not
    understand. */
module FullText {
  import opened Wrappers
  import opened Values
  import opened Options
  import opened Hooks

  /** `if (query[k]) delete query[k]`. */
  function DropIfTruthy(q: seq<Prop>, k: string): (r: seq<Prop>)
    ensures Lookup(r, k) == if TruthyAt(q, k) then None else Lookup(q, k)
    ensures forall j :: j != k ==> Lookup(r, j) == Lookup(q, j)
  {
    if TruthyAt(q, k) then Delete(q, k) else q
  }

  /** The three conditional deletions, for three distinct keys. */
  function DropAllIfTruthy(q: seq<Prop>, a: string, b: string, c: string): (r: seq<Prop>)
    requires a != b && a != c && b != c
    ensures forall h | h == a || h == b || h == c ::
      Lookup(r, h) == if TruthyAt(q, h) then None else Lookup(q, h)
    ensures forall j | j != a && j != b && j != c :: Lookup(r, j) == Lookup(q, j)
  {
    DropIfTruthy(DropIfTruthy(DropIfTruthy(q, a), b), c)
  }

  /** `delete query.$search` followed by the conditional deletions; the
      property `w` survives them. */
  function StripKeys(q: seq<Prop>, s: string, a: string, b: string, c: string, w: string): (r: seq<Prop>)
    requires s != a && s != b && s != c && a != b && a != c && b != c
    requires w != s && w != a && w != b && w != c
    ensures Lookup(r, s) == None
    ensures Lookup(r, w) == Lookup(q, w)
    ensures forall h | h == a || h == b || h == c ::
      Lookup(r, h) == if TruthyAt(q, h) then None else Lookup(q, h)
    ensures forall j | j != s && j != a && j != b && j != c :: Lookup(r, j) == Lookup(q, j)
  {
    DropAllIfTruthy(Delete(q, s), a, b, c)
  }

  /** The keys MongoDB accepts next to `$search` and the datastore does not. */
  predicate IsHintKey(k: string) {
    k == "$language" || k == "$caseSensitive" || k == "$diacriticSensitive"
  }

  /** The guard: the hook does nothing for a call with an id, without a
      query, or whose `$search` is absent or falsy (the empty string
      included). */
  predicate Active(hook: Hook) {
    !Truthy(hook.id) && hook.query.Some? && TruthyAt(hook.query.value, "$search")
  }

  /** `query.$where = fuzzySearch(query.$search, sm)` for `find`: building
      the predicate escapes the search value, which throws for anything but
      a string. */
  function InstallWhere(q: seq<Prop>, sm: Settings, find: bool): (r: Result<seq<Prop>, Failure>)
    ensures !find ==> r == Success(q)
    ensures find ==> (r.Success? <==> Lookup(q, "$search").Some? && Lookup(q, "$search").value.Str?)
    ensures find && r.Success? ==> Lookup(r.value, "$where") == Some(Where(Lookup(q, "$search").value.s, sm))
    ensures r.Success? ==> forall j | j != "$where" :: Lookup(r.value, j) == Lookup(q, j)
  {
    if !find then Success(q)
    else
      match Lookup(q, "$search")
      case Some(Str(s)) => Success(Set(q, "$where", Where(s, sm)))
      case _ => Failure(ExpectedString)
  }

  /** The query after activation: the predicate installed for `find`, then
      `$search` deleted, then each hint key deleted when it is truthy. */
  function RewriteQuery(q: seq<Prop>, sm: Settings, find: bool): (r: Result<seq<Prop>, Failure>)
    ensures !find ==> r.Success?
    ensures find ==> (r.Success? <==> Lookup(q, "$search").Some? && Lookup(q, "$search").value.Str?)
    ensures r.Success? ==> Lookup(r.value, "$search") == None
    ensures r.Success? && find ==> Lookup(r.value, "$where") == Some(Where(Lookup(q, "$search").value.s, sm))
    ensures r.Success? && !find ==> Lookup(r.value, "$where") == Lookup(q, "$where")
    ensures r.Success? ==> forall h | IsHintKey(h) ::
      Lookup(r.value, h) == if TruthyAt(q, h) then None else Lookup(q, h)
    ensures r.Success? ==> forall j | j != "$search" && j != "$where" && !IsHintKey(j) ::
      Lookup(r.value, j) == Lookup(q, j)
  {
    OperatorKeysDistinct();
    var installed :- InstallWhere(q, sm, find);
    Success(StripKeys(installed, "$search", "$language", "$caseSensitive", "$diacriticSensitive", "$where"))
  }

  /** The hook returned by `fullTextSearch(sm)`. Only `find` installs the
      predicate; every activated call loses its `$search` and its truthy
      hint keys, and nothing else in the query changes. */
  function FullTextHook(sm: Settings, hook: Hook): (r: Result<Hook, Failure>)
    ensures !Active(hook) ==> r == Success(hook)
    ensures Active(hook) ==>
      (r.Success? <==> hook.methodName != "find" || Lookup(hook.query.value, "$search").value.Str?)
    ensures r.Success? ==> r.value.methodName == hook.methodName && r.value.id == hook.id
    ensures r.Success? ==> r.value.query.Some? == hook.query.Some?
    ensures Active(hook) && r.Success? ==>
      var q := hook.query.value;
      var q' := r.value.query.value;
      && Lookup(q', "$search") == None
      && (hook.methodName == "find" ==> Lookup(q', "$where") == Some(Where(Lookup(q, "$search").value.s, sm)))
      && (hook.methodName != "find" ==> Lookup(q', "$where") == Lookup(q, "$where"))
      && (forall h | IsHintKey(h) :: Lookup(q', h) == if TruthyAt(q, h) then None else Lookup(q, h))
      && (forall j | j != "$search" && j != "$where" && !IsHintKey(j) :: Lookup(q', j) == Lookup(q, j))
  {
    if !Active(hook) then Success(hook)
    else
      var q :- RewriteQuery(hook.query.value, sm, hook.methodName == "find");
      Success(hook.(query := Some(q)))
  }

  /** A second application changes nothing: the first one removed the
      `$search` that activates the hook. */
  lemma FullTextIdempotent(sm: Settings, hook: Hook)
    requires FullTextHook(sm, hook).Success?
    ensures FullTextHook(sm, FullTextHook(sm, hook).value) == FullTextHook(sm, hook)
  {
  }

  /** A falsy hint key is not deleted: `$caseSensitive: false` survives the
      hook and reaches the datastore. */
  lemma FalsyHintKept(sm: Settings, m: string, id: Value, q: seq<Prop>, s: string, h: string)
    requires !Truthy(id) && Lookup(q, "$search") == Some(Str(s)) && s != ""
    requires IsHintKey(h) && Lookup(q, h).Some? && !Truthy(Lookup(q, h).value)
    ensures FullTextHook(sm, Hook(m, id, Some(q))).Success?
    ensures Lookup(FullTextHook(sm, Hook(m, id, Some(q))).value.query.value, h) == Lookup(q, h)
  {
  }
}
