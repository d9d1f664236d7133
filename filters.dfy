/**
 * The view filters (`Js/Webiny/Modules/Filters/Filter.js`): a parser for
 * filter strings `name:arg:arg,name2`, a module-level table of registered
 * filters, and `Filter`, which threads a value through the parsed filters
 * in order.
 */
module Filters {
  import opened Wrappers
  import opened Strings
  import opened AssocList

  /** One comma-separated segment: the text before its first `:` and the `:`-separated rest. */
  function Entry(segment: string): (e: (string, seq<string>))
    ensures ':' !in segment ==> e == (segment, [])
    ensures ':' in segment ==> e.0 == segment[..FirstIndexOf(segment, ':')]
    ensures ':' !in e.0 && forall k :: 0 <= k < |e.1| ==> ':' !in e.1[k]
  {
    var pieces := Split(segment, ':');
    (pieces[0], pieces[1..])
  }

  /** The entries of the segments, in order. */
  function Entries(segments: seq<string>): (es: seq<(string, seq<string>)>)
    ensures |es| == |segments| && forall k :: 0 <= k < |segments| ==> es[k] == Entry(segments[k])
  {
    seq(|segments|, k requires 0 <= k < |segments| => Entry(segments[k]))
  }

  /** What `parseFilters` returns; `None` is `undefined`, and a falsy argument gives `{}`. */
  function Parsed(spec: Option<string>): Table<string, seq<string>> {
    if spec.None? || spec.value == "" then [] else PutAll([], Entries(Split(spec.value, ',')))
  }

  /** `parseFilters`: its own loop, proved against the fold. */
  method ParseFilters(spec: Option<string>) returns (t: Table<string, seq<string>>)
    ensures t == Parsed(spec)
    ensures UniqueKeys(t)
  {
    if spec.None? || spec.value == "" {
      return [];
    }
    var segments := Split(spec.value, ',');
    ghost var es := Entries(segments);
    t := [];
    for i := 0 to |segments|
      invariant t == PutAll([], es[..i])
    {
      var pieces := Split(segments[i], ':');
      var name := pieces[0];
      assert es[..i + 1][..i] == es[..i];
      t := Put(t, name, pieces[1..]);
    }
    assert es[..|segments|] == es;
    PutAllUnique([], es);
  }

  /**
   * In a parsed filter string, the name of segment `k` maps to that
   * segment's parameters unless a later segment has the same name, and the
   * table holds no other names.
   */
  lemma ParsedSegments(s: string, k: nat, name: string)
    requires s != "" && k < |Split(s, ',')|
    requires forall m :: k < m < |Split(s, ',')| ==> Entry(Split(s, ',')[m]).0 != Entry(Split(s, ',')[k]).0
    ensures Get(Parsed(Some(s)), Entry(Split(s, ',')[k]).0) == Some(Entry(Split(s, ',')[k]).1)
    ensures Get(Parsed(Some(s)), name).Some? <==>
      exists m :: 0 <= m < |Split(s, ',')| && Entry(Split(s, ',')[m]).0 == name
  {
    var es := Entries(Split(s, ','));
    PutAllLastWins([], es, k);
    PutAllKeys([], es, name);
    if exists m :: 0 <= m < |es| && es[m].0 == name {
      var m :| 0 <= m < |es| && es[m].0 == name;
      assert Entry(Split(s, ',')[m]).0 == name;
    }
  }

  /** A filter: the previous value and the parameters give the next value. */
  type FilterFn<!V> = (V, seq<string>) -> V

  /**
   * `_.forEach(parsed, (params, filter) => value = getFilter(filter)(value, ...params))`:
   * an unregistered name is `undefined(...)`, a `TypeError`.
   */
  function ApplyAll<V>(filters: map<string, FilterFn<V>>, value: V, t: Table<string, seq<string>>): Result<V, string> {
    if t == [] then Ok(value)
    else if t[0].0 !in filters then Err("getFilter(...) is not a function")
    else ApplyAll(filters, filters[t[0].0](value, t[0].1), t[1..])
  }

  /** The fold fails exactly when some parsed name has no registered filter. */
  lemma {:induction false} ApplyAllFails<V>(filters: map<string, FilterFn<V>>, value: V, t: Table<string, seq<string>>)
    ensures ApplyAll(filters, value, t).Err? <==> exists k :: 0 <= k < |t| && t[k].0 !in filters
  {
    if t != [] && t[0].0 in filters {
      ApplyAllFails(filters, filters[t[0].0](value, t[0].1), t[1..]);
      assert forall k :: 1 <= k < |t| ==> t[1..][k - 1] == t[k];
      if exists k :: 0 <= k < |t| && t[k].0 !in filters {
        var k :| 0 <= k < |t| && t[k].0 !in filters;
        assert t[1..][k - 1] == t[k];
      }
    }
  }

  /** Applying a table in two parts is applying the first part, then the second to its result. */
  lemma {:induction false} ApplyAllAppend<V>(filters: map<string, FilterFn<V>>, value: V,
                                             t: Table<string, seq<string>>, u: Table<string, seq<string>>)
    ensures ApplyAll(filters, value, t + u)
         == match ApplyAll(filters, value, t)
            case Ok(v) => ApplyAll(filters, v, u)
            case Err(e) => Err(e)
  {
    if t != [] {
      assert (t + u)[0] == t[0] && (t + u)[1..] == t[1..] + u;
      if t[0].0 in filters {
        ApplyAllAppend(filters, filters[t[0].0](value, t[0].1), t[1..], u);
      }
    } else {
      assert t + u == u;
    }
  }

  /** With one registered filter, the result is that filter applied to the value and its parameters. */
  lemma ApplyAllSingle<V>(filters: map<string, FilterFn<V>>, value: V, name: string, params: seq<string>)
    requires name in filters
    ensures ApplyAll(filters, value, [(name, params)]) == Ok(filters[name](value, params))
  {
    assert [(name, params)][1..] == [];
  }

  /** `filters[name] = callable`, which is what `addFilter` does, because the guard is always true. */
  function AddAsWritten<V>(filters: map<string, FilterFn<V>>, name: string, callable: FilterFn<V>)
    : (r: map<string, FilterFn<V>>)
    ensures name in r && r[name] == callable
    ensures forall n :: n in filters && n != name ==> n in r && r[n] == filters[n]
  {
    filters[name := callable]
  }

  /** Registering a second filter under a taken name replaces the first, as written. */
  lemma AddAsWrittenReplaces(f: FilterFn<int>, g: FilterFn<int>)
    requires f(0, []) != g(0, [])
    ensures var once := AddAsWritten(map[], "trim", f);
      AddAsWritten(once, "trim", g)["trim"] != once["trim"]
  {
  }

  /** `_.has(filters, name)`, the intended guard: a name is registered once and then kept. */
  function AddIfAbsent<V>(filters: map<string, FilterFn<V>>, name: string, callable: FilterFn<V>)
    : (r: map<string, FilterFn<V>>)
    ensures name in r
    ensures name in filters ==> r == filters
    ensures name !in filters ==> r[name] == callable && forall n :: n in filters ==> n in r && r[n] == filters[n]
  {
    if name in filters then filters else filters[name := callable]
  }

  /** Registering twice under the same name keeps the first filter. */
  lemma AddIfAbsentKeepsFirst<V>(filters: map<string, FilterFn<V>>, name: string, f: FilterFn<V>, g: FilterFn<V>)
    requires name !in filters
    ensures AddIfAbsent(AddIfAbsent(filters, name, f), name, g)[name] == f
  {
  }

  /** The module-level `filters` table with `Filter` and `Filter.addFilter`. */
  class FilterRegistry<V> {
    var filters: map<string, FilterFn<V>>

    constructor ()
      ensures filters == map[]
    {
      filters := map[];
    }

    /** `Filter.addFilter(name, callable)`: the guard never holds, so the callable is always stored. */
    method AddFilter(name: string, callable: FilterFn<V>)
      modifies this`filters
      ensures filters == AddAsWritten(old(filters), name, callable)
      ensures name in filters && filters[name] == callable
    {
      filters := filters[name := callable];
    }

    /** `Filter(value, filtersToApply)`. */
    method Filter(value: V, filtersToApply: Option<string>) returns (r: Result<V, string>)
      ensures r == ApplyAll(filters, value, Parsed(filtersToApply))
      ensures filtersToApply.None? || filtersToApply == Some("") ==> r == Ok(value)
    {
      var t := ParseFilters(filtersToApply);
      var v := value;
      for i := 0 to |t|
        invariant ApplyAll(filters, v, t[i..]) == ApplyAll(filters, value, t)
      {
        var (name, params) := t[i];
        if name !in filters {
          return Err("getFilter(...) is not a function");
        }
        assert t[i..][1..] == t[i + 1..];
        v := filters[name](v, params);
      }
      return Ok(v);
    }
  }
}
