/**
 * The base UI component (`Js/Webiny/Modules/Core/Core/Component.js`): the
 * `classSet` class-string builder, the name parsing of `bindMethods`, and
 * the bookkeeping of event listeners and data cursors that
 * `componentWillUnmount` releases.
 */
module Components {
  import opened Wrappers
  import opened Strings

  /** One argument of `classSet`. */
  datatype ClassArg =
    | Falsy                          // `undefined`, `null`, `false`, `0`
    | Str(s: string)                 // a string; `""` is falsy
    | List(items: seq<string>)       // an array, whatever it holds
    | Obj(entries: seq<(string, bool)>) // an object: its keys and whether each value is truthy

  /** The keys of an object whose values are truthy, in key order. */
  function TruthyKeys(entries: seq<(string, bool)>): seq<string> {
    if entries == [] then []
    else
      var prev := TruthyKeys(entries[..|entries| - 1]);
      var e := entries[|entries| - 1];
      if e.1 then prev + [e.0] else prev
  }

  /** A key is kept exactly when some entry has it with a truthy value. */
  lemma {:induction false} TruthyKeysSpec(entries: seq<(string, bool)>, name: string)
    ensures name in TruthyKeys(entries) <==> (name, true) in entries
  {
    if entries != [] {
      var init := entries[..|entries| - 1];
      var e := entries[|entries| - 1];
      TruthyKeysSpec(init, name);
      assert entries == init + [e];
    }
  }

  /** What one argument adds to `classes`. */
  function Pieces(arg: ClassArg): seq<string> {
    match arg
    case Falsy => []
    case Str(s) => if s == "" then [] else Split(s, ' ')
    case List(items) => items
    case Obj(entries) => TruthyKeys(entries)
  }

  /** `f` of each element, concatenated in order. */
  function FlatMap<T, U>(f: T -> seq<U>, xs: seq<T>): seq<U> {
    if xs == [] then [] else FlatMap(f, xs[..|xs| - 1]) + f(xs[|xs| - 1])
  }

  /** A `FlatMap` of two consecutive parts is the concatenation of theirs. */
  lemma {:induction false} FlatMapAppend<T, U>(f: T -> seq<U>, a: seq<T>, b: seq<T>)
    ensures FlatMap(f, a + b) == FlatMap(f, a) + FlatMap(f, b)
    decreases |b|
  {
    if b == [] {
      assert a + b == a;
    } else {
      var n := |b| - 1;
      FlatMapAppend(f, a, b[..n]);
      assert (a + b)[..|a + b| - 1] == a + b[..n];
    }
  }

  /** A `FlatMap` of one element is `f` of it. */
  lemma FlatMapSingle<T, U>(f: T -> seq<U>, x: T)
    ensures FlatMap(f, [x]) == f(x)
  {
    assert [x][..0] == [];
    assert FlatMap(f, [x]) == FlatMap(f, []) + f(x);
  }

  /** Every argument's pieces, in argument order. */
  function AllPieces(args: seq<ClassArg>): seq<string> {
    FlatMap(Pieces, args)
  }

  /** A falsy argument anywhere changes nothing. */
  lemma ClassSetIgnoresFalsy(a: seq<ClassArg>, b: seq<ClassArg>)
    ensures AllPieces(a + [Falsy] + b) == AllPieces(a + b)
  {
    FlatMapAppend(Pieces, a + [Falsy], b);
    FlatMapAppend(Pieces, a, [Falsy]);
    FlatMapAppend(Pieces, a, b);
    assert [Falsy][..0] == [];
  }

  /** A single string argument comes back unchanged. */
  lemma ClassSetOfString(s: string)
    ensures Join(AllPieces([Str(s)]), ' ') == s
  {
    FlatMapSingle(Pieces, Str(s));
    if s != "" {
      JoinSplit(s, ' ');
    }
  }

  /** An object argument contributes exactly the keys whose values are truthy. */
  lemma ClassSetOfObject(entries: seq<(string, bool)>, name: string)
    ensures name in AllPieces([Obj(entries)]) <==> (name, true) in entries
  {
    FlatMapSingle(Pieces, Obj(entries));
    TruthyKeysSpec(entries, name);
  }

  /** The joined string splits back into the pieces when none is empty or holds a space. */
  lemma ClassSetSplits(args: seq<ClassArg>)
    requires AllPieces(args) != []
    requires forall k :: 0 <= k < |AllPieces(args)| ==> ' ' !in AllPieces(args)[k]
    ensures Split(Join(AllPieces(args), ' '), ' ') == AllPieces(args)
  {
    SplitJoin(AllPieces(args), ' ');
  }

  /**
   * `classSet(...arguments)`: collects the pieces of each argument in turn
   * and joins them with single spaces.
   */
  method ClassSet(args: seq<ClassArg>) returns (r: string)
    ensures r == Join(AllPieces(args), ' ')
    ensures args == [] ==> r == ""
  {
    var classes: seq<string> := [];
    for i := 0 to |args|
      invariant classes == AllPieces(args[..i])
    {
      assert args[..i + 1][..i] == args[..i];
      match args[i]
      case Falsy =>
      case Str(s) =>
        if s != "" {
          classes := classes + Split(s, ' ');
        }
      case List(items) =>
        classes := classes + items;
      case Obj(entries) =>
        for k := 0 to |entries|
          invariant classes == AllPieces(args[..i]) + TruthyKeys(entries[..k])
        {
          assert entries[..k + 1][..k] == entries[..k];
          if entries[k].1 {
            classes := classes + [entries[k].0];
          }
        }
        assert entries[..|entries|] == entries;
    }
    assert args[..|args|] == args;
    r := Join(classes, ' ');
  }

  /**
   * The names `bindMethods` goes through: a single argument is a
   * comma-separated list of names, each trimmed; several arguments are the
   * names themselves.
   */
  function BindNames(args: seq<string>): (names: seq<string>)
    ensures |args| != 1 ==> names == args
    ensures |args| == 1 ==> |names| == |Split(args[0], ',')|
  {
    if |args| == 1 then TrimAll(Split(args[0], ',')) else args
  }

  /** `parts.map(x => x.trim())`. */
  function TrimAll(parts: seq<string>): (r: seq<string>)
    ensures |r| == |parts| && forall k :: 0 <= k < |parts| ==> r[k] == Trim(parts[k])
  {
    if parts == [] then [] else TrimAll(parts[..|parts| - 1]) + [Trim(parts[|parts| - 1])]
  }

  /** Each name parsed from a single argument holds no comma and starts and ends with no space. */
  lemma BindNamesTrimmed(s: string, k: nat)
    requires k < |BindNames([s])|
    ensures var name := BindNames([s])[k];
      ',' !in name && (name == [] || (!IsSpace(name[0]) && !IsSpace(name[|name| - 1])))
  {
    var parts := Split(s, ',');
    assert BindNames([s])[k] == Trim(parts[k]);
    TrimKeepsAbsent(parts[k], ',');
  }

  /** Two comma-free pieces joined by a comma split back into those pieces. */
  lemma SplitPair(a: string, b: string)
    requires ',' !in a && ',' !in b
    ensures Split(a + "," + b, ',') == [a, b]
  {
    assert [a, b][1..] == [b];
    assert Join([a, b], ',') == a + "," + b;
    SplitJoin([a, b], ',');
  }

  /** A space before a name does not survive `trim`. */
  lemma TrimLeadingSpace(b: string)
    requires b != [] && !IsSpace(b[0]) && !IsSpace(b[|b| - 1])
    ensures Trim(" " + b) == b
  {
    var x := " " + b;
    assert SkipSpaces(x, 0) == 1 by {
      assert x[1] == b[0];
    }
    assert x[|x| - 1] == b[|b| - 1];
    assert x[1..] == b;
  }

  /** An illustration of `BindNamesTrimmed`: `"a, b"` names `a` and `b`, whatever the spaces around the comma. */
  lemma BindNamesTrims(a: string, b: string)
    requires a != "" && b != "" && ',' !in a && ',' !in b
    requires !IsSpace(a[0]) && !IsSpace(a[|a| - 1]) && !IsSpace(b[0]) && !IsSpace(b[|b| - 1])
    ensures BindNames([a + ", " + b]) == [a, b]
  {
    var rest := " " + b;
    assert a + ", " + b == a + "," + rest;
    SplitPair(a, rest);
    TrimLeadingSpace(b);
    TrimAllPair(a, rest);
  }

  /** Trimming two pieces trims each. */
  lemma TrimAllPair(x: string, y: string)
    ensures TrimAll([x, y]) == [Trim(x), Trim(y)]
  {
    assert [x, y][..1] == [x];
  }

  /** The argument parsing at the start of `bindMethods`, as a loop over the pieces. */
  method ParseNames(args: seq<string>) returns (names: seq<string>)
    ensures names == BindNames(args)
  {
    if |args| == 1 {
      var parts := Split(args[0], ',');
      names := [];
      for k := 0 to |parts|
        invariant names == TrimAll(parts[..k])
      {
        assert parts[..k + 1][..k] == parts[..k];
        names := names + [Trim(parts[k])];
      }
    } else {
      names := args;
    }
  }

  /** A listener's unsubscribe function, as `Dispatcher.on` returned it. */
  datatype Unsubscribe = Unsubscribe(id: nat)

  /** A data cursor, selected by the dot-separated path it was made from. */
  datatype Cursor = Cursor(id: nat, path: seq<string>)

  /** What unmounting did to a listener or a cursor. */
  datatype Release = Unsubscribed(listener: Unsubscribe) | Released(cursor: Cursor)

  /** The names of `names` that are not members, in order, duplicates kept: what `console.info` reports. */
  function Missing(names: seq<string>, members: set<string>): (r: seq<string>)
    ensures |r| <= |names|
    ensures forall n :: n in r <==> n in names && n !in members
  {
    if names == [] then []
    else
      var prev := names[..|names| - 1];
      var last := names[|names| - 1];
      assert names == prev + [last];
      Missing(prev, members) + (if last in members then [] else [last])
  }

  /** Missing names of consecutive lists concatenate: the report keeps the order of the names. */
  lemma {:induction false} MissingAppend(xs: seq<string>, ys: seq<string>, members: set<string>)
    ensures Missing(xs + ys, members) == Missing(xs, members) + Missing(ys, members)
  {
    if ys != [] {
      var prev := ys[..|ys| - 1];
      assert (xs + ys)[..|xs + ys| - 1] == xs + prev;
      assert (xs + ys)[|xs + ys| - 1] == ys[|ys| - 1];
      MissingAppend(xs, prev, members);
    } else {
      assert xs + ys == xs;
    }
  }

  /**
   * Where the `_.forEach` of `bindMethods` stops: the first name that is a
   * member but not a function, whose `this[name].bind(this)` throws a
   * `TypeError`; `|names|` when there is none.
   */
  function StopAt(names: seq<string>, callable: set<string>, members: set<string>): (j: nat)
    ensures j <= |names|
    ensures forall k :: 0 <= k < j ==> names[k] in callable || names[k] !in members
    ensures j < |names| ==> names[j] in members && names[j] !in callable
  {
    if names == [] then 0
    else if names[0] in members && names[0] !in callable then 0
    else
      var j := StopAt(names[1..], callable, members);
      assert forall k :: 1 <= k < 1 + j ==> names[k] == names[1..][k - 1];
      1 + j
  }

  /** Binding fails exactly when some name is a member that is not a function. */
  lemma StopAtFails(names: seq<string>, callable: set<string>, members: set<string>)
    ensures StopAt(names, callable, members) < |names| <==>
      exists k :: 0 <= k < |names| && names[k] in members && names[k] !in callable
  {
    var j := StopAt(names, callable, members);
    if j < |names| {
      assert names[j] in members && names[j] !in callable;
    }
  }

  /** The names of `names` that hold functions: the ones binding touches. */
  function Callables(names: seq<string>, callable: set<string>): (r: set<string>)
    ensures forall n :: n in r <==> n in names && n in callable
  {
    set n | n in names && n in callable
  }

  /** One more name extends the missing report and the bound set by that name alone. */
  lemma BindStep(names: seq<string>, i: nat, callable: set<string>, members: set<string>)
    requires i < |names| && callable <= members
    ensures Missing(names[..i + 1], members)
         == Missing(names[..i], members) + (if names[i] in members then [] else [names[i]])
    ensures Callables(names[..i + 1], callable)
         == Callables(names[..i], callable) + (if names[i] in callable then {names[i]} else {})
  {
    var next := names[..i + 1];
    assert next == names[..i] + [names[i]] && next[..i] == names[..i];
  }

  /** One mounted component. */
  class Component {
    /** The names whose value is a function (own or inherited): `bind` works on them. */
    const callable: set<string>
    /** The names of the other properties: lists, `props`, `state`. */
    const fields: set<string>
    /** The names whose method has been bound to the component. */
    var bound: set<string>
    /** `__listeners`. */
    var listeners: seq<Unsubscribe>
    /** `__cursors`. */
    var cursors: seq<Cursor>
    /** Every unsubscribe call and cursor release made so far, in order. */
    var releases: seq<Release>

    /**
     * The constructor: empty lists, and `bindTo` bound. `methods` are the
     * names holding functions, `fields` the other properties (`props`,
     * `state`, ...); a property holds one value, so the two are disjoint.
     */
    constructor (methods: set<string>, fields: set<string>)
      requires methods !! fields && "bindTo" !in fields
      requires "__listeners" !in methods && "__cursors" !in methods
      ensures callable == methods + {"bindTo"} && this.fields == fields + {"__listeners", "__cursors"}
      ensures "__listeners" in Members() && "__listeners" !in callable && "__cursors" !in callable
      ensures bound == {"bindTo"} && listeners == [] && cursors == [] && releases == []
    {
      callable := methods + {"bindTo"};
      this.fields := fields + {"__listeners", "__cursors"};
      bound := {"bindTo"};
      listeners := [];
      cursors := [];
      releases := [];
    }

    /** The names `name in this` is true for. */
    function Members(): (r: set<string>)
      ensures callable <= r && fields <= r
    {
      callable + fields
    }

    /**
     * `bindMethods(...arguments)`: the parsed names are taken in order; a
     * function member gets bound, a name that is not a member is reported
     * and left alone, and a member that is not a function throws a
     * `TypeError` that ends the loop.
     */
    method BindMethods(args: seq<string>) returns (missing: seq<string>, error: Option<string>)
      modifies this`bound
      ensures var names := BindNames(args);
        var j := StopAt(names, callable, Members());
        missing == Missing(names[..j], Members())
        && (error.None? <==> j == |names|)
        && bound == old(bound) + Callables(names[..j], callable)
    {
      var names := ParseNames(args);
      missing, error := BindEach(names);
    }

    /** The `_.forEach` of `bindMethods` over the parsed names. */
    method BindEach(names: seq<string>) returns (missing: seq<string>, error: Option<string>)
      modifies this`bound
      ensures var j := StopAt(names, callable, Members());
        missing == Missing(names[..j], Members())
        && (error.None? <==> j == |names|)
        && bound == old(bound) + Callables(names[..j], callable)
    {
      var members := Members();
      ghost var j := StopAt(names, callable, members);
      var b := bound;
      missing := [];
      error := None;
      var i := 0;
      while i < |names|
        invariant 0 <= i <= j && bound == old(bound)
        invariant b == bound + Callables(names[..i], callable)
        invariant missing == Missing(names[..i], members)
      {
        BindStep(names, i, callable, members);
        if names[i] in members {
          if names[i] !in callable {
            assert i == j;
            error := Some("this[name].bind is not a function");
            break;
          }
          b := b + {names[i]};
        } else {
          missing := missing + [names[i]];
        }
        i := i + 1;
      }
      assert i == j;
      bound := b;
    }

    /** `on(event, callback, meta)`: keeps the unsubscribe function `Dispatcher.on` returned. */
    method On(stopListening: Unsubscribe)
      modifies this`listeners
      ensures listeners == old(listeners) + [stopListening]
    {
      listeners := listeners + [stopListening];
    }

    /** `onRouteChanged(callback)`: the same, for the `RouteChanged` event. */
    method OnRouteChanged(stopListening: Unsubscribe)
      modifies this`listeners
      ensures listeners == old(listeners) + [stopListening]
    {
      listeners := listeners + [stopListening];
    }

    /** `watch(key, func)`: selects the cursor for the dot-separated `key` and keeps it. */
    method Watch(key: string, id: nat) returns (cursor: Cursor)
      modifies this`cursors
      ensures cursor == Cursor(id, Split(key, '.')) && Join(cursor.path, '.') == key
      ensures cursors == old(cursors) + [cursor]
    {
      cursor := Cursor(id, Split(key, '.'));
      JoinSplit(key, '.');
      cursors := cursors + [cursor];
    }

    /**
     * `componentWillUnmount`: every listener is unsubscribed once and every
     * cursor released once, in order, and both lists are left empty.
     */
    method ComponentWillUnmount()
      modifies this`listeners, this`cursors, this`releases
      ensures releases == old(releases) + UnsubscribeAll(old(listeners)) + ReleaseAll(old(cursors))
      ensures listeners == [] && cursors == []
    {
      var ls := listeners;
      var cs := cursors;
      var rs := releases;
      for i := 0 to |ls|
        invariant rs == releases + UnsubscribeAll(ls[..i])
      {
        assert ls[..i + 1][..i] == ls[..i];
        rs := rs + [Unsubscribed(ls[i])];
      }
      assert ls[..|ls|] == ls;
      ghost var mid := rs;
      for i := 0 to |cs|
        invariant rs == mid + ReleaseAll(cs[..i])
      {
        assert cs[..i + 1][..i] == cs[..i];
        rs := rs + [Released(cs[i])];
      }
      assert cs[..|cs|] == cs;
      releases := rs;
      listeners := [];
      cursors := [];
    }
  }

  /** One unsubscribe call per listener, in order. */
  function UnsubscribeAll(ls: seq<Unsubscribe>): (r: seq<Release>)
    ensures |r| == |ls| && forall k :: 0 <= k < |ls| ==> r[k] == Unsubscribed(ls[k])
  {
    if ls == [] then [] else UnsubscribeAll(ls[..|ls| - 1]) + [Unsubscribed(ls[|ls| - 1])]
  }

  /** One release per cursor, in order. */
  function ReleaseAll(cs: seq<Cursor>): (r: seq<Release>)
    ensures |r| == |cs| && forall k :: 0 <= k < |cs| ==> r[k] == Released(cs[k])
  {
    if cs == [] then [] else ReleaseAll(cs[..|cs| - 1]) + [Released(cs[|cs| - 1])]
  }
}
