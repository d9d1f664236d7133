/**
 * The WebMongo database list store
 * (`Apps/WebMongo/Database/Js/Stores/DatabaseStore.js`): a list of databases
 * seeded by `init`, grown by the add action, shrunk by the remove action
 * (`Array.prototype.splice(index, 1)`), with one change notification per
 * action.
 */
module DatabaseStore {

  /** A database entry; only its name is known to the store. */
  datatype Database = Database(name: string)

  /** The position `splice` starts at: a negative index counts from the end, and both ends clamp. */
  function SpliceStart(len: nat, index: int): (start: nat)
    ensures start <= len
    ensures 0 <= index <= len ==> start == index
    ensures index < 0 && 0 <= len + index ==> start == len + index
    ensures len + index < 0 ==> start == 0
    ensures index > len ==> start == len
  {
    if index < 0 then (if len + index < 0 then 0 else len + index)
    else if index > len then len
    else index
  }

  /** `s.splice(index, 1)` on a copy: what is left of the list. */
  function RemoveAt(s: seq<Database>, index: int): (r: seq<Database>)
    ensures |r| == if SpliceStart(|s|, index) < |s| then |s| - 1 else |s|
    ensures multiset(r) <= multiset(s)
  {
    var start := SpliceStart(|s|, index);
    if start < |s| then
      assert s == s[..start] + [s[start]] + s[start + 1..];
      s[..start] + s[start + 1..]
    else s
  }

  /** An in-range index deletes exactly that entry: one fewer, those before and after keep their order. */
  lemma RemoveAtInRange(s: seq<Database>, i: nat)
    requires i < |s|
    ensures var r := RemoveAt(s, i);
      |r| == |s| - 1
      && (forall k :: 0 <= k < i ==> r[k] == s[k])
      && (forall k :: i <= k < |r| ==> r[k] == s[k + 1])
      && multiset(r) + multiset{s[i]} == multiset(s)
  {
    var r := RemoveAt(s, i);
    var before, after := s[..i], s[i + 1..];
    assert r == before + after;
    assert s == before + [s[i]] + after;
    assert multiset(s) == multiset(before) + multiset{s[i]} + multiset(after);
  }

  /** `-1` removes the last entry, as `splice(-1, 1)` does. */
  lemma RemoveAtLast(s: seq<Database>)
    requires s != []
    ensures RemoveAt(s, -1) == s[..|s| - 1]
  {
  }

  /** An index past the end removes nothing. */
  lemma RemoveAtPastEnd(s: seq<Database>, i: int)
    requires i >= |s|
    ensures RemoveAt(s, i) == s
  {
  }

  /** Removing at the position just added to undoes the add. */
  lemma RemoveAtUndoesAdd(s: seq<Database>, d: Database)
    ensures RemoveAt(s + [d], |s|) == s
    ensures RemoveAt(s + [d], -1) == s
  {
    assert (s + [d])[..|s|] == s;
  }

  /** The list `init` starts with. */
  function Seed(): (r: seq<Database>)
    ensures |r| == 3
  {
    [Database("Webiny Sandbox"), Database("Webiny Production"), Database("Webiny Development")]
  }

  /** The single store instance. */
  class Store {
    /** `this.data`. */
    var data: seq<Database>
    /** How many times `emitChange` was called. */
    var changes: nat

    /** `init`: the three seed databases, in order, and no change emitted yet. */
    constructor Init()
      ensures data == Seed() && changes == 0
      ensures data[0].name == "Webiny Sandbox" && data[1].name == "Webiny Production"
        && data[2].name == "Webiny Development"
    {
      data := Seed();
      changes := 0;
    }

    /** The `addDatabaseAction` handler: `push`, then `emitChange`. */
    method Add(database: Database)
      modifies this
      ensures data == old(data) + [database]
      ensures changes == old(changes) + 1
    {
      data := data + [database];
      changes := changes + 1;
    }

    /** The `removeDatabaseAction` handler: `splice(index, 1)`, then `emitChange`. */
    method Remove(index: int)
      modifies this
      ensures data == RemoveAt(old(data), index)
      ensures changes == old(changes) + 1
    {
      var start := if index < 0 then (if |data| + index < 0 then 0 else |data| + index)
                   else if index > |data| then |data| else index;
      if start < |data| {
        data := data[..start] + data[start + 1..];
      }
      changes := changes + 1;
    }

    /** `getDatabases`: the current list itself. */
    method GetDatabases() returns (r: seq<Database>)
      ensures r == data
    {
      return data;
    }
  }
}
