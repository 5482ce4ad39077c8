/** Configuration kept as nested dictionaries that are changed in place. */
module Configurations {
  import opened Names
  import opened ConfigurationTree

  datatype Value = Text(text: string) | Sub(table: Table)

  /** One dictionary; `repr` holds it and every dictionary below it. */
  class Table {
    var entries: map<string, Value>
    ghost var repr: set<Table>

    ghost predicate Valid()
      reads this, repr
      decreases repr
    {
      && this in repr
      && (forall k | k in entries && entries[k].Sub? ::
            var t := entries[k].table; t in repr && t.repr <= repr && this !in t.repr && t.Valid())
      && (forall j, k | j in entries && k in entries && j != k && entries[j].Sub? && entries[k].Sub? ::
            entries[j].table.repr !! entries[k].table.repr)
    }

    /** The contents as a value. */
    ghost function Contents(): map<string, Tree>
      requires Valid()
      reads this, repr
      decreases repr
    {
      map k | k in entries :: if entries[k].Sub? then Branch(entries[k].table.Contents()) else Leaf(entries[k].text)
    }

    constructor ()
      ensures Valid() && fresh(repr) && Contents() == map[]
    {
      entries, repr := map[], {this};
    }

    /** Put a freshly built value under a key. */
    method Put(k: string, v: Value)
      requires Valid()
      requires v.Sub? ==> v.table.Valid() && v.table.repr !! repr
      modifies this
      ensures Valid() && repr == old(repr) + (if v.Sub? then v.table.repr else {})
      ensures entries == old(entries)[k := v] && (v.Sub? ==> v.table.Valid())
      ensures Contents() == old(Contents())[k := old(TreeOf(v))]
    {
      entries := entries[k := v];
      repr := repr + if v.Sub? then v.table.repr else {};
    }

    /** Put a copy of a value under a key, as `deepcopy` makes it. */
    method PutCopy(k: string, t: Tree)
      requires Valid()
      modifies this
      ensures Valid() && fresh(repr - old(repr))
      ensures Contents() == old(Contents())[k := t]
      decreases t, 1
    {
      if t.Leaf? {
        Put(k, Text(t.value));
      } else {
        var table := new Table();
        table.Fill(t);
        Put(k, Sub(table));
      }
    }

    method Fill(t: Tree)
      requires Valid() && Contents() == map[] && t.Branch?
      modifies this
      ensures Valid() && fresh(repr - old(repr)) && Contents() == t.entries
      decreases t, 0
    {
      var todo := t.entries.Keys;
      assert t.entries - todo == map[];
      while todo != {}
        invariant todo <= t.entries.Keys
        invariant Valid() && fresh(repr - old(repr)) && Contents() == t.entries - todo
        decreases |todo|
      {
        var k :| k in todo;
        PutCopy(k, t.entries[k]);
        OneLess(t.entries, todo, k);
        todo := todo - {k};
      }
      assert t.entries - {} == t.entries;
    }

    /** The value itself is stored; the inner dictionaries are made on the way where there are none. */
    method Set(keys: seq<string>, value: Value)
      requires Valid() && keys != [] && Outside(value, repr)
      modifies repr
      ensures Valid() && fresh(repr - old(repr) - Tables(value))
      ensures Contents() == ConfigurationTree.Set(old(Contents()), keys, old(TreeOf(value)))
      ensures Held(Sub(this), keys) == Some(value)
      decreases |keys|, 0
    {
      var key := keys[0];
      if |keys| == 1 {
        Put(key, value);
        assert keys[1..] == [];
        return;
      }
      Enter(key);
      ghost var before, tree := Contents(), TreeOf(value);
      SetBelow(key, keys[1..], value);
      Overwrite(old(Contents()), key, before[key], Branch(ConfigurationTree.Set(before[key].entries, keys[1..], tree)));
    }

    method SetBelow(key: string, keys: seq<string>, value: Value)
      requires Valid() && keys != [] && key in entries && entries[key].Sub? && Outside(value, repr)
      modifies repr
      ensures Valid() && fresh(repr - old(repr) - Tables(value)) && key in entries
      ensures Contents() ==
        old(Contents())[key := Branch(ConfigurationTree.Set(old(entries[key].table.Contents()), keys, old(TreeOf(value))))]
      ensures entries[key].Sub? && Held(entries[key], keys) == Some(value)
      decreases |keys|, 1
    {
      hide ConfigurationTree.Set, Held;
      var existing := entries[key].table;
      ghost var before := Contents();
      existing.Set(keys, value);
      repr := repr + existing.repr;
      OnlyInside(key, before);
    }

    /** Make sure there is a dictionary under the key, replacing anything else. */
    method Enter(key: string)
      requires Valid()
      modifies this
      ensures Valid() && fresh(repr - old(repr)) && key in entries && entries[key].Sub?
      ensures Contents() == old(Contents())[key := Branch(Inside(old(Contents()), key))]
      ensures entries[key].table.Contents() == Inside(old(Contents()), key)
    {
      if key !in entries || !entries[key].Sub? {
        var existing := new Table();
        Put(key, Sub(existing));
      }
    }

    /** Where every entry but one reads as in `before`, the contents are `before` with that one replaced. */
    lemma OnlyInside(key: string, before: map<string, Tree>)
      requires Valid() && key in entries && entries[key].Sub? && before.Keys == entries.Keys
      requires forall j | j in entries && j != key :: before[j] == TreeOf(entries[j])
      ensures Contents() == before[key := Branch(entries[key].table.Contents())]
    {}

    method Remove(keys: seq<string>) returns (removed: Option<Value>)
      requires Valid() && keys != []
      modifies repr
      ensures Valid() && repr == old(repr)
      ensures removed.Some? && removed.value.Sub? ==> removed.value.table.Valid()
      ensures match ConfigurationTree.Remove(old(Contents()), keys)
        case None => removed == None && Contents() == old(Contents())
        case Some((rest, v)) => removed.Some? && Contents() == rest && TreeOf(removed.value) == v
      ensures removed == old(Held(Sub(this), keys))
      decreases |keys|, 0
    {
      var key := keys[0];
      assert |keys| == 1 ==> keys[1..] == [];
      if key !in entries { return None; }
      if |keys| == 1 {
        removed := Some(entries[key]);
        entries := entries - {key};
        return;
      }
      if !entries[key].Sub? { return None; }
      ghost var before := Contents();
      removed := RemoveBelow(key, keys[1..]);
      assert before[key := before[key]] == before;
    }

    method RemoveBelow(key: string, keys: seq<string>) returns (removed: Option<Value>)
      requires Valid() && keys != [] && key in entries && entries[key].Sub?
      modifies repr
      ensures Valid() && repr == old(repr)
      ensures removed.Some? && removed.value.Sub? ==> removed.value.table.Valid()
      ensures match ConfigurationTree.Remove(old(entries[key].table.Contents()), keys)
        case None => removed == None && Contents() == old(Contents())[key := old(Contents()[key])]
        case Some((rest, v)) => removed.Some? && Contents() == old(Contents())[key := Branch(rest)] && TreeOf(removed.value) == v
      ensures removed == old(Held(entries[key], keys))
      decreases |keys|, 1
    {
      hide ConfigurationTree.Remove, Held;
      ghost var before := Contents();
      removed := entries[key].table.Remove(keys);
      OnlyInside(key, before);
    }

    method Merge(source: Tree)
      requires Valid() && source.Branch?
      modifies repr
      ensures Valid() && fresh(repr - old(repr))
      ensures Branch(Contents()) == ConfigurationTree.Merge(Branch(old(Contents())), source)
      decreases source, 0
    {
      hide ConfigurationTree.Merge, Merged, MergedEntry;
      ghost var before := Contents();
      var todo := source.entries.Keys;
      ghost var done := {};
      NothingMerged(before, source.entries);
      while todo != {}
        invariant todo + done == source.entries.Keys && todo !! done
        invariant Valid() && fresh(repr - old(repr)) && Contents() == Merged(before, source.entries, done)
        decreases |todo|
      {
        var k :| k in todo;
        MergeKey(k, source.entries[k]);
        MergedNext(before, source.entries, done, k);
        todo, done := todo - {k}, done + {k};
      }
      assert done == source.entries.Keys && Branch(source.entries) == source;
      AllMerged(before, source.entries);
    }

    method MergeKey(key: string, value: Tree)
      requires Valid()
      modifies repr
      ensures Valid() && fresh(repr - old(repr))
      ensures Contents() == old(Contents())[key := MergedEntry(old(Contents()), key, value)]
      decreases value, 1
    {
      if key in entries && entries[key].Sub? && value.Branch? {
        var existing := entries[key].table;
        ghost var before := Contents();
        existing.Merge(value);
        repr := repr + existing.repr;
        OnlyInside(key, before);
      } else {
        PutCopy(key, value);
      }
    }

    method Get(keys: seq<string>) returns (found: Option<Value>)
      requires Valid()
      ensures found.Some? && found.value.Sub? ==> found.value.table.Valid()
      ensures match ConfigurationTree.Get(Branch(Contents()), keys)
        case None => found == None
        case Some(t) => found.Some? && TreeOf(found.value) == t
      ensures found == Held(Sub(this), keys)
    {
      var current := Sub(this);
      assert keys[0..] == keys;
      for i := 0 to |keys|
        invariant current.Sub? ==> current.table.Valid()
        invariant ConfigurationTree.Get(Branch(Contents()), keys) == ConfigurationTree.Get(TreeOf(current), keys[i..])
        invariant Held(Sub(this), keys) == Held(current, keys[i..])
      {
        assert keys[i..][0] == keys[i] && keys[i..][1..] == keys[i + 1..];
        if !current.Sub? || keys[i] !in current.table.entries { return None; }
        current := current.table.entries[keys[i]];
      }
      return Some(current);
    }

    method Clear()
      modifies this
      ensures Valid() && repr == {this} && Contents() == map[]
    {
      entries, repr := map[], {this};
    }
  }

  /** What a key holds once `value` has been merged in under it. */
  function MergedEntry(m: map<string, Tree>, key: string, value: Tree): Tree {
    if key in m then ConfigurationTree.Merge(m[key], value) else value
  }

  /** The contents once the keys in `done` have been merged. */
  ghost function Merged(m: map<string, Tree>, source: map<string, Tree>, done: set<string>): map<string, Tree> {
    map k | k in m.Keys + source.Keys && (k in m || k in done) ::
      if k in done && k in source then MergedEntry(m, k, source[k]) else if k in m then m[k] else Leaf("")
  }

  lemma NothingMerged(m: map<string, Tree>, source: map<string, Tree>)
    ensures Merged(m, source, {}) == m
  {}

  lemma MergedNext(m: map<string, Tree>, source: map<string, Tree>, done: set<string>, k: string)
    requires k in source && k !in done && done <= source.Keys
    ensures Merged(m, source, done + {k}) == Merged(m, source, done)[k := MergedEntry(Merged(m, source, done), k, source[k])]
  {
    hide ConfigurationTree.Merge;
  }

  lemma AllMerged(m: map<string, Tree>, source: map<string, Tree>)
    ensures Branch(Merged(m, source, source.Keys)) == ConfigurationTree.Merge(Branch(m), Branch(source))
  {
    assert Merged(m, source, source.Keys) == ConfigurationTree.Merge(Branch(m), Branch(source)).entries;
  }

  lemma OneLess(m: map<string, Tree>, todo: set<string>, k: string)
    requires k in todo && k in m
    ensures (m - todo)[k := m[k]] == m - (todo - {k})
  {}

  datatype Raised = BadPath | PathNotFound | NotADictionary

  class Configuration {
    const data: Table

    ghost predicate Valid()
      reads data, data.repr
    {
      data.Valid()
    }

    constructor ()
      ensures Valid() && fresh(data.repr) && data.Contents() == map[]
    {
      data := new Table();
    }

    /** The value at a path, or None for the caller's default. */
    method Get(path: string) returns (found: Option<Value>, raised: Option<Raised>)
      requires Valid()
      ensures raised == if ParsePath(path) == None then Some(BadPath) else None
      ensures found.Some? ==> raised == None && (found.value.Sub? ==> found.value.table.Valid())
      ensures raised == None ==>
        match ConfigurationTree.Get(Branch(data.Contents()), ParsePath(path).value)
        case None => found == None
        case Some(t) => found.Some? && TreeOf(found.value) == t
    {
      var keys := ParsePath(path);
      if keys == None { return None, Some(BadPath); }
      found := data.Get(keys.value);
      return found, None;
    }

    method Has(path: string) returns (has: bool, raised: Option<Raised>)
      requires Valid()
      ensures raised == if ParsePath(path) == None then Some(BadPath) else None
      ensures has <==> raised == None && ConfigurationTree.Get(Branch(data.Contents()), ParsePath(path).value).Some?
    {
      var found;
      found, raised := Get(path);
      return found.Some?, raised;
    }

    /** The value itself is stored, no copy of it. */
    method Set(path: string, value: Value) returns (raised: Option<Raised>)
      requires Valid() && Outside(value, data.repr)
      modifies data.repr
      ensures Valid() && fresh(data.repr - old(data.repr) - Tables(value))
      ensures match ParsePath(path)
        case None => raised == Some(BadPath) && data.Contents() == old(data.Contents())
        case Some(keys) =>
          && raised == None && keys != []
          && data.Contents() == ConfigurationTree.Set(old(data.Contents()), keys, old(TreeOf(value)))
          && Held(Sub(data), keys) == Some(value)
    {
      var keys := ParsePath(path);
      if keys == None { return Some(BadPath); }
      ParseSound(path);
      data.Set(keys.value, value);
      return None;
    }

    method Remove(path: string) returns (removed: Option<Value>, raised: Option<Raised>)
      requires Valid()
      modifies data.repr
      ensures Valid() && data.repr == old(data.repr)
      ensures removed.Some? ==> raised == None && (removed.value.Sub? ==> removed.value.table.Valid())
      ensures match ParsePath(path)
        case None => raised == Some(BadPath) && data.Contents() == old(data.Contents())
        case Some(keys) =>
          && keys != []
          && match ConfigurationTree.Remove(old(data.Contents()), keys)
             case None => raised == Some(PathNotFound) && data.Contents() == old(data.Contents())
             case Some((rest, v)) => removed.Some? && data.Contents() == rest && TreeOf(removed.value) == v
      ensures raised == None ==> removed == old(Held(Sub(data), ParsePath(path).value))
    {
      var keys := ParsePath(path);
      if keys == None { return None, Some(BadPath); }
      ParseSound(path);
      removed := data.Remove(keys.value);
      return removed, if removed == None then Some(PathNotFound) else None;
    }

    method Merge(values: Tree) returns (raised: Option<Raised>)
      requires Valid()
      modifies data.repr
      ensures Valid() && fresh(data.repr - old(data.repr))
      ensures raised == if values.Branch? then None else Some(NotADictionary)
      ensures Branch(data.Contents()) ==
        if raised == None then ConfigurationTree.Merge(Branch(old(data.Contents())), values) else Branch(old(data.Contents()))
    {
      if !values.Branch? { return Some(NotADictionary); }
      data.Merge(values);
      return None;
    }

    method Clear()
      requires Valid()
      modifies data
      ensures Valid() && data.Contents() == map[]
    {
      data.Clear();
    }
  }

  ghost function Tables(v: Value): set<Table>
    reads if v.Sub? then {v.table} else {}
  {
    if v.Sub? then v.table.repr else {}
  }

  /** A value whose dictionaries are none of these. */
  ghost predicate Outside(v: Value, tables: set<Table>)
    reads if v.Sub? then {v.table} + v.table.repr else {}
  {
    v.Sub? ==> v.table.Valid() && v.table.repr !! tables
  }

  /** The object at a path. */
  ghost function Held(v: Value, keys: seq<string>): Option<Value>
    requires v.Sub? ==> v.table.Valid()
    reads if v.Sub? then {v.table} + v.table.repr else {}
    decreases |keys|
  {
    if keys == [] then Some(v)
    else if v.Sub? && keys[0] in v.table.entries then Held(v.table.entries[keys[0]], keys[1..])
    else None
  }

  ghost function TreeOf(v: Value): Tree
    requires v.Sub? ==> v.table.Valid()
    reads if v.Sub? then {v.table} + v.table.repr else {}
  {
    if v.Sub? then Branch(v.table.Contents()) else Leaf(v.text)
  }
}
