/** Configuration values as trees of dictionaries, addressed by dotted paths. */
module ConfigurationTree {
  import opened Names
  import opened JoinNames

  datatype Tree = Leaf(value: string) | Branch(entries: map<string, Tree>)

  // ---- paths ----

  function Split(s: string, sep: char): (parts: seq<string>)
    ensures parts != []
  {
    if s == "" then [""]
    else
      var rest := Split(s[1..], sep);
      if s[0] == sep then [""] + rest else [[s[0]] + rest[0]] + rest[1..]
  }

  function Join(parts: seq<string>, sep: char): string
    requires parts != []
  {
    if |parts| == 1 then parts[0] else parts[0] + [sep] + Join(parts[1..], sep)
  }

  predicate Blank(s: string) { Strip(s) == "" }

  /** `_parse_path`; None where it raises. */
  function ParsePath(path: string): Option<seq<string>> {
    if Blank(path) then None
    else
      var keys := Split(path, '.');
      if exists k :: k in keys && Blank(k) then None else Some(keys)
  }

  predicate GoodKey(k: string) { !Blank(k) && '.' !in k }

  lemma {:induction false} SplitJoin(parts: seq<string>, sep: char)
    requires parts != [] && forall p | p in parts :: sep !in p
    ensures Split(Join(parts, sep), sep) == parts
    decreases |parts|, if parts != [] then |parts[0]| else 0
  {
    var s := Join(parts, sep);
    assert parts[0] in parts;
    if parts[0] == "" {
      if |parts| > 1 {
        assert s[1..] == Join(parts[1..], sep) && s[0] == sep;
        SplitJoin(parts[1..], sep);
        assert parts == [""] + parts[1..];
      } else {
        assert parts == [""];
      }
    } else {
      var shorter := [parts[0][1..]] + parts[1..];
      assert shorter[1..] == parts[1..] && parts[0] == [parts[0][0]] + parts[0][1..];
      assert s[1..] == Join(shorter, sep) && s[0] == parts[0][0] != sep;
      forall p | p in shorter ensures sep !in p { assert p == parts[0][1..] || p in parts[1..]; }
      SplitJoin(shorter, sep);
      assert parts == [parts[0]] + parts[1..];
    }
  }

  lemma {:induction false} JoinSplit(s: string, sep: char)
    ensures Join(Split(s, sep), sep) == s && forall p | p in Split(s, sep) :: sep !in p
  {
    if s != "" {
      JoinSplit(s[1..], sep);
      var rest := Split(s[1..], sep);
      assert s == [s[0]] + s[1..];
      if s[0] == sep {
        assert ([""] + rest)[1..] == rest;
      } else {
        var parts := [[s[0]] + rest[0]] + rest[1..];
        assert parts == Split(s, sep) && parts[1..] == rest[1..];
        forall p | p in parts ensures sep !in p { if p != parts[0] { assert p in rest; } }
      }
    }
  }

  lemma {:induction false} StripSpaces(s: string)
    requires Blank(s)
    ensures forall c | c in s :: IsSpace(c)
    decreases |s|
  {
    if s != "" {
      if IsSpace(s[0]) { StripSpaces(s[1..]); assert s == [s[0]] + s[1..]; }
      else { StripSpaces(s[..|s| - 1]); }
    }
  }

  lemma {:induction false} SpacesStrip(s: string)
    requires forall c | c in s :: IsSpace(c)
    ensures Blank(s)
    decreases |s|
  {
    if s != "" { assert s[0] in s; SpacesStrip(s[1..]); }
  }

  /** Paths are exactly the dotted spellings of lists of keys that are not blank and have no dot. */
  lemma ParseJoin(keys: seq<string>)
    requires keys != [] && forall k | k in keys :: GoodKey(k)
    ensures ParsePath(Join(keys, '.')) == Some(keys)
  {
    SplitJoin(keys, '.');
    assert keys[0] in keys;
    var path := Join(keys, '.');
    if Blank(path) {
      StripSpaces(path);
      assert forall c | c in keys[0] :: c in path;
      SpacesStrip(keys[0]);
    }
  }

  lemma ParseSound(path: string)
    requires ParsePath(path).Some?
    ensures var keys := ParsePath(path).value;
      keys != [] && (forall k | k in keys :: GoodKey(k)) && Join(keys, '.') == path
  {
    JoinSplit(path, '.');
  }

  // ---- get, set, remove ----

  function Get(t: Tree, keys: seq<string>): Option<Tree>
    decreases |keys|
  {
    if keys == [] then Some(t)
    else if t.Branch? && keys[0] in t.entries then Get(t.entries[keys[0]], keys[1..])
    else None
  }

  /** The dictionary that `set` goes on in: what is there, or a new one replacing it. */
  function Inside(m: map<string, Tree>, k: string): map<string, Tree> {
    if k in m && m[k].Branch? then m[k].entries else map[]
  }

  function Set(m: map<string, Tree>, keys: seq<string>, v: Tree): map<string, Tree>
    requires keys != []
    decreases |keys|
  {
    if |keys| == 1 then m[keys[0] := v]
    else m[keys[0] := Branch(Set(Inside(m, keys[0]), keys[1..], v))]
  }

  /** What is left and what was there; None where `remove` raises. */
  function Remove(m: map<string, Tree>, keys: seq<string>): Option<(map<string, Tree>, Tree)>
    requires keys != []
    decreases |keys|
  {
    if keys[0] !in m then None
    else if |keys| == 1 then Some((m - {keys[0]}, m[keys[0]]))
    else if !m[keys[0]].Branch? then None
    else
      match Remove(m[keys[0]].entries, keys[1..])
      case None => None
      case Some((rest, v)) => Some((m[keys[0] := Branch(rest)], v))
  }

  /** Neither path leads through the other. */
  predicate Apart(p: seq<string>, q: seq<string>) { !(p <= q) && !(q <= p) }

  /** After `set`, the path and everything below it read the new value; paths apart from it read as before. */
  lemma {:induction false} GetAfterSet(m: map<string, Tree>, keys: seq<string>, v: Tree, p: seq<string>)
    requires keys != []
    ensures keys <= p ==> Get(Branch(Set(m, keys, v)), p) == Get(v, p[|keys|..])
    ensures Apart(keys, p) ==> Get(Branch(Set(m, keys, v)), p) == Get(Branch(m), p)
    decreases |keys|
  {
    if p != [] && p[0] == keys[0] {
      Unfold(keys, p);
      if |keys| > 1 {
        GetAfterSet(Inside(m, keys[0]), keys[1..], v, p[1..]);
      }
    }
  }

  lemma Unfold(p: seq<string>, q: seq<string>)
    requires p != [] && q != [] && p[0] == q[0]
    ensures (p <= q <==> p[1..] <= q[1..]) && (q <= p <==> q[1..] <= p[1..])
    ensures p <= q ==> q[|p|..] == q[1..][|p[1..]|..]
  {
    assert p == [p[0]] + p[1..] && q == [q[0]] + q[1..];
  }

  /** Paths above the one set read as dictionaries that were there or were put in place of something else. */
  lemma {:induction false} GetAboveSet(m: map<string, Tree>, keys: seq<string>, v: Tree, n: nat)
    requires n < |keys|
    ensures var above := Get(Branch(m), keys[..n]);
      Get(Branch(Set(m, keys, v)), keys[..n]) ==
        Some(Branch(Set(if above.Some? && above.value.Branch? then above.value.entries else map[], keys[n..], v)))
    decreases n
  {
    if n > 0 {
      assert keys[..n][0] == keys[0] && keys[..n][1..] == keys[1..][..n - 1] && keys[1..][n - 1..] == keys[n..];
      GetAboveSet(Inside(m, keys[0]), keys[1..], v, n - 1);
      if keys[0] !in m || !m[keys[0]].Branch? {
        NothingInside(keys[1..][..n - 1]);
      }
    } else {
      assert keys[..0] == [] && keys[0..] == keys;
    }
  }

  lemma NothingInside(p: seq<string>)
    ensures Get(Branch(map[]), p) == if p == [] then Some(Branch(map[])) else None
  {}

  /** `remove` raises exactly when the path reads nothing; otherwise it returns what was read there, and setting
      that again restores the tree. */
  lemma {:induction false} RemoveThenSet(m: map<string, Tree>, keys: seq<string>)
    requires keys != []
    ensures match Remove(m, keys)
      case None => Get(Branch(m), keys) == None
      case Some((rest, v)) => Get(Branch(m), keys) == Some(v) && Set(rest, keys, v) == m
    decreases |keys|
  {
    if keys[0] in m {
      if |keys| == 1 {
        assert keys[1..] == [];
        assert (m - {keys[0]})[keys[0] := m[keys[0]]] == m;
      } else if m[keys[0]].Branch? {
        RemoveThenSet(m[keys[0]].entries, keys[1..]);
        if Remove(m[keys[0]].entries, keys[1..]).Some? {
          var (rest, v) := Remove(m[keys[0]].entries, keys[1..]).value;
          assert m[keys[0] := Branch(rest)][keys[0] := m[keys[0]]] == m;
        }
      }
    }
  }

  /** After `remove`, nothing is read at or below the path; paths apart from it read as before. */
  lemma {:induction false} GetAfterRemove(m: map<string, Tree>, keys: seq<string>, p: seq<string>)
    requires keys != [] && Remove(m, keys).Some?
    ensures var rest := Remove(m, keys).value.0;
      && (keys <= p ==> Get(Branch(rest), p) == None)
      && (Apart(keys, p) ==> Get(Branch(rest), p) == Get(Branch(m), p))
    decreases |keys|
  {
    if p != [] && p[0] == keys[0] {
      Unfold(keys, p);
      if |keys| > 1 { GetAfterRemove(m[keys[0]].entries, keys[1..], p[1..]); }
    }
  }

  // ---- merge ----

  /** `_merge_dicts` on trees: dictionaries merge key by key, anything else is replaced by the source. */
  function Merge(target: Tree, source: Tree): Tree
    decreases source
  {
    if target.Branch? && source.Branch? then
      Branch(map k | k in target.entries.Keys + source.entries.Keys ::
        if k !in source.entries then target.entries[k]
        else if k !in target.entries then source.entries[k]
        else Merge(target.entries[k], source.entries[k]))
    else source
  }

  /** The source has a leaf on the way to p, before its end. */
  predicate Shadowed(source: Tree, p: seq<string>)
    decreases |p|
  {
    p != [] && (source.Leaf? || (p[0] in source.entries && Shadowed(source.entries[p[0]], p[1..])))
  }

  /** What every path reads after a merge, from what it reads in the two trees. */
  lemma {:induction false} MergeLookup(target: Tree, source: Tree, p: seq<string>)
    ensures var was, given := Get(target, p), Get(source, p);
      Get(Merge(target, source), p) ==
        if given.Some? then (if was.Some? then Some(Merge(was.value, given.value)) else given)
        else if Shadowed(source, p) then None else was
    decreases |p|
  {
    if p != [] && source.Branch? {
      var k, rest := p[0], p[1..];
      if k in source.entries && target.Branch? && k in target.entries {
        MergeLookup(target.entries[k], source.entries[k], rest);
      }
      if k in source.entries && !(target.Branch? && k in target.entries) {
        ShadowedReadsNothing(source.entries[k], rest);
      }
    }
  }

  lemma {:induction false} ShadowedReadsNothing(t: Tree, p: seq<string>)
    ensures Shadowed(t, p) ==> Get(t, p) == None
    decreases |p|
  {
    if p != [] && t.Branch? && p[0] in t.entries { ShadowedReadsNothing(t.entries[p[0]], p[1..]); }
  }

  /** Every leaf of the source is read at its path after the merge. */
  lemma MergeKeepsLeaves(target: Tree, source: Tree, p: seq<string>)
    requires Get(source, p).Some? && Get(source, p).value.Leaf?
    ensures Get(Merge(target, source), p) == Get(source, p)
  {
    MergeLookup(target, source, p);
  }

  /** Merging the same tree twice is merging it once. */
  lemma {:induction false} MergeTwice(target: Tree, source: Tree)
    ensures Merge(Merge(target, source), source) == Merge(target, source)
    decreases source
  {
    MergeSelf(source);
    if target.Branch? && source.Branch? {
      var once := Merge(target, source);
      forall k | k in target.entries && k in source.entries
        ensures Merge(once.entries[k], source.entries[k]) == once.entries[k]
      {
        MergeTwice(target.entries[k], source.entries[k]);
      }
      forall k | k !in target.entries && k in source.entries
        ensures Merge(once.entries[k], source.entries[k]) == once.entries[k]
      {
        MergeSelf(source.entries[k]);
      }
      assert Merge(once, source).entries == once.entries;
    }
  }

  lemma {:induction false} MergeSelf(t: Tree)
    ensures Merge(t, t) == t
    decreases t
  {
    if t.Branch? {
      forall k | k in t.entries ensures Merge(t.entries[k], t.entries[k]) == t.entries[k] { MergeSelf(t.entries[k]); }
      assert Merge(t, t).entries == t.entries;
    }
  }
}
