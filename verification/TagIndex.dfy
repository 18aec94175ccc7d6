/** The tag index of the in-memory cache (pkg/services/cache.go): two nested maps, tag->keys and
    key->tags, that must stay mirror images of each other. */
module TagIndexing {

  /** A Go map[string]map[string]struct{}: each outer key owns a set of inner keys. */
  type Rows = map<string, set<string>>

  datatype Index = Index(tags: Rows, keys: Rows)

  const EMPTY := Index(map[], map[])

  predicate Has(m: Rows, x: string, y: string) {
    x in m && y in m[x]
  }

  ghost predicate Mirror(ix: Index) {
    forall k: string, t: string :: Has(ix.keys, k, t) <==> Has(ix.tags, t, k)
  }

  predicate NoEmptyRow(m: Rows) {
    forall x | x in m :: m[x] != {}
  }

  ghost predicate WellFormed(ix: Index) {
    Mirror(ix) && NoEmptyRow(ix.tags) && NoEmptyRow(ix.keys)
  }

  // ------------------------------------------------------------------ what each operation does

  /** `delete(m[x], y)`, then `delete(m, x)` when that row became empty. */
  function DropPair(m: Rows, x: string, y: string): Rows {
    if x !in m then m
    else if m[x] - {y} == {} then m - {x}
    else m[x := m[x] - {y}]
  }

  /** DropPair of `y` for every row named in `xs`; no iteration order is involved. */
  function DropEach(m: Rows, xs: set<string>, y: string): Rows {
    map x | x in m && (x in xs ==> m[x] - {y} != {}) :: if x in xs then m[x] - {y} else m[x]
  }

  function RowOf(m: Rows, x: string): set<string> {
    if x in m then m[x] else {}
  }

  function AddPair(ix: Index, key: string, tag: string): Index {
    Index(ix.tags[tag := RowOf(ix.tags, tag) + {key}], ix.keys[key := RowOf(ix.keys, key) + {tag}])
  }

  function AddPairs(ix: Index, key: string, given: seq<string>): Index
    decreases |given|
  {
    if given == [] then ix else AddPairs(AddPair(ix, key, given[0]), key, given[1..])
  }

  function AfterSetTags(ix: Index, key: string, given: seq<string>): Index {
    AddPairs(ix.(keys := ix.keys[key := RowOf(ix.keys, key)]), key, given)
  }

  function DropTag(ix: Index, tag: string): Index {
    if tag in ix.tags then Index(ix.tags - {tag}, DropEach(ix.keys, ix.tags[tag], tag)) else ix
  }

  function DropKey(ix: Index, key: string): Index {
    if key in ix.keys then Index(DropEach(ix.tags, ix.keys[key], key), ix.keys - {key}) else ix
  }

  function AfterPurgeTags(ix: Index, given: seq<string>): Index
    decreases |given|
  {
    if given == [] then ix else AfterPurgeTags(DropTag(ix, given[0]), given[1..])
  }

  /** The keys that `purgeTags` returns, with their multiplicity. */
  function PurgedKeys(ix: Index, given: seq<string>): multiset<string>
    decreases |given|
  {
    if given == [] then multiset{}
    else multiset(RowOf(ix.tags, given[0])) + PurgedKeys(DropTag(ix, given[0]), given[1..])
  }

  function AfterPurgeKeys(ix: Index, given: seq<string>): Index
    decreases |given|
  {
    if given == [] then ix else AfterPurgeKeys(DropKey(ix, given[0]), given[1..])
  }

  // ------------------------------------------------------------------ the code

  class TagIndex {
    var tags: Rows
    var keys: Rows

    constructor ()
      ensures Snapshot() == EMPTY
    {
      tags, keys := map[], map[];
    }

    function Snapshot(): Index
      reads this
    {
      Index(tags, keys)
    }

    method SetTags(key: string, given: seq<string>)
      modifies this
      ensures Snapshot() == AfterSetTags(old(Snapshot()), key, given)
    {
      if key !in keys {
        keys := keys[key := {}];
      }
      assert keys == old(keys)[key := RowOf(old(keys), key)];
      assert given[0..] == given;
      var n := 0;
      while n < |given|
        invariant n <= |given| && key in keys
        invariant AddPairs(Snapshot(), key, given[n..]) == AfterSetTags(old(Snapshot()), key, given)
      {
        AddPairsNext(Snapshot(), key, given, n);
        Link(key, given[n]);
        n := n + 1;
      }
    }

    /** The loop body of `setTags`. */
    method Link(key: string, tag: string)
      requires key in keys
      modifies this
      ensures key in keys && Snapshot() == AddPair(old(Snapshot()), key, tag)
    {
      if tag !in tags {
        tags := tags[tag := {}];
      }
      tags := tags[tag := tags[tag] + {key}];
      keys := keys[key := keys[key] + {tag}];
    }

    method PurgeTags(given: seq<string>) returns (purged: seq<string>)
      modifies this
      ensures Snapshot() == AfterPurgeTags(old(Snapshot()), given)
      ensures multiset(purged) == PurgedKeys(old(Snapshot()), given)
    {
      purged := [];
      assert given[0..] == given;
      var n := 0;
      while n < |given|
        invariant n <= |given|
        invariant AfterPurgeTags(Snapshot(), given[n..]) == AfterPurgeTags(old(Snapshot()), given)
        invariant multiset(purged) + PurgedKeys(Snapshot(), given[n..]) == PurgedKeys(old(Snapshot()), given)
      {
        var tag := given[n];
        ghost var before := Snapshot();
        PurgeTagsNext(before, given, n);
        if tag in tags {
          var tagKeys := tags[tag];
          tags := tags - {tag};
          var untagged := Untag(tagKeys, tag);
          purged := purged + untagged;
        }
        assert Snapshot() == DropTag(before, tag);
        n := n + 1;
      }
    }

    /** The inner loop of `purgeTags`: the map range visits the row in any order. */
    method Untag(tagKeys: set<string>, tag: string) returns (untagged: seq<string>)
      modifies this`keys
      ensures keys == DropEach(old(keys), tagKeys, tag)
      ensures multiset(untagged) == multiset(tagKeys)
    {
      untagged := [];
      var pending := tagKeys;
      assert tagKeys - pending == {};
      while pending != {}
        invariant pending <= tagKeys
        invariant keys == DropEach(old(keys), tagKeys - pending, tag)
        invariant multiset(untagged) == multiset(tagKeys - pending)
      {
        var key :| key in pending;
        ghost var done := tagKeys - pending;
        DropEachNext(old(keys), done, key, tag);
        OneMore(done, key);
        Unlink(key, tag);
        untagged := untagged + [key];
        pending := pending - {key};
        assert tagKeys - pending == done + {key};
      }
      assert tagKeys - pending == tagKeys;
    }

    /** `delete(i.keys[key], tag)` and the deletion of the emptied row. */
    method Unlink(key: string, tag: string)
      modifies this`keys
      ensures keys == DropPair(old(keys), key, tag)
    {
      if key in keys {
        keys := keys[key := keys[key] - {tag}];
        if keys[key] == {} {
          keys := keys - {key};
        }
      }
    }

    /** The inner loop of `purgeKeys`: the map range visits the row in any order. */
    method Unlist(keyTags: set<string>, key: string)
      modifies this`tags
      ensures tags == DropEach(old(tags), keyTags, key)
    {
      var pending := keyTags;
      assert keyTags - pending == {};
      while pending != {}
        invariant pending <= keyTags
        invariant tags == DropEach(old(tags), keyTags - pending, key)
      {
        var tag :| tag in pending;
        DropEachNext(old(tags), keyTags - pending, tag, key);
        if tag in tags {
          tags := tags[tag := tags[tag] - {key}];
          if tags[tag] == {} {
            tags := tags - {tag};
          }
        }
        assert keyTags - (pending - {tag}) == (keyTags - pending) + {tag};
        pending := pending - {tag};
      }
      assert keyTags - pending == keyTags;
    }

    method PurgeKeys(given: seq<string>)
      modifies this
      ensures Snapshot() == AfterPurgeKeys(old(Snapshot()), given)
    {
      var n := 0;
      while n < |given|
        invariant n <= |given|
        invariant AfterPurgeKeys(Snapshot(), given[n..]) == AfterPurgeKeys(old(Snapshot()), given)
      {
        var key := given[n];
        ghost var before := Snapshot();
        if key in keys {
          var keyTags := keys[key];
          keys := keys - {key};
          Unlist(keyTags, key);
        }
        assert Snapshot() == DropKey(before, key);
        PurgeKeysNext(before, given, n);
        n := n + 1;
      }
    }
  }

  // How one more turn of each outer loop advances its specification.

  lemma AddPairsNext(ix: Index, key: string, given: seq<string>, n: nat)
    requires n < |given|
    ensures AddPairs(ix, key, given[n..]) == AddPairs(AddPair(ix, key, given[n]), key, given[n + 1..])
  {
    assert given[n..][1..] == given[n + 1..];
  }

  lemma PurgeTagsNext(ix: Index, given: seq<string>, n: nat)
    requires n < |given|
    ensures AfterPurgeTags(ix, given[n..]) == AfterPurgeTags(DropTag(ix, given[n]), given[n + 1..])
    ensures PurgedKeys(ix, given[n..])
         == multiset(RowOf(ix.tags, given[n])) + PurgedKeys(DropTag(ix, given[n]), given[n + 1..])
  {
    assert given[n..][1..] == given[n + 1..];
  }

  lemma PurgeKeysNext(ix: Index, given: seq<string>, n: nat)
    requires n < |given|
    ensures AfterPurgeKeys(ix, given[n..]) == AfterPurgeKeys(DropKey(ix, given[n]), given[n + 1..])
  {
    assert given[n..][1..] == given[n + 1..];
  }

  lemma OneMore(done: set<string>, x: string)
    requires x !in done
    ensures multiset(done + {x}) == multiset(done) + multiset{x}
  {
  }

  lemma DropEachNext(m: Rows, done: set<string>, x: string, y: string)
    requires x !in done
    ensures DropEach(m, done + {x}, y) == DropPair(DropEach(m, done, y), x, y)
  {
  }

  // ------------------------------------------------------------------ each operation on key-tag pairs

  lemma DropEachHas(m: Rows, xs: set<string>, y: string, x: string, y': string)
    ensures Has(DropEach(m, xs, y), x, y') <==> Has(m, x, y') && !(x in xs && y' == y)
  {
    if Has(m, x, y') && y' != y {
      assert y' in m[x] - {y};
    }
  }

  lemma DropTagPairs(ix: Index, tag: string)
    requires Mirror(ix)
    ensures Mirror(DropTag(ix, tag))
    ensures forall k, t :: Has(DropTag(ix, tag).keys, k, t) <==> Has(ix.keys, k, t) && t != tag
    ensures WellFormed(ix) ==> WellFormed(DropTag(ix, tag))
  {
    var after := DropTag(ix, tag);
    forall k, t
      ensures Has(after.keys, k, t) <==> Has(ix.keys, k, t) && t != tag
      ensures Has(after.tags, t, k) <==> Has(ix.tags, t, k) && t != tag
    {
      assert Has(ix.keys, k, tag) <==> Has(ix.tags, tag, k);
      if tag in ix.tags {
        DropEachHas(ix.keys, ix.tags[tag], tag, k, t);
      }
    }
  }

  lemma DropKeyPairs(ix: Index, key: string)
    requires Mirror(ix)
    ensures Mirror(DropKey(ix, key))
    ensures forall k, t :: Has(DropKey(ix, key).keys, k, t) <==> Has(ix.keys, k, t) && k != key
    ensures WellFormed(ix) ==> WellFormed(DropKey(ix, key))
  {
    var after := DropKey(ix, key);
    forall k, t
      ensures Has(after.keys, k, t) <==> Has(ix.keys, k, t) && k != key
      ensures Has(after.tags, t, k) <==> Has(ix.tags, t, k) && k != key
    {
      assert Has(ix.keys, key, t) <==> Has(ix.tags, t, key);
      if key in ix.keys {
        DropEachHas(ix.tags, ix.keys[key], key, t, k);
      }
    }
  }

  lemma AddPairPairs(ix: Index, key: string, tag: string)
    requires Mirror(ix)
    ensures Mirror(AddPair(ix, key, tag))
    ensures forall k, t :: Has(AddPair(ix, key, tag).keys, k, t) <==> Has(ix.keys, k, t) || (k == key && t == tag)
  {
    var after := AddPair(ix, key, tag);
    forall k, t
      ensures Has(after.keys, k, t) <==> Has(ix.keys, k, t) || (k == key && t == tag)
      ensures Has(after.tags, t, k) <==> Has(ix.tags, t, k) || (k == key && t == tag)
    {
    }
  }

  lemma {:induction false} AddPairsPairs(ix: Index, key: string, given: seq<string>)
    requires Mirror(ix) && NoEmptyRow(ix.tags)
    requires forall x | x in ix.keys && x != key :: ix.keys[x] != {}
    ensures var after := AddPairs(ix, key, given);
            && Mirror(after) && NoEmptyRow(after.tags)
            && (forall k, t :: Has(after.keys, k, t) <==> Has(ix.keys, k, t) || (k == key && t in given))
            && (forall x | x in after.keys && x != key :: after.keys[x] != {})
            && (key in ix.keys ==> key in after.keys)
    decreases |given|
  {
    if given != [] {
      var next := AddPair(ix, key, given[0]);
      AddPairPairs(ix, key, given[0]);
      AddPairsPairs(next, key, given[1..]);
      assert given == [given[0]] + given[1..];
    }
  }

  /** `setTags` adds exactly the pairs (key, t) for the given t. It keeps the index free of empty
      rows if and only if the caller gives at least one tag or the key already had one. */
  lemma SetTagsPairs(ix: Index, key: string, given: seq<string>)
    requires WellFormed(ix)
    ensures var after := AfterSetTags(ix, key, given);
            && Mirror(after)
            && (forall k, t :: Has(after.keys, k, t) <==> Has(ix.keys, k, t) || (k == key && t in given))
            && (WellFormed(after) <==> given != [] || key in ix.keys)
  {
    var start := ix.(keys := ix.keys[key := RowOf(ix.keys, key)]);
    assert forall k, t :: Has(start.keys, k, t) <==> Has(ix.keys, k, t);
    AddPairsPairs(start, key, given);
    var after := AfterSetTags(ix, key, given);
    if given != [] {
      assert given[0] in given && Has(after.keys, key, given[0]);
    } else if key in ix.keys {
      var t :| t in ix.keys[key];
      assert Has(ix.keys, key, t) && Has(after.keys, key, t);
    }
  }

  /** `purgeTags` removes exactly the pairs whose tag was given. */
  lemma {:induction false} PurgeTagsPairs(ix: Index, given: seq<string>)
    requires Mirror(ix)
    ensures var after := AfterPurgeTags(ix, given);
            && Mirror(after)
            && (forall k, t :: Has(after.keys, k, t) <==> Has(ix.keys, k, t) && t !in given)
            && (WellFormed(ix) ==> WellFormed(after))
    decreases |given|
  {
    if given != [] {
      DropTagPairs(ix, given[0]);
      PurgeTagsPairs(DropTag(ix, given[0]), given[1..]);
      assert given == [given[0]] + given[1..];
    }
  }

  /** `purgeKeys` removes exactly the pairs whose key was given. */
  lemma {:induction false} PurgeKeysPairs(ix: Index, given: seq<string>)
    requires Mirror(ix)
    ensures var after := AfterPurgeKeys(ix, given);
            && Mirror(after)
            && (forall k, t :: Has(after.keys, k, t) <==> Has(ix.keys, k, t) && k !in given)
            && (WellFormed(ix) ==> WellFormed(after))
    decreases |given|
  {
    if given != [] {
      DropKeyPairs(ix, given[0]);
      PurgeKeysPairs(DropKey(ix, given[0]), given[1..]);
      assert given == [given[0]] + given[1..];
    }
  }

  lemma GivenTags(m: Rows, m': Rows, tag: string, rest: seq<string>, k: string)
    requires forall t :: Has(m', k, t) <==> Has(m, k, t) && t != tag
    ensures (set t | t in [tag] + rest && Has(m, k, t))
         == (set t | t in rest && Has(m', k, t)) + if Has(m, k, tag) then {tag} else {}
  {
  }

  /** `purgeTags` returns a key once for every distinct given tag it carried: a repeated argument
      adds nothing. */
  lemma {:induction false} PurgedMultiplicity(ix: Index, given: seq<string>, k: string)
    requires Mirror(ix)
    ensures PurgedKeys(ix, given)[k] == |set t | t in given && Has(ix.keys, k, t)|
    decreases |given|
  {
    if given == [] {
      assert (set t | t in given && Has(ix.keys, k, t)) == {};
    } else {
      var tag, rest := given[0], given[1..];
      var next := DropTag(ix, tag);
      DropTagPairs(ix, tag);
      PurgedMultiplicity(next, rest, k);
      assert given == [tag] + rest;
      var later := set t | t in rest && Has(next.keys, k, t);
      assert Has(ix.keys, k, tag) <==> Has(ix.tags, tag, k);
      GivenTags(ix.keys, next.keys, tag, rest, k);
      assert tag !in later;
    }
  }

  // ------------------------------------------------------------------ canonicity and counting

  function Pairs(m: Rows): set<(string, string)> {
    set x, y | x in m && y in m[x] :: (x, y)
  }

  /** Whatever order the Go maps are walked in, a well-formed index is a function of its key-tag
      relation: two of them with the same pairs are the same index. */
  lemma RelationDeterminesIndex(ix: Index, ix': Index)
    requires WellFormed(ix) && WellFormed(ix')
    requires Pairs(ix.keys) == Pairs(ix'.keys)
    ensures ix == ix'
  {
    forall k, t
      ensures Has(ix.keys, k, t) <==> Has(ix'.keys, k, t)
      ensures Has(ix.tags, t, k) <==> Has(ix'.tags, t, k)
    {
      assert Has(ix.keys, k, t) <==> (k, t) in Pairs(ix.keys);
      assert Has(ix'.keys, k, t) <==> (k, t) in Pairs(ix'.keys);
    }
    SameRows(ix.keys, ix'.keys);
    forall t, k
      ensures Has(ix.tags, t, k) <==> Has(ix'.tags, t, k)
    {
      assert Has(ix.keys, k, t) <==> Has(ix'.keys, k, t);
    }
    SameRows(ix.tags, ix'.tags);
  }

  lemma SameRows(m: Rows, m': Rows)
    requires NoEmptyRow(m) && NoEmptyRow(m')
    requires forall x, y :: Has(m, x, y) <==> Has(m', x, y)
    ensures m == m'
  {
    forall x | x in m
      ensures x in m'
    {
      var y :| y in m[x];
      assert Has(m, x, y);
    }
    forall x | x in m'
      ensures x in m
    {
      var y :| y in m'[x];
      assert Has(m', x, y);
    }
    forall x | x in m
      ensures m[x] == m'[x]
    {
      assert forall y :: y in m[x] <==> Has(m, x, y);
      assert forall y :: y in m'[x] <==> Has(m', x, y);
    }
  }

  /** The sum of the sizes of all rows. */
  ghost function Total(m: Rows): nat {
    if m == map[] then 0
    else
      var x :| x in m;
      |m[x]| + Total(m - {x})
  }

  lemma {:induction false} TotalCountsPairs(m: Rows)
    ensures Total(m) == |Pairs(m)|
    decreases |m|
  {
    if m != map[] {
      var x :| x in m && Total(m) == |m[x]| + Total(m - {x});
      var row := set y | y in m[x] :: (x, y);
      TagCount(x, m[x]);
      assert Pairs(m) == Pairs(m - {x}) + row;
      assert Pairs(m - {x}) !! row;
      TotalCountsPairs(m - {x});
    } else {
      assert Pairs(m) == {};
    }
  }

  lemma {:induction false} TagCount(x: string, ys: set<string>)
    ensures |set y | y in ys :: (x, y)| == |ys|
    decreases ys
  {
    if ys == {} {
      assert (set y | y in ys :: (x, y)) == {};
    } else {
      var z :| z in ys;
      TagCount(x, ys - {z});
      assert (set y | y in ys :: (x, y)) == (set y | y in ys - {z} :: (x, y)) + {(x, z)};
    }
  }

  function Flip(r: set<(string, string)>): set<(string, string)> {
    set p | p in r :: (p.1, p.0)
  }

  lemma {:induction false} FlipCount(r: set<(string, string)>)
    ensures |Flip(r)| == |r|
    decreases r
  {
    if r != {} {
      var p :| p in r;
      FlipCount(r - {p});
      assert Flip(r) == Flip(r - {p}) + {(p.1, p.0)};
      assert (p.1, p.0) !in Flip(r - {p});
    }
  }

  /** Both nested maps hold the same number of entries: the number of key-tag pairs. */
  lemma BothSidesCountPairs(ix: Index)
    requires Mirror(ix)
    ensures Total(ix.tags) == Total(ix.keys) == |Pairs(ix.keys)|
  {
    forall k, t
      ensures (t, k) in Pairs(ix.tags) <==> (t, k) in Flip(Pairs(ix.keys))
    {
      assert (t, k) in Pairs(ix.tags) <==> Has(ix.tags, t, k);
      assert Has(ix.keys, k, t) <==> (k, t) in Pairs(ix.keys);
      assert (k, t) in Pairs(ix.keys) ==> (t, k) in Flip(Pairs(ix.keys));
    }
    assert Pairs(ix.tags) == Flip(Pairs(ix.keys));
    FlipCount(Pairs(ix.keys));
    TotalCountsPairs(ix.tags);
    TotalCountsPairs(ix.keys);
  }
}
