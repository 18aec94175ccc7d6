/** Cache keys and the in-memory cache store (pkg/services/cache.go), one client operation at a time. */
module CacheKeys {

  function CacheKey(group: string, key: string): string {
    if group != "" then group + "::" + key else key
  }

  /** A group stands in front of the key, with two colons between them; without a group the key stands alone. */
  lemma KeyParts(group: string, key: string)
    ensures group == "" ==> CacheKey(group, key) == key
    ensures group != "" ==>
              var k := CacheKey(group, key);
              && |k| == |group| + 2 + |key|
              && k[..|group|] == group && k[|group|..|group| + 2] == "::" && k[|group| + 2..] == key
  {
  }

  /** Two groups, both non-empty, share a cache key for some pair of keys if and only if one of the
      strings group + "::" is a prefix of the other. */
  lemma GroupsCollide(group: string, group': string)
    requires group != "" && group' != ""
    ensures (exists key, key' :: CacheKey(group, key) == CacheKey(group', key'))
       <==> group + "::" <= group' + "::" || group' + "::" <= group + "::"
  {
    var p, p' := group + "::", group' + "::";
    forall key, key' | CacheKey(group, key) == CacheKey(group', key')
      ensures p <= p' || p' <= p
    {
      var whole := p + key;
      assert whole == p' + key';
      assert whole[..|p|] == p && whole[..|p'|] == p';
      if |p| <= |p'| {
        assert whole[..|p'|][..|p|] == p;
      } else {
        assert whole[..|p|][..|p'|] == p';
      }
    }
    if p <= p' {
      assert CacheKey(group, p'[|p|..]) == CacheKey(group', "");
    } else if p' <= p {
      assert CacheKey(group, "") == CacheKey(group', p[|p'|..]);
    }
  }

  /** Over colon-free, non-empty groups the cache key determines both group and key. */
  lemma KeyIsInjective(group: string, key: string, group': string, key': string)
    requires group != "" && group' != "" && ':' !in group && ':' !in group'
    ensures CacheKey(group, key) == CacheKey(group', key') <==> group == group' && key == key'
  {
    if CacheKey(group, key) == CacheKey(group', key') {
      var whole := group + "::" + key;
      assert whole == group' + "::" + key';
      FirstColon(group, "::" + key);
      FirstColon(group', "::" + key');
      assert group + ("::" + key) == whole && group' + ("::" + key') == whole;
      assert group == whole[..|group|] && group' == whole[..|group'|];
      assert key == whole[|group| + 2..] && key' == whole[|group'| + 2..];
    }
  }

  /** The first colon of a colon-free string followed by "::..." is right behind that string. */
  function ColonAt(s: string): nat {
    if s == "" || s[0] == ':' then 0 else 1 + ColonAt(s[1..])
  }

  lemma {:induction false} FirstColon(a: string, rest: string)
    requires ':' !in a && rest != "" && rest[0] == ':'
    ensures ColonAt(a + rest) == |a|
  {
    if a == "" {
      assert a + rest == rest;
    } else {
      assert (a + rest)[1..] == a[1..] + rest;
      assert a == [a[0]] + a[1..];
      FirstColon(a[1..], rest);
    }
  }
}

module CacheStore {
  import opened Common
  import opened TagIndexing
  import opened CacheKeys

  /** What a client can observe of one key: its value, and the tags that would flush it. */
  datatype Entry<V> = Entry(value: V, tags: set<string>)

  /** When the deletion listener hears that `store.Set` replaced a value: never, before `setTags` runs,
      or after it. The listener runs on its own, and nothing in `set` orders the two. */
  datatype Notice = Never | BeforeTagging | AfterTagging

  /** What the library answers to one `store.Set`: whether the value was stored, which other keys it
      evicted to make room, and when the listener hears of a replaced value. */
  datatype SetOutcome = SetOutcome(added: bool, evicted: set<string>, notice: Notice)

  /** The tags of a key once `set` is over and its notifications are delivered. */
  ghost function TagsAfterSet<V>(entries: map<string, Entry<V>>, key: string, tags: seq<string>, o: SetOutcome)
    : set<string>
  {
    if key !in entries then Elems(tags)
    else match o.notice
      case Never => entries[key].tags + Elems(tags)
      case BeforeTagging => Elems(tags)
      case AfterTagging => {}
  }

  ghost function Stored<V>(entries: map<string, Entry<V>>, key: string, value: V, tags: seq<string>, o: SetOutcome)
    : map<string, Entry<V>>
  {
    (entries - o.evicted)[key := Entry(value, TagsAfterSet(entries, key, tags, o))]
  }

  /** The entries with the tags of one key replaced. */
  ghost function Retagged<V>(entries: map<string, Entry<V>>, key: string, tags: set<string>): map<string, Entry<V>> {
    if key in entries then entries[key := entries[key].(tags := tags)] else entries
  }

  /** The simple map after a flush: the named key and every entry carrying one of the tags are gone. */
  ghost function Flushed<V>(entries: map<string, Entry<V>>, key: string, tags: seq<string>): map<string, Entry<V>> {
    map k | k in entries && (key != "" ==> k != key) && entries[k].tags !! Elems(tags) :: entries[k]
  }

  class InMemoryCacheStore<V> {
    var store: map<string, V>
    const tagIndex: TagIndex

    constructor ()
      ensures Valid() && fresh(tagIndex) && Entries() == map[]
    {
      store := map[];
      tagIndex := new TagIndex();
    }

    /** Every indexed key is live. */
    ghost predicate Valid()
      reads this, tagIndex
    {
      WellFormed(tagIndex.Snapshot()) && tagIndex.keys.Keys <= store.Keys
    }

    ghost function Entries(): map<string, Entry<V>>
      reads this, tagIndex
    {
      map k | k in store :: Entry(store[k], RowOf(tagIndex.keys, k))
    }

    /** The library drops entries on its own (eviction, expiry) and tells the listener. */
    method Evict(gone: set<string>)
      requires Valid()
      modifies this, tagIndex
      ensures Valid() && Entries() == old(Entries()) - gone
    {
      var pending := gone;
      while pending != {}
        invariant pending <= gone && Valid()
        invariant Entries() == old(Entries()) - (gone - pending)
      {
        var key :| key in pending;
        StoreDelete(key);
        pending := pending - {key};
      }
    }

    /** `store.Delete`: the deletion listener hears about a key that was present. */
    method StoreDelete(key: string)
      requires Valid()
      modifies this, tagIndex
      ensures Valid() && Entries() == old(Entries()) - {key}
    {
      if key in store {
        ghost var before := tagIndex.Snapshot();
        store := store - {key};
        PurgeKeysPairs(before, [key]);
        tagIndex.PurgeKeys([key]);
        RowsAfterPurge(before, tagIndex.Snapshot(), {key});
      }
    }

    /** With `added`, the store refines the map update Stored, and the key carries the given tags exactly
        when no notification about a replaced value came after the tagging. Without `added` the key is
        tagged all the same, so "every indexed key is live" survives exactly when that was harmless. */
    method Set(group: string, key: string, value: V, tags: seq<string>, o: SetOutcome) returns (ok: bool)
      requires Valid() && CacheKey(group, key) !in o.evicted
      modifies this, tagIndex
      ensures ok == o.added
      ensures o.added ==> Valid() && Entries() == Stored(old(Entries()), CacheKey(group, key), value, tags, o)
      ensures o.added && tags != [] ==>
                (Elems(tags) <= RowOf(tagIndex.keys, CacheKey(group, key)) <==>
                 !(CacheKey(group, key) in old(store) && o.notice.AfterTagging?))
      ensures !o.added ==> (Valid() <==> tags == [] || CacheKey(group, key) in old(store))
    {
      var k := CacheKey(group, key);
      var replaced := StoreSet(k, value, o);
      if replaced && o.notice.BeforeTagging? {
        Notify(k);
      }
      if tags != [] {
        Tag(k, tags);
      }
      if replaced && o.notice.AfterTagging? {
        Notify(k);
      }
      StoredInSteps(old(Entries()), k, value, tags, o);
      StoredTags(old(Entries()), k, value, tags, o);
      assert o.added ==> Entries()[k].tags == RowOf(tagIndex.keys, k);
      return o.added;
    }

    /** The deletion listener is told that a value of `k` was replaced. */
    method Notify(k: string)
      requires Valid()
      modifies tagIndex
      ensures Valid() && Entries() == Retagged(old(Entries()), k, {})
    {
      ghost var before := tagIndex.Snapshot();
      PurgeKeysPairs(before, [k]);
      tagIndex.PurgeKeys([k]);
      RowsAfterPurge(before, tagIndex.Snapshot(), {k});
    }

    /** `setTags` on a valid store. */
    method Tag(k: string, tags: seq<string>)
      requires Valid() && tags != []
      modifies tagIndex
      ensures Valid() <==> k in store
      ensures k in store ==> Entries() == Retagged(old(Entries()), k, old(Entries())[k].tags + Elems(tags))
    {
      ghost var before := tagIndex.Snapshot();
      SetTagsPairs(before, k, tags);
      tagIndex.SetTags(k, tags);
      RowsAfterTagging(before, tagIndex.Snapshot(), k, tags);
    }

    /** `store.Set` itself, which may evict other entries to make room. */
    method StoreSet(k: string, value: V, o: SetOutcome) returns (replaced: bool)
      requires Valid() && k !in o.evicted
      modifies this, tagIndex
      ensures Valid() && replaced == (o.added && k in old(store))
      ensures store.Keys == old(store).Keys - o.evicted + (if o.added then {k} else {})
      ensures o.added ==> Entries() == (old(Entries()) - o.evicted)[k :=
                            Entry(value, if k in old(store) then old(Entries())[k].tags else {})]
    {
      Evict(o.evicted);
      assert Entries().Keys == store.Keys && old(Entries()).Keys == old(store).Keys;
      replaced := o.added && k in store;
      if o.added {
        Put(k, value);
      }
    }

    method Put(k: string, value: V)
      requires Valid()
      modifies this`store
      ensures Valid() && store.Keys == old(store).Keys + {k}
      ensures Entries() == old(Entries())[k := Entry(value, if k in old(store) then old(Entries())[k].tags else {})]
    {
      store := store[k := value];
    }

    method Flush(group: string, key: string, tags: seq<string>)
      requires Valid()
      modifies this, tagIndex
      ensures Valid() && Entries() == Flushed(old(Entries()), CacheKey(group, key), tags)
    {
      var keys := [];
      var k := CacheKey(group, key);
      if k != "" {
        keys := keys + [k];
      }
      if tags != [] {
        var purged := Untag(tags);
        keys := keys + purged;
      }
      ghost var untagged := Entries();
      assert untagged.Keys == old(Entries()).Keys;
      DeleteAll(keys);
      ghost var last := tagIndex.Snapshot();
      PurgeKeysPairs(last, keys);
      tagIndex.PurgeKeys(keys);
      RowsAfterPurge(last, tagIndex.Snapshot(), Elems(keys));
      assert Entries() == untagged - Elems(keys);
      FlushedIs(old(Entries()), untagged, k, tags, Elems(keys));
    }

    /** `purgeTags` on a valid store. */
    method Untag(tags: seq<string>) returns (purged: seq<string>)
      requires Valid()
      modifies tagIndex
      ensures Valid()
      ensures Entries() == map x | x in old(Entries()) ::
                old(Entries())[x].(tags := old(Entries())[x].tags - Elems(tags))
      ensures forall k :: k in purged ==> k in old(Entries())
      ensures forall k | k in old(Entries()) :: k in purged <==> old(Entries())[k].tags * Elems(tags) != {}
    {
      ghost var before := tagIndex.Snapshot();
      PurgeTagsPairs(before, tags);
      purged := tagIndex.PurgeTags(tags);
      NamedKeys(before, tags, purged);
      RowsAfterUntag(before, tagIndex.Snapshot(), tags);
    }

    /** The loop of `flush` over the keys it collected. */
    method DeleteAll(keys: seq<string>)
      requires Valid()
      modifies this, tagIndex
      ensures Valid() && Entries() == old(Entries()) - Elems(keys)
    {
      var n := 0;
      while n < |keys|
        invariant n <= |keys| && Valid()
        invariant Entries() == old(Entries()) - Elems(keys[..n])
      {
        StoreDelete(keys[n]);
        assert Elems(keys[..n + 1]) == Elems(keys[..n]) + {keys[n]};
        n := n + 1;
      }
      assert keys[..n] == keys;
    }
  }

  // ------------------------------------------------------------------ from pairs back to rows

  lemma RowHas(m: Rows, x: string)
    ensures forall y :: y in RowOf(m, x) <==> Has(m, x, y)
  {
  }

  lemma RowsAfterPurge(ix: Index, after: Index, gone: set<string>)
    requires WellFormed(after)
    requires forall k, t :: Has(after.keys, k, t) <==> Has(ix.keys, k, t) && k !in gone
    ensures forall k | k !in gone :: RowOf(after.keys, k) == RowOf(ix.keys, k)
    ensures after.keys.Keys <= ix.keys.Keys - gone
  {
    forall k | k !in gone
      ensures RowOf(after.keys, k) == RowOf(ix.keys, k)
    {
      RowHas(after.keys, k);
      RowHas(ix.keys, k);
    }
    forall k | k in after.keys
      ensures k in ix.keys && k !in gone
    {
      var t :| t in after.keys[k];
      assert Has(after.keys, k, t);
    }
  }

  lemma RowsAfterTagging(ix: Index, after: Index, key: string, tags: seq<string>)
    requires WellFormed(after)
    requires forall k, t :: Has(after.keys, k, t) <==> Has(ix.keys, k, t) || (k == key && t in tags)
    ensures forall k :: RowOf(after.keys, k) == if k == key then RowOf(ix.keys, k) + Elems(tags) else RowOf(ix.keys, k)
    ensures after.keys.Keys <= ix.keys.Keys + {key}
    ensures tags != [] ==> key in after.keys
  {
    forall k
      ensures RowOf(after.keys, k) == if k == key then RowOf(ix.keys, k) + Elems(tags) else RowOf(ix.keys, k)
    {
      RowHas(after.keys, k);
      RowHas(ix.keys, k);
    }
    forall k | k in after.keys && k != key
      ensures k in ix.keys
    {
      var t :| t in after.keys[k];
      assert Has(after.keys, k, t);
    }
    if tags != [] {
      assert tags[0] in tags && Has(after.keys, key, tags[0]);
    }
  }

  lemma RowsAfterUntag(ix: Index, after: Index, tags: seq<string>)
    requires WellFormed(after)
    requires forall k, t :: Has(after.keys, k, t) <==> Has(ix.keys, k, t) && t !in tags
    ensures forall k :: RowOf(after.keys, k) == RowOf(ix.keys, k) - Elems(tags)
    ensures after.keys.Keys <= ix.keys.Keys
  {
    forall k
      ensures RowOf(after.keys, k) == RowOf(ix.keys, k) - Elems(tags)
    {
      RowHas(after.keys, k);
      RowHas(ix.keys, k);
    }
    forall k | k in after.keys
      ensures k in ix.keys
    {
      var t :| t in after.keys[k];
      assert Has(after.keys, k, t);
    }
  }

  /** The keys a tag purge returns are those carrying at least one of the tags. */
  lemma NamedKeys(ix: Index, tags: seq<string>, purged: seq<string>)
    requires Mirror(ix) && multiset(purged) == PurgedKeys(ix, tags)
    ensures forall k :: k in purged <==> RowOf(ix.keys, k) * Elems(tags) != {}
  {
    forall k
      ensures k in purged <==> RowOf(ix.keys, k) * Elems(tags) != {}
    {
      PurgedMultiplicity(ix, tags, k);
      RowHas(ix.keys, k);
      assert (set t | t in tags && Has(ix.keys, k, t)) == RowOf(ix.keys, k) * Elems(tags);
      assert k in purged <==> multiset(purged)[k] > 0;
    }
  }

  lemma FlushedIs<V>(entries: map<string, Entry<V>>, untagged: map<string, Entry<V>>, key: string, tags: seq<string>,
                     gone: set<string>)
    requires untagged.Keys == entries.Keys
    requires forall k | k in entries :: untagged[k] == Entry(entries[k].value, entries[k].tags - Elems(tags))
    requires forall k | k in entries :: k in gone <==> (key != "" && k == key) || entries[k].tags * Elems(tags) != {}
    ensures untagged - gone == Flushed(entries, key, tags)
  {
    forall k | k in entries
      ensures k in Flushed(entries, key, tags) <==> k !in gone
    {
      assert forall t | t in entries[k].tags && t in Elems(tags) :: t in entries[k].tags * Elems(tags);
    }
    forall k | k in entries && k !in gone
      ensures untagged[k] == entries[k]
    {
      assert forall t | t in entries[k].tags :: t in Elems(tags) ==> t in entries[k].tags * Elems(tags);
      assert entries[k].tags - Elems(tags) == entries[k].tags;
    }
  }

  /** The steps of `set` add up to Stored. */
  lemma StoredInSteps<V>(entries: map<string, Entry<V>>, key: string, value: V, tags: seq<string>, o: SetOutcome)
    requires key !in o.evicted
    ensures var put := (entries - o.evicted)[key := Entry(value, if key in entries then entries[key].tags else {})];
            var early := if key in entries && o.notice.BeforeTagging? then Retagged(put, key, {}) else put;
            var tagged := if tags != [] then Retagged(early, key, early[key].tags + Elems(tags)) else early;
            var late := if key in entries && o.notice.AfterTagging? then Retagged(tagged, key, {}) else tagged;
            late == Stored(entries, key, value, tags, o)
  {
    assert Elems<string>([]) == {};
    if key in entries {
      assert entries[key].tags + {} == entries[key].tags;
    }
    assert {} + Elems(tags) == Elems(tags);
  }

  // ------------------------------------------------------------------ laws a client relies on

  /** A key just set carries no tags but the given ones and its old ones. It carries all of the given
      ones if and only if it was not live before, or no notification about its replaced value came
      after the tagging. Every other surviving entry is untouched. */
  lemma StoredTags<V>(entries: map<string, Entry<V>>, key: string, value: V, tags: seq<string>, o: SetOutcome)
    requires key !in o.evicted
    ensures var after := Stored(entries, key, value, tags, o);
            && key in after && after[key].value == value
            && after[key].tags <= Elems(tags) + (if key in entries then entries[key].tags else {})
            && (tags != [] ==> (Elems(tags) <= after[key].tags <==> !(key in entries && o.notice.AfterTagging?)))
            && (key in entries && o.notice.Never? ==> after[key].tags == entries[key].tags + Elems(tags))
            && (key in entries && o.notice.AfterTagging? ==> after[key].tags == {})
            && (key !in entries || o.notice.BeforeTagging? ==> after[key].tags == Elems(tags))
            && (forall k | k != key :: k in after <==> k in entries && k !in o.evicted)
            && (forall k | k in after && k != key :: after[k] == entries[k])
  {
    if tags != [] {
      assert tags[0] in Elems(tags);
    }
  }

  /** After `Set`, a flush removes the entry exactly when it names it or one of its tags. A flush by a tag
      that was given misses the entry if and only if the tags were lost to a late notification. */
  lemma FlushAfterSet<V>(entries: map<string, Entry<V>>, key: string, value: V, tags: seq<string>, o: SetOutcome,
                         key': string, tags': seq<string>)
    requires key !in o.evicted
    ensures var stored := Stored(entries, key, value, tags, o);
            var after := Flushed(stored, key', tags');
            && (key in after <==> !(key' != "" && key' == key) && stored[key].tags !! Elems(tags'))
            && (key in after ==> after[key] == stored[key])
            && (key' != key && (exists t :: t in tags && t in tags') ==>
                  (key in after <==> key in entries && o.notice.AfterTagging?))
            && Flushed(after, key', tags') == after
  {
    var stored := Stored(entries, key, value, tags, o);
    if t :| t in tags && t in tags' {
      assert t in Elems(tags) && t in Elems(tags');
    }
  }
}
