/** The signature cache: one bucket of entries for each model group. */
module SignatureCacheClass {
  import opened SignatureModel

  /** The group is a ghost constant: buckets of different groups are different objects. */
  class GroupCache {
    var entries: map<string, Entry>
    ghost const group: string

    constructor (ghost group: string)
      ensures entries == map[] && this.group == group
    {
      entries := map[];
      this.group := group;
    }

    /** Removes the expired entries. */
    method DropExpired(now: Instant) returns (isEmpty: bool)
      modifies this
      ensures entries == map k | k in old(entries) && !Expired(old(entries)[k], now) :: old(entries)[k]
      ensures isEmpty <==> entries == map[]
    {
      var todo := entries.Keys;
      while todo != {}
        invariant todo <= old(entries).Keys
        invariant entries == map k | k in old(entries) && (k in todo || !Expired(old(entries)[k], now)) ::
                  old(entries)[k]
        decreases todo
      {
        var k :| k in todo;
        if now - entries[k].stamp > TTL {
          entries := entries - {k};
        }
        todo := todo - {k};
      }
      isEmpty := |entries| == 0;
    }
  }

  /** The buckets hold the table. */
  ghost predicate Filed(groups: map<string, GroupCache>, table: Table, buckets: set<GroupCache>)
    reads buckets
  {
    && (forall g :: g in groups ==> groups[g] in buckets && groups[g].group == g)
    && (forall slot :: slot in table <==>
        slot.group in groups && groups[slot.group] in buckets && slot.hash in groups[slot.group].entries)
    && (forall slot :: slot in table ==> table[slot] == groups[slot.group].entries[slot.hash])
  }

  class SignatureCache {
    const hash: Hash
    var groups: map<string, GroupCache>
    ghost var table: Table
    ghost var buckets: set<GroupCache>

    constructor (hash: Hash)
      ensures Valid() && fresh(buckets) && table == map[] && this.hash == hash
    {
      this.hash := hash;
      groups, table, buckets := map[], map[], {};
    }

    ghost predicate Valid()
      reads this, buckets
    {
      Filed(groups, table, buckets)
    }

    method GetOrCreateGroup(group: string) returns (bucket: GroupCache)
      requires Valid()
      modifies this`groups, this`buckets
      ensures Valid() && group in groups && groups[group] == bucket && bucket in buckets
      ensures fresh(buckets - old(buckets)) && bucket.group == group
    {
      if group in groups {
        return groups[group];
      }
      bucket := new GroupCache(group);
      groups, buckets := groups[group := bucket], buckets + {bucket};
    }

    method CacheSignature(model: string, text: string, signature: string, now: Instant)
      requires Valid()
      modifies this, buckets
      ensures Valid() && fresh(buckets - old(buckets))
      ensures table == Cache(old(table), hash, model, text, signature, now)
    {
      if text == "" || signature == "" {
        return;
      }
      if |signature| < MinLength {
        return;
      }
      var bucket := GetOrCreateGroup(Group(model));
      bucket.entries := bucket.entries[hash(text) := Entry(signature, now)];
      table := table[Slot(Group(model), hash(text)) := Entry(signature, now)];
    }

    method GetCachedSignature(model: string, text: string, now: Instant) returns (r: string)
      requires Valid()
      modifies this, buckets
      ensures Valid() && buckets == old(buckets)
      ensures r == Got(old(table), hash, model, text, now)
      ensures table == Touched(old(table), hash, model, text, now)
    {
      var group := Group(model);
      if text == "" || group !in groups {
        return Missing(group);
      }
      var bucket := groups[group];
      var key := hash(text);
      ghost var slot := Slot(group, key);
      if key !in bucket.entries {
        return Missing(group);
      }
      var entry := bucket.entries[key];
      assert slot in table && table[slot] == entry;
      if now - entry.stamp > TTL {
        bucket.entries := bucket.entries - {key};
        table := table - {slot};
        return Missing(group);
      }
      entry := entry.(stamp := now);
      bucket.entries := bucket.entries[key := entry];
      table := table[slot := entry];
      r := entry.signature;
    }

    method ClearSignatureCache(model: string)
      requires Valid()
      modifies this
      ensures Valid() && buckets == old(buckets)
      ensures table == Cleared(old(table), model)
    {
      if model == "" {
        groups, table := map[], map[];
        return;
      }
      groups := groups - {Group(model)};
      table := Cleared(table, model);
    }

    /** The table when all but some groups have been purged. */
    ghost function PartlyPurged(t: Table, todo: set<string>, now: Instant): Table {
      map slot | slot in t && (slot.group in todo || !Expired(t[slot], now)) :: t[slot]
    }

    /** The table when one group has been purged. */
    ghost function GroupPurged(t: Table, group: string, now: Instant): Table {
      map slot | slot in t && (slot.group != group || !Expired(t[slot], now)) :: t[slot]
    }

    method DropFromGroup(group: string, now: Instant) returns (isEmpty: bool)
      requires Valid() && group in groups
      modifies this`table, groups[group]
      ensures Valid() && group in groups && (isEmpty <==> groups[group].entries == map[])
      ensures table == GroupPurged(old(table), group, now)
    {
      var bucket := groups[group];
      isEmpty := bucket.DropExpired(now);
      table := GroupPurged(table, group, now);
    }

    method RemoveEmpty(group: string)
      requires Valid() && group in groups && groups[group].entries == map[]
      modifies this`groups
      ensures Valid() && groups == old(groups) - {group}
    {
      assert forall slot: Slot :: slot in table ==> slot.group != group;
      groups := groups - {group};
    }

    method PurgeGroup(group: string, now: Instant)
      requires Valid() && group in groups
      modifies this`table, this`groups, groups[group]
      ensures Valid() && old(groups.Keys) - {group} <= groups.Keys
      ensures forall g :: g in groups ==> g in old(groups) && groups[g] == old(groups[g])
      ensures group in groups ==> groups[group].entries != map[]
      ensures table == GroupPurged(old(table), group, now)
    {
      var isEmpty := DropFromGroup(group, now);
      if isEmpty {
        RemoveEmpty(group);
      }
    }

    lemma PurgedFurther(t: Table, todo: set<string>, group: string, now: Instant)
      requires group in todo
      ensures GroupPurged(PartlyPurged(t, todo, now), group, now) == PartlyPurged(t, todo - {group}, now)
    {
    }

    /** Removes the expired entries of all groups, and the groups that become empty. */
    method PurgeExpiredCaches(now: Instant)
      requires Valid()
      modifies this, buckets
      ensures Valid() && buckets == old(buckets)
      ensures table == Purged(old(table), now)
      ensures forall g :: g in groups ==> groups[g].entries != map[]
    {
      var todo := groups.Keys;
      while todo != {}
        invariant Valid() && buckets == old(buckets) && todo <= groups.Keys
        invariant table == PartlyPurged(old(table), todo, now)
        invariant forall g :: g in groups && g !in todo ==> groups[g].entries != map[]
        decreases todo
      {
        var group :| group in todo;
        PurgedFurther(old(table), todo, group, now);
        PurgeGroup(group, now);
        todo := todo - {group};
      }
    }
  }
}
