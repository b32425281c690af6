/** The client's device registry: two maps that stay each other's index under
    expiry and eviction, and capabilities merged by the rank of their source. */
module Registry {
  import opened Octets

  // ----------------------------------------------------------------- capabilities

  datatype Source = Unspecified | ConservativeFallback | FromIAm | FromDeviceObject | UserOverride

  function Rank(s: Source): nat {
    match s
    case UserOverride => 4
    case FromDeviceObject => 3
    case FromIAm => 2
    case ConservativeFallback => 1
    case Unspecified => 0
  }

  /** What the user sets outranks the device object, which outranks an I-Am, which
      outranks a conservative guess. */
  lemma RanksInOrder()
    ensures Rank(UserOverride) > Rank(FromDeviceObject) > Rank(FromIAm) > Rank(ConservativeFallback) > Rank(Unspecified)
  {
  }

  datatype Capability = Capability(known: bool, source: Source, value: int)

  function MergeCap(dst: Capability, src: Capability): Capability {
    if !src.known then dst
    else if !dst.known || Rank(src.source) >= Rank(dst.source) then src
    else dst
  }

  /** The capability after a first and then further announcements. */
  function MergedCap(given: seq<Capability>): Capability
    requires given != []
  {
    if |given| == 1 then given[0] else MergeCap(MergedCap(given[..|given| - 1]), given[|given| - 1])
  }

  /** `given[i]` is the latest of the known ones of highest rank. */
  ghost predicate LatestOfHighest(given: seq<Capability>, i: nat)
    requires i < |given|
  {
    && given[i].known
    && (forall k :: 0 <= k < |given| && given[k].known ==> Rank(given[k].source) <= Rank(given[i].source))
    && (forall k :: i < k < |given| && given[k].known ==> Rank(given[k].source) < Rank(given[i].source))
  }

  /** What is retained is unknown only when nothing known was supplied, and else
      the latest supplied among those of highest source rank. */
  lemma {:induction false} MergedIsLatestOfHighest(given: seq<Capability>)
    requires given != []
    ensures MergedCap(given).known <==> exists i :: 0 <= i < |given| && given[i].known
    ensures MergedCap(given).known ==> exists i :: 0 <= i < |given| && given[i] == MergedCap(given) && LatestOfHighest(given, i)
    decreases |given|
  {
    var n := |given| - 1;
    if n == 0 {
      assert given[0].known ==> LatestOfHighest(given, 0);
    } else {
      var init, last := given[..n], given[n];
      MergedIsLatestOfHighest(init);
      assert forall k :: 0 <= k < n ==> init[k] == given[k];
      var before := MergedCap(init);
      if before.known {
        var i :| 0 <= i < n && init[i] == before && LatestOfHighest(init, i);
        if last.known && Rank(last.source) >= Rank(before.source) {
          assert LatestOfHighest(given, n);
        } else {
          assert given[i] == before && LatestOfHighest(given, i);
        }
      } else {
        assert forall k :: 0 <= k < n ==> !given[k].known;
        assert last.known ==> LatestOfHighest(given, n);
      }
    }
  }

  // ------------------------------------------------------------------ observations

  /** Six capabilities: version, revision, segments, APDU length, segmentation,
      vendor. */
  type Capabilities = c: seq<Capability> | |c| == 6 witness seq(6, _ => Capability(false, Unspecified, 0))

  /** An observation is identified by instance, address, origin and peer; the
      last three are one path here. */
  datatype Key = Key(instance: nat, path: nat)

  datatype Observation = Observation(key: Key, lastSeen: int, caps: Capabilities)

  function Merge(dst: Capabilities, src: Capabilities): (r: Capabilities)
    ensures forall i :: 0 <= i < 6 ==> r[i] == MergeCap(dst[i], src[i])
  {
    seq(6, i requires 0 <= i < 6 => MergeCap(dst[i], src[i]))
  }

  function Merged(given: seq<Capabilities>): Capabilities
    requires given != []
  {
    if |given| == 1 then given[0] else Merge(Merged(given[..|given| - 1]), given[|given| - 1])
  }

  function Column(given: seq<Capabilities>, i: nat): (c: seq<Capability>)
    requires i < 6
    ensures |c| == |given| && forall k :: 0 <= k < |c| ==> c[k] == given[k][i]
  {
    seq(|given|, k requires 0 <= k < |given| => given[k][i])
  }

  /** The six merge independently. */
  lemma {:induction false} MergedByColumn(given: seq<Capabilities>, i: nat)
    requires given != [] && i < 6
    ensures Merged(given)[i] == MergedCap(Column(given, i))
    decreases |given|
  {
    if |given| > 1 {
      MergedByColumn(given[..|given| - 1], i);
      assert Column(given, i)[..|given| - 1] == Column(given[..|given| - 1], i);
    }
  }

  // -------------------------------------------------------------------- two maps

  type ByKey = map<Key, Observation>
  type ByInstance = map<nat, seq<Key>>

  predicate NoDuplicates(ks: seq<Key>) { forall i, j :: 0 <= i < j < |ks| ==> ks[i] != ks[j] }

  /** `byInstance` is exactly the index of `byKey` by instance: every key once,
      under its instance, and no instance without keys. */
  ghost predicate Indexed(byKey: ByKey, byInstance: ByInstance) {
    && (forall k <- byKey :: byKey[k].key == k && k.instance in byInstance && k in byInstance[k.instance])
    && (forall i <- byInstance :: byInstance[i] != [] && NoDuplicates(byInstance[i]))
    && (forall i <- byInstance :: forall k <- byInstance[i] :: k in byKey && k.instance == i)
  }

  function Paths(byInstance: ByInstance, instance: nat): seq<Key> {
    if instance in byInstance then byInstance[instance] else []
  }

  function Without(ks: seq<Key>, k: Key): (r: seq<Key>)
    ensures forall x :: x in r <==> x in ks && x != k
    ensures |r| <= |ks|
  {
    if ks == [] then [] else (if ks[0] == k then [] else [ks[0]]) + Without(ks[1..], k)
  }

  lemma {:induction false} WithoutKeepsDistinct(ks: seq<Key>, k: Key)
    requires NoDuplicates(ks)
    ensures NoDuplicates(Without(ks, k))
    ensures k in ks ==> |Without(ks, k)| == |ks| - 1
    ensures k !in ks ==> Without(ks, k) == ks
  {
    hide NoDuplicates;
    if ks != [] {
      TailDistinct(ks);
      var rest := ks[1..];
      assert ks == [ks[0]] + rest;
      WithoutKeepsDistinct(rest, k);
      assert [] + Without(rest, k) == Without(rest, k);
      ConsDistinct(ks[0], Without(rest, k));
    }
  }

  lemma TailDistinct(ks: seq<Key>)
    requires ks != [] && NoDuplicates(ks)
    ensures NoDuplicates(ks[1..]) && ks[0] !in ks[1..]
  {
  }

  lemma ConsDistinct(x: Key, ks: seq<Key>)
    requires NoDuplicates(ks)
    ensures x !in ks ==> NoDuplicates([x] + ks)
  {
  }

  function IndexWithout(byInstance: ByInstance, k: Key): ByInstance {
    var out := Without(Paths(byInstance, k.instance), k);
    if out == [] then byInstance - {k.instance} else byInstance[k.instance := out]
  }

  lemma RemoveIndexed(byKey: ByKey, byInstance: ByInstance, k: Key)
    requires Indexed(byKey, byInstance)
    ensures Indexed(byKey - {k}, IndexWithout(byInstance, k))
  {
    hide NoDuplicates, Without;
    if k.instance in byInstance {
      WithoutKeepsDistinct(byInstance[k.instance], k);
    }
  }

  function IndexWith(byInstance: ByInstance, k: Key): ByInstance {
    if k in Paths(byInstance, k.instance) then byInstance
    else byInstance[k.instance := Paths(byInstance, k.instance) + [k]]
  }

  lemma AddIndexed(byKey: ByKey, byInstance: ByInstance, o: Observation)
    requires Indexed(byKey, byInstance)
    ensures Indexed(byKey[o.key := o], IndexWith(byInstance, o.key))
  {
    var ks := Paths(byInstance, o.key.instance);
    assert o.key in byKey <==> o.key in ks;
    assert o.key !in ks ==> NoDuplicates(ks + [o.key]);
  }

  // ------------------------------------------------------------ mutable registry

  predicate Expired(o: Observation, ttl: int, now: int) { ttl > 0 && now - o.lastSeen >= ttl }

  /** The keys competing for a place: one instance's, or all. */
  predicate InScope(k: Key, scope: Option<nat>) { scope.None? || k.instance == scope.value }

  /** No key of `byKey` in the scope was seen before `v`. */
  ghost predicate LeastRecent(v: Observation, byKey: ByKey, scope: Option<nat>) {
    forall k <- byKey :: InScope(k, scope) ==> v.lastSeen <= byKey[k].lastSeen
  }

  /** `cur` is `all` without some victims, each in the scope and seen no later
      than any key of the scope that was kept. */
  ghost predicate Evicted(all: ByKey, cur: ByKey, scope: Option<nat>) {
    && (forall k <- cur :: k in all && cur[k] == all[k])
    && (forall v <- all :: v !in cur ==> InScope(v, scope) && LeastRecent(all[v], cur, scope))
  }

  lemma EvictOne(all: ByKey, cur: ByKey, v: Key, scope: Option<nat>)
    requires Evicted(all, cur, scope) && v in cur && InScope(v, scope) && LeastRecent(cur[v], cur, scope)
    ensures Evicted(all, cur - {v}, scope)
  {
  }

  lemma EvictNone(all: ByKey, scope: Option<nat>)
    ensures Evicted(all, all, scope)
  {
  }

  function KeySet(ks: seq<Key>): set<Key> { set k | k in ks }

  lemma PathsAre(byKey: ByKey, byInstance: ByInstance, i: nat)
    requires Indexed(byKey, byInstance)
    ensures KeySet(Paths(byInstance, i)) <= byKey.Keys
    ensures forall k <- byKey :: k in KeySet(Paths(byInstance, i)) <==> k.instance == i
    ensures Paths(byInstance, i) != [] ==> KeySet(Paths(byInstance, i)) != {}
  {
    var ks := Paths(byInstance, i);
    assert ks != [] ==> ks[0] in KeySet(ks);
  }

  /** Every instance left has no more paths than before. */
  ghost predicate Shrunk(now: ByInstance, before: ByInstance) {
    forall i <- now :: i in before && |now[i]| <= |before[i]|
  }

  lemma IndexWithoutShrinks(byInstance: ByInstance, k: Key, before: ByInstance)
    requires Shrunk(byInstance, before)
    ensures Shrunk(IndexWithout(byInstance, k), before)
  {
  }

  /** The observations when those in `todo` have still to be examined. */
  ghost function Kept(all: ByKey, todo: set<Key>, ttl: int, now: int): ByKey {
    map k | k in all && (k in todo || !Expired(all[k], ttl, now)) :: all[k]
  }

  lemma KeptStep(all: ByKey, todo: set<Key>, k: Key, ttl: int, now: int)
    requires k in todo && k in all
    ensures k in Kept(all, todo, ttl, now)
    ensures Kept(all, todo - {k}, ttl, now)
         == if Expired(all[k], ttl, now) then Kept(all, todo, ttl, now) - {k} else Kept(all, todo, ttl, now)
  {
  }

  /** What survives expiry: everything without a TTL, else what was seen less than
      the TTL ago. */
  lemma KeptExactly(all: ByKey, ttl: int, now: int, k: Key)
    ensures var live := Kept(all, {}, ttl, now);
      && (k in live <==> k in all && (ttl <= 0 || now < all[k].lastSeen + ttl))
      && (k in live ==> live[k] == all[k])
  {
  }

  lemma KeptAll(all: ByKey, ttl: int, now: int)
    ensures Kept(all, all.Keys, ttl, now) == all
    ensures ttl <= 0 ==> Kept(all, {}, ttl, now) == all
  {
  }

  method Filter(keys: seq<Key>, k: Key) returns (out: seq<Key>)
    ensures out == Without(keys, k)
  {
    out := [];
    for i := 0 to |keys|
      invariant out + Without(keys[i..], k) == Without(keys, k)
    {
      assert keys[i..][1..] == keys[i + 1..];
      if keys[i] != k {
        out := out + [keys[i]];
      }
    }
  }

  ghost function OfInstance(byKey: ByKey, instance: nat): set<Key> {
    set k | k in byKey && k.instance == instance
  }

  /** `kept` is `live` after making room for one more key of the instance: one
      path of the instance goes when there are `maxPaths` of them, and then one
      observation when there are still `maxObservations`; each the least recently
      seen of its scope, and nothing more goes. */
  ghost predicate RoomMade(live: ByKey, kept: ByKey, instance: nat, maxObservations: int, maxPaths: int) {
    var full := maxPaths > 0 && |OfInstance(live, instance)| == maxPaths;
    exists mid ::
      && Evicted(live, mid, Some(instance)) && |mid| == |live| - (if full then 1 else 0)
      && Evicted(mid, kept, None) && |kept| == if maxObservations > 0 then Min(|mid|, maxObservations - 1) else |mid|
  }

  /** Below both caps nothing goes. */
  lemma RoomIsFree(live: ByKey, kept: ByKey, instance: nat, maxObservations: int, maxPaths: int)
    requires RoomMade(live, kept, instance, maxObservations, maxPaths)
    requires maxObservations <= 0 || |live| < maxObservations
    requires maxPaths <= 0 || |OfInstance(live, instance)| < maxPaths
    ensures kept == live
  {
    var mid :| Evicted(live, mid, Some(instance)) && |mid| == |live| && Evicted(mid, kept, None) && |kept| == |mid|;
    SameSize(live, mid, Some(instance));
    SameSize(mid, kept, None);
  }

  lemma SameSize(all: ByKey, cur: ByKey, scope: Option<nat>)
    requires Evicted(all, cur, scope) && |cur| == |all|
    ensures cur == all
  {
    assert |cur.Keys| == |cur| && |all.Keys| == |all|;
    assert cur.Keys <= all.Keys;
    assert |all.Keys| == |cur.Keys| + |all.Keys - cur.Keys|;
    assert all.Keys - cur.Keys == {};
  }

  lemma {:induction false} KeySetSize(ks: seq<Key>)
    requires NoDuplicates(ks)
    ensures |KeySet(ks)| == |ks|
    decreases |ks|
  {
    if ks != [] {
      TailDistinct(ks);
      KeySetSize(ks[1..]);
      assert KeySet(ks) == {ks[0]} + KeySet(ks[1..]);
    }
  }

  lemma PathsCount(byKey: ByKey, byInstance: ByInstance, i: nat)
    requires Indexed(byKey, byInstance)
    ensures |Paths(byInstance, i)| == |OfInstance(byKey, i)|
  {
    var ks := Paths(byInstance, i);
    PathsAre(byKey, byInstance, i);
    KeySetSize(ks);
    assert KeySet(ks) == OfInstance(byKey, i);
  }

  ghost predicate Bounded(byKey: ByKey, byInstance: ByInstance, maxObservations: int, maxPaths: int) {
    && (maxObservations > 0 ==> |byKey| <= maxObservations)
    && (maxPaths > 0 ==> forall i <- byInstance :: |byInstance[i]| <= maxPaths)
  }

  /** Each retained key's capabilities are what its announcements merge to. */
  ghost predicate Remembers(byKey: ByKey, given: map<Key, seq<Capabilities>>) {
    forall k <- byKey :: k in given && given[k] != [] && byKey[k].caps == Merged(given[k])
  }

  lemma ShrunkBounded(byKey: ByKey, byInstance: ByInstance, byKey': ByKey, byInstance': ByInstance, maxObs: int, maxPaths: int)
    requires Bounded(byKey, byInstance, maxObs, maxPaths) && Shrunk(byInstance', byInstance) && byKey'.Keys <= byKey.Keys
    ensures Bounded(byKey', byInstance', maxObs, maxPaths)
  {
    assert byKey.Keys == byKey'.Keys + (byKey.Keys - byKey'.Keys);
    assert |byKey'.Keys| == |byKey'| && |byKey.Keys| == |byKey|;
  }

  lemma AddBounded(byKey: ByKey, byInstance: ByInstance, o: Observation, maxObs: int, maxPaths: int)
    requires Indexed(byKey, byInstance) && Bounded(byKey, byInstance, maxObs, maxPaths)
    requires o.key !in byKey ==> (maxObs > 0 ==> |byKey| < maxObs) && (maxPaths > 0 ==> |Paths(byInstance, o.key.instance)| < maxPaths)
    ensures Bounded(byKey[o.key := o], IndexWith(byInstance, o.key), maxObs, maxPaths)
  {
    assert byKey[o.key := o].Keys == byKey.Keys + {o.key};
    assert |byKey[o.key := o].Keys| == |byKey[o.key := o]| && |byKey.Keys| == |byKey|;
    PathsAre(byKey, byInstance, o.key.instance);
  }

  lemma AddRemembers(byKey: ByKey, given: map<Key, seq<Capabilities>>, o: Observation, hist: seq<Capabilities>)
    requires Remembers(byKey, given) && hist != [] && o.caps == Merged(hist)
    ensures Remembers(byKey[o.key := o], given[o.key := hist])
  {
  }

  class DeviceRegistry {
    const maxObservations: int
    const maxPaths: int
    const ttl: int
    var byKey: ByKey
    var byInstance: ByInstance
    /** For each retained key, what was announced since it was added. */
    ghost var given: map<Key, seq<Capabilities>>

    constructor (maxObservations: int, maxPaths: int, ttl: int)
      ensures Valid() && byKey == map[]
      ensures this.maxObservations == (if maxObservations == 0 then 4096 else maxObservations)
      ensures this.maxPaths == (if maxPaths == 0 then 8 else maxPaths)
      ensures this.ttl == (if ttl == 0 then 30 * 60 * 1_000_000_000 else ttl)
    {
      this.maxObservations := if maxObservations == 0 then 4096 else maxObservations;
      this.maxPaths := if maxPaths == 0 then 8 else maxPaths;
      this.ttl := if ttl == 0 then 1_800_000_000_000 else ttl;
      byKey, byInstance, given := map[], map[], map[];
    }

    ghost predicate Valid()
      reads this
    {
      Indexed(byKey, byInstance) && Bounded(byKey, byInstance, maxObservations, maxPaths) && Remembers(byKey, given)
    }

    method RemoveKey(k: Key)
      requires Indexed(byKey, byInstance)
      modifies this`byKey, this`byInstance
      ensures byKey == old(byKey) - {k} && byInstance == IndexWithout(old(byInstance), k)
      ensures Indexed(byKey, byInstance)
    {
      hide Indexed, Without;
      RemoveIndexed(byKey, byInstance, k);
      byKey := byKey - {k};
      var keys := Paths(byInstance, k.instance);
      var out := Filter(keys, k);
      if |keys| == 0 {
        EmptyWithout(k);
        NoInstance(old(byKey), byInstance, k.instance);
        return;
      }
      if |out| == 0 {
        byInstance := byInstance - {k.instance};
      } else {
        byInstance := byInstance[k.instance := out];
      }
    }

    method LeastRecentlySeen(keys: set<Key>) returns (best: Option<Key>)
      requires keys <= byKey.Keys
      ensures best.None? <==> keys == {}
      ensures best.Some? ==> best.value in keys && forall k <- keys :: byKey[best.value].lastSeen <= byKey[k].lastSeen
    {
      best := None;
      var todo := keys;
      while todo != {}
        invariant todo <= keys
        invariant best.None? <==> todo == keys
        invariant best.Some? ==> best.value in keys && forall k <- keys - todo :: byKey[best.value].lastSeen <= byKey[k].lastSeen
      {
        var k :| k in todo;
        if best.None? || byKey[k].lastSeen < byKey[best.value].lastSeen {
          best := Some(k);
        }
        todo := todo - {k};
      }
    }

    /** Drops exactly the observations as old as the TTL. */
    method Expire(now: int)
      requires Indexed(byKey, byInstance)
      modifies this`byKey, this`byInstance
      ensures Indexed(byKey, byInstance)
      ensures byKey == Kept(old(byKey), {}, ttl, now)
      ensures Shrunk(byInstance, old(byInstance))
    {
      KeptAll(byKey, ttl, now);
      if ttl <= 0 {
        return;
      }
      hide Indexed, Kept, Shrunk, IndexWithout;
      var all := byKey;
      ghost var before := byInstance;
      var todo := all.Keys;
      assert Shrunk(byInstance, before) by {
        ShrunkSame(before);
      }
      while todo != {}
        invariant todo <= all.Keys && Indexed(byKey, byInstance)
        invariant byKey == Kept(all, todo, ttl, now) && Shrunk(byInstance, before)
      {
        var k :| k in todo;
        KeptStep(all, todo, k, ttl, now);
        todo := todo - {k};
        if now - all[k].lastSeen >= ttl {
          IndexWithoutShrinks(byInstance, k, before);
          RemoveKey(k);
        }
      }
    }
  
    /** Makes room for one more path of the instance. */
    method EnforcePaths(instance: nat)
      requires Indexed(byKey, byInstance)
      modifies this`byKey, this`byInstance
      ensures Indexed(byKey, byInstance) && Shrunk(byInstance, old(byInstance))
      ensures Evicted(old(byKey), byKey, Some(instance))
      ensures maxPaths > 0 ==> |Paths(byInstance, instance)| < maxPaths
      ensures maxPaths <= 0 ==> byKey == old(byKey)
      ensures maxPaths > 0 ==> |byKey| == |old(byKey)| - Max(0, |Paths(old(byInstance), instance)| - maxPaths + 1)
    {
      hide Indexed, Shrunk, Evicted, IndexWithout, KeySet, Paths;
      ghost var all, before := byKey, byInstance;
      EvictNone(all, Some(instance));
      ShrunkSame(before);
      if maxPaths > 0 {
        var keys := Paths(byInstance, instance);
        while |keys| >= maxPaths
          invariant Indexed(byKey, byInstance) && Shrunk(byInstance, before) && Evicted(all, byKey, Some(instance))
          invariant keys == Paths(byInstance, instance)
          invariant |all| - |byKey| == |Paths(before, instance)| - |keys|
          invariant |keys| >= Min(maxPaths - 1, |Paths(before, instance)|)
          decreases |byKey|
        {
          PathsAre(byKey, byInstance, instance);
          var victim := LeastRecentlySeen(KeySet(keys));
          EvictOne(all, byKey, victim.value, Some(instance));
          IndexWithoutShrinks(byInstance, victim.value, before);
          OnePathLess(byKey, byInstance, victim.value);
          RemoveKey(victim.value);
          keys := Paths(byInstance, instance);
        }
      }
    }

    /** Makes room for one more observation. */
    method EnforceTotal()
      requires Indexed(byKey, byInstance)
      modifies this`byKey, this`byInstance
      ensures Indexed(byKey, byInstance) && Shrunk(byInstance, old(byInstance))
      ensures Evicted(old(byKey), byKey, None)
      ensures maxObservations > 0 ==> |byKey| < maxObservations
      ensures maxObservations <= 0 ==> byKey == old(byKey)
      ensures maxObservations > 0 ==> |byKey| == Min(|old(byKey)|, maxObservations - 1)
    {
      hide Indexed, Shrunk, Evicted, IndexWithout;
      ghost var all, before := byKey, byInstance;
      EvictNone(all, None);
      ShrunkSame(before);
      if maxObservations > 0 {
        while |byKey| >= maxObservations
          invariant Indexed(byKey, byInstance) && Shrunk(byInstance, before) && Evicted(all, byKey, None)
          invariant |byKey| >= Min(|all|, maxObservations - 1) && |byKey| <= |all|
          decreases |byKey|
        {
          var victim := LeastRecentlySeen(byKey.Keys);
          EvictOne(all, byKey, victim.value, None);
          IndexWithoutShrinks(byInstance, victim.value, before);
          RemoveKey(victim.value);
        }
      }
    }
  
    /** One sighting. The key is retained with its capabilities merged in, or
        added after making room; everything as old as the TTL goes first. */
    method Upsert(key: Key, caps: Capabilities, now: int)
      requires Valid()
      modifies this
      ensures Valid()
      ensures forall k <- byKey :: ttl <= 0 || now < byKey[k].lastSeen + ttl
      ensures var live := Kept(old(byKey), {}, ttl, now);
        && key in byKey
        && byKey[key] == Observation(key, now, if key in live then Merge(live[key].caps, caps) else caps)
        && given[key] == (if key in live then old(given)[key] else []) + [caps]
        && (if key in live then byKey == live[key := byKey[key]]
            else RoomMade(live, byKey - {key}, key.instance, maxObservations, maxPaths))
    {
      hide Indexed, Shrunk, Evicted, IndexWith, Kept, Merged, Merge, Paths, Bounded, Remembers, RoomMade;
      ghost var all, before := byKey, byInstance;
      LiveFacts(byKey, given, ttl, now);
      Expire(now);
      ShrunkBounded(all, before, byKey, byInstance, maxObservations, maxPaths);
      ghost var live, hist := byKey, [caps];
      var caps' := caps;
      if key in byKey {
        caps' := Merge(byKey[key].caps, caps);
        hist := given[key] + [caps];
        MergedSnoc(given[key], caps);
      } else {
        MergedOne(caps);
        MakeRoom(key);
      }
      var o := Observation(key, now, caps');
      AddIndexed(byKey, byInstance, o);
      AddBounded(byKey, byInstance, o, maxObservations, maxPaths);
      AddRemembers(byKey, given, o, hist);
      ghost var room := byKey;
      byKey := byKey[key := o];
      byInstance := IndexWith(byInstance, key);
      given := given[key := hist];
      assert key !in live ==> byKey - {key} == room;
      forall k | k in byKey
        ensures ttl <= 0 || now < byKey[k].lastSeen + ttl
      {
        assert k != key ==> k in live && byKey[k] == live[k];
      }
    }

    /** Evicts, within the instance and then overall, what is in the way. */
    method MakeRoom(key: Key)
      requires Valid() && key !in byKey
      modifies this`byKey, this`byInstance
      ensures Valid() && key !in byKey
      ensures maxObservations > 0 ==> |byKey| < maxObservations
      ensures maxPaths > 0 ==> |Paths(byInstance, key.instance)| < maxPaths
      ensures RoomMade(old(byKey), byKey, key.instance, maxObservations, maxPaths)
      ensures forall k <- byKey :: k in old(byKey) && byKey[k] == old(byKey)[k]
    {
      hide Indexed, Shrunk, Evicted, Paths, Bounded, Remembers;
      ghost var all, before := byKey, byInstance;
      AtMost(byKey, byInstance, maxObservations, maxPaths, key.instance);
      PathsCount(byKey, byInstance, key.instance);
      EnforcePaths(key.instance);
      ghost var mid, between := byKey, byInstance;
      EvictedFrom(all, mid, Some(key.instance), given);
      ShrunkBounded(all, before, mid, between, maxObservations, maxPaths);
      EnforceTotal();
      EvictedFrom(mid, byKey, None, given);
      ShrunkBounded(mid, between, byKey, byInstance, maxObservations, maxPaths);
      ShrunkPaths(byInstance, between, key.instance);
    }
  }

  lemma OnePathLess(byKey: ByKey, byInstance: ByInstance, k: Key)
    requires Indexed(byKey, byInstance) && k in byKey
    ensures |Paths(IndexWithout(byInstance, k), k.instance)| == |Paths(byInstance, k.instance)| - 1
    ensures |byKey - {k}| == |byKey| - 1
  {
    hide NoDuplicates, Without;
    WithoutKeepsDistinct(byInstance[k.instance], k);
    assert (byKey - {k}).Keys == byKey.Keys - {k};
    assert |byKey.Keys| == |byKey| && |(byKey - {k}).Keys| == |byKey - {k}|;
  }

  lemma NoInstance(byKey: ByKey, byInstance: ByInstance, i: nat)
    requires Indexed(byKey, byInstance) && Paths(byInstance, i) == []
    ensures byInstance - {i} == byInstance
  {
  }

  lemma ShrunkSame(m: ByInstance)
    ensures Shrunk(m, m)
  {
  }

  lemma EmptyWithout(k: Key)
    ensures Without([], k) == []
  {
  }

  lemma AtMost(byKey: ByKey, byInstance: ByInstance, maxObs: int, maxPaths: int, i: nat)
    requires Bounded(byKey, byInstance, maxObs, maxPaths)
    ensures maxPaths > 0 ==> |Paths(byInstance, i)| <= maxPaths
  {
  }

  lemma ShrunkPaths(cur: ByInstance, before: ByInstance, i: nat)
    requires Shrunk(cur, before)
    ensures |Paths(cur, i)| <= |Paths(before, i)|
  {
  }

  lemma LiveFacts(all: ByKey, given: map<Key, seq<Capabilities>>, ttl: int, now: int)
    requires Remembers(all, given)
    ensures var live := Kept(all, {}, ttl, now);
      && (forall k <- live :: k in all && live[k] == all[k] && !Expired(live[k], ttl, now))
      && Remembers(live, given) && live.Keys <= all.Keys
      && forall k <- live :: k in given && given[k] != [] && live[k].caps == Merged(given[k])
  {
  }

  lemma MergedSnoc(given: seq<Capabilities>, caps: Capabilities)
    requires given != []
    ensures Merged(given + [caps]) == Merge(Merged(given), caps)
  {
    assert (given + [caps])[..|given|] == given;
  }

  lemma MergedOne(caps: Capabilities)
    ensures Merged([caps]) == caps
  {
  }

  lemma EvictedFrom(all: ByKey, cur: ByKey, scope: Option<nat>, given: map<Key, seq<Capabilities>>)
    requires Evicted(all, cur, scope)
    ensures cur.Keys <= all.Keys && forall k <- cur :: k in all && cur[k] == all[k]
    ensures Remembers(all, given) ==> Remembers(cur, given)
  {
  }

  /** In a valid registry each retained capability is the latest supplied, among
      those of highest source rank, since its key was added. */
  lemma RetainedCapability(byKey: ByKey, given: map<Key, seq<Capabilities>>, k: Key, i: nat)
    requires Remembers(byKey, given) && k in byKey && i < 6
    ensures var c, all := byKey[k].caps[i], Column(given[k], i);
      && (c.known <==> exists j :: 0 <= j < |all| && all[j].known)
      && (c.known ==> exists j :: 0 <= j < |all| && all[j] == c && LatestOfHighest(all, j))
  {
    hide Merged, LatestOfHighest;
    MergedByColumn(given[k], i);
    MergedIsLatestOfHighest(Column(given[k], i));
  }
}
