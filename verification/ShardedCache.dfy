/** The sharded in-memory cache with expiry times, and the flat table it stands for. */
module ShardedCache {
  import opened Counting

  type uint32 = x: nat | x < 0x1_0000_0000

  /** FNV-1a, or any other total hash of the key. */
  type Hash = string -> uint32

  datatype Item<V> = Item(value: V, expTime: int)

  type Table<V> = map<string, Item<V>>

  function ShardOf(hash: Hash, n: nat, key: string): nat
    requires n > 0
  {
    hash(key) % n
  }

  /** A value is served up to and including its expiry time. */
  function Lookup<V>(t: Table<V>, key: string, now: int): Option<V> {
    if key in t && now <= t[key].expTime then Some(t[key].value) else None
  }

  /** What is left of a table after removing what is expired at the given time. */
  function Swept<V>(t: Table<V>, at: int): Table<V> {
    map k | k in t && at <= t[k].expTime :: t[k]
  }

  // ---------------------------------------------------------------- the flat view

  ghost predicate OwnKeys<V>(hash: Hash, n: nat, i: nat, t: Table<V>)
    requires n > 0
  {
    forall k | k in t :: ShardOf(hash, n, k) == i
  }

  /** Every key is stored only in its hash shard. */
  ghost predicate Placed<V>(hash: Hash, n: nat, ts: seq<Table<V>>) {
    n > 0 && |ts| <= n && forall i :: 0 <= i < |ts| ==> OwnKeys(hash, n, i, ts[i])
  }

  /** All shards together. */
  function Flat<V>(ts: seq<Table<V>>): Table<V> {
    if ts == [] then map[] else Flat(ts[..|ts| - 1]) + ts[|ts| - 1]
  }

  lemma {:induction false} FlatHas<V>(hash: Hash, n: nat, ts: seq<Table<V>>, key: string)
    requires Placed(hash, n, ts)
    ensures var i := ShardOf(hash, n, key);
            && (key in Flat(ts) <==> i < |ts| && key in ts[i])
            && (key in Flat(ts) ==> Flat(ts)[key] == ts[i][key])
  {
    if ts != [] {
      FlatHas(hash, n, ts[..|ts| - 1], key);
      assert OwnKeys(hash, n, |ts| - 1, ts[|ts| - 1]);
    }
  }

  /** A key is in the flat table exactly if it is in its shard, with the same item. */
  lemma FlatIsShard<V>(hash: Hash, ts: seq<Table<V>>, key: string)
    requires |ts| > 0 && Placed(hash, |ts|, ts)
    ensures var shard := ts[ShardOf(hash, |ts|, key)];
            && (key in Flat(ts) <==> key in shard)
            && (key in shard ==> Flat(ts)[key] == shard[key])
  {
    FlatHas(hash, |ts|, ts, key);
  }

  lemma FlatOfSwept<V>(hash: Hash, ts: seq<Table<V>>, us: seq<Table<V>>, at: int)
    requires |ts| > 0 && Placed(hash, |ts|, ts) && |us| == |ts|
    requires forall i :: 0 <= i < |ts| ==> us[i] == Swept(ts[i], at)
    ensures Placed(hash, |us|, us) && Flat(us) == Swept(Flat(ts), at)
  {
    forall i | 0 <= i < |us| ensures OwnKeys(hash, |us|, i, us[i]) {
      assert OwnKeys(hash, |ts|, i, ts[i]);
    }
    forall k ensures (k in Flat(us) <==> k in Swept(Flat(ts), at))
                     && (k in Flat(us) ==> Flat(us)[k] == Swept(Flat(ts), at)[k])
    {
      FlatIsShard(hash, us, k);
      FlatIsShard(hash, ts, k);
    }
  }

  lemma FlatOfPut<V>(hash: Hash, ts: seq<Table<V>>, key: string, item: Item<V>)
    requires |ts| > 0 && Placed(hash, |ts|, ts)
    ensures var us := Apply(hash, ts, Put(key, item));
            Placed(hash, |us|, us) && Flat(us) == Flat(ts)[key := item]
  {
    var us := Apply(hash, ts, Put(key, item));
    forall i | 0 <= i < |us| ensures OwnKeys(hash, |us|, i, us[i]) {
      assert OwnKeys(hash, |ts|, i, ts[i]);
    }
    forall k ensures (k in Flat(us) <==> k in Flat(ts)[key := item])
                     && (k in Flat(us) ==> Flat(us)[k] == Flat(ts)[key := item][k])
    {
      FlatIsShard(hash, us, k);
      FlatIsShard(hash, ts, k);
    }
  }

  /** A shard in the middle of its sweep, with these keys still to be looked at. */
  ghost predicate PartSwept<V>(was: Table<V>, t: Table<V>, todo: set<string>, at: int) {
    && todo <= t.Keys <= was.Keys
    && (forall k | k in t :: t[k] == was[k])
    && (forall k | k in was && k !in todo :: k in t <==> at <= was[k].expTime)
  }

  lemma SweepOne<V>(was: Table<V>, t: Table<V>, todo: set<string>, at: int, key: string)
    requires PartSwept(was, t, todo, at) && key in todo
    ensures PartSwept(was, if at > t[key].expTime then t - {key} else t, todo - {key}, at)
  {
  }

  /** A shard in the middle of being emptied. */
  ghost predicate Remaining<V>(t: Table<V>, todo: set<string>) { t.Keys == todo }

  lemma RemoveOne<V>(t: Table<V>, todo: set<string>, key: string)
    requires Remaining(t, todo) && key in todo
    ensures Remaining(t - {key}, todo - {key})
  {
  }

  lemma NoneRemains<V>(t: Table<V>)
    requires Remaining(t, {})
    ensures t == map[]
  {
  }

  lemma SweepEnds<V>(was: Table<V>, t: Table<V>, at: int)
    requires PartSwept(was, t, {}, at)
    ensures t == Swept(was, at)
  {
  }

  lemma {:induction false} FlatOfEmpty<V>(ts: seq<Table<V>>)
    requires forall i :: 0 <= i < |ts| ==> ts[i] == map[]
    ensures Flat(ts) == map[]
  {
    if ts != [] { FlatOfEmpty(ts[..|ts| - 1]); }
  }

  /** Emptying a table deletes just one key exactly if no other key is in it. */
  lemma OnlyKey<V>(was: Table<V>, key: string)
    ensures map[] == was - {key} <==> was.Keys <= {key}
  {
    if was.Keys <= {key} {
      assert (was - {key}).Keys == {};
    } else {
      var other :| other in was && other != key;
      assert other in was - {key};
    }
  }

  // ---------------------------------------------------------------- operations under one shard lock

  datatype Op<V> =
    | Put(key: string, item: Item<V>)
    | ClearShard(i: nat)
    | SweepShard(i: nat, at: int)

  function Apply<V>(hash: Hash, ts: seq<Table<V>>, op: Op<V>): seq<Table<V>>
    requires |ts| > 0
  {
    match op
    case Put(key, item) => var i := ShardOf(hash, |ts|, key); ts[i := ts[i][key := item]]
    case ClearShard(i) => if i < |ts| then ts[i := map[]] else ts
    case SweepShard(i, at) => if i < |ts| then ts[i := Swept(ts[i], at)] else ts
  }

  function ApplyAll<V>(hash: Hash, ts: seq<Table<V>>, ops: seq<Op<V>>): (r: seq<Table<V>>)
    requires |ts| > 0
    ensures |r| == |ts|
  {
    if ops == [] then ts
    else Apply(hash, ApplyAll(hash, ts, ops[..|ops| - 1]), ops[|ops| - 1])
  }

  /** DeleteItem and cleanUpExpired lock one shard after another. */
  function Clears<V>(n: nat): seq<Op<V>> { seq(n, i requires 0 <= i => ClearShard(i)) }

  function Sweeps<V>(n: nat, at: int): seq<Op<V>> { seq(n, i requires 0 <= i => SweepShard(i, at)) }

  lemma ApplyKeepsPlaced<V>(hash: Hash, ts: seq<Table<V>>, op: Op<V>)
    requires |ts| > 0 && Placed(hash, |ts|, ts)
    ensures Placed(hash, |ts|, Apply(hash, ts, op))
  {
    var us := Apply(hash, ts, op);
    forall i | 0 <= i < |us| ensures OwnKeys(hash, |us|, i, us[i]) {
      assert OwnKeys(hash, |ts|, i, ts[i]);
    }
  }

  /** Under every sequence of operations every key stays in its hash shard. */
  lemma {:induction false} KeysStayInTheirShard<V>(hash: Hash, ts: seq<Table<V>>, ops: seq<Op<V>>)
    requires |ts| > 0 && Placed(hash, |ts|, ts)
    ensures Placed(hash, |ts|, ApplyAll(hash, ts, ops))
  {
    if ops != [] {
      KeysStayInTheirShard(hash, ts, ops[..|ops| - 1]);
      ApplyKeepsPlaced(hash, ApplyAll(hash, ts, ops[..|ops| - 1]), ops[|ops| - 1]);
    }
  }

  lemma {:induction false} ClearsReach<V>(hash: Hash, ts: seq<Table<V>>, n: nat)
    requires |ts| > 0 && n <= |ts|
    ensures ApplyAll(hash, ts, Clears(n)) == seq(|ts|, i requires 0 <= i < |ts| => if i < n then map[] else ts[i])
  {
    if n > 0 {
      assert Clears<V>(n)[..n - 1] == Clears(n - 1);
      ClearsReach(hash, ts, n - 1);
    }
  }

  lemma {:induction false} SweepsReach<V>(hash: Hash, ts: seq<Table<V>>, n: nat, at: int)
    requires |ts| > 0 && n <= |ts|
    ensures ApplyAll(hash, ts, Sweeps(n, at))
            == seq(|ts|, i requires 0 <= i < |ts| => if i < n then Swept(ts[i], at) else ts[i])
  {
    if n > 0 {
      assert Sweeps<V>(n, at)[..n - 1] == Sweeps(n - 1, at);
      SweepsReach(hash, ts, n - 1, at);
    }
  }

  lemma ClearsDone<V>(hash: Hash, ts: seq<Table<V>>, us: seq<Table<V>>)
    requires |us| == |ts| > 0 && forall i :: 0 <= i < |us| ==> us[i] == map[]
    ensures us == ApplyAll(hash, ts, Clears(|ts|)) && Flat(us) == map[] && Placed(hash, |us|, us)
  {
    ClearsReach(hash, ts, |ts|);
    FlatOfEmpty(us);
  }

  lemma SweepsDone<V>(hash: Hash, ts: seq<Table<V>>, us: seq<Table<V>>, at: int)
    requires |us| == |ts| > 0 && Placed(hash, |ts|, ts)
    requires forall i :: 0 <= i < |ts| ==> us[i] == Swept(ts[i], at)
    ensures us == ApplyAll(hash, ts, Sweeps(|ts|, at)) && Flat(us) == Swept(Flat(ts), at) && Placed(hash, |us|, us)
  {
    SweepsReach(hash, ts, |ts|, at);
    FlatOfSwept(hash, ts, us, at);
  }

  // ---------------------------------------------------------------- the cache refines a flat history

  /** The reference: scan the history backwards for the last write to the key, stopping at
      an operation that emptied the key's shard. Sweeps do not occur in it at all. */
  function LastWrite<V>(hash: Hash, n: nat, ops: seq<Op<V>>, key: string, now: int): Option<V>
    requires n > 0
  {
    if ops == [] then None
    else
      var op := ops[|ops| - 1];
      if op.Put? && op.key == key then
        if now <= op.item.expTime then Some(op.item.value) else None
      else if op.ClearShard? && op.i == ShardOf(hash, n, key) then None
      else LastWrite(hash, n, ops[..|ops| - 1], key, now)
  }

  function Empty<V>(n: nat): seq<Table<V>> { seq(n, _ => map[]) }

  /** Under every interleaving of writes, clears and sweeps of single shards, a lookup no
      earlier than the sweeps returns exactly the last unexpired write to its key that was
      not followed by a clear of its shard. */
  lemma {:induction false} LookupIsLastWrite<V>(hash: Hash, n: nat, ops: seq<Op<V>>, key: string, now: int)
    requires n > 0
    requires forall op <- ops :: op.SweepShard? ==> op.at <= now
    ensures Lookup(ApplyAll(hash, Empty<V>(n), ops)[ShardOf(hash, n, key)], key, now)
            == LastWrite(hash, n, ops, key, now)
  {
    if ops != [] {
      var p := ops[..|ops| - 1];
      assert ops[|ops| - 1] in ops;
      LookupIsLastWrite(hash, n, p, key, now);
    }
  }

  /** The last write to the key that no clear of its shard followed, expired or not. */
  function LastPut<V>(hash: Hash, n: nat, ops: seq<Op<V>>, key: string): Option<Item<V>>
    requires n > 0
  {
    if ops == [] then None
    else
      var op := ops[|ops| - 1];
      if op.Put? && op.key == key then Some(op.item)
      else if op.ClearShard? && op.i == ShardOf(hash, n, key) then None
      else LastPut(hash, n, ops[..|ops| - 1], key)
  }

  /** Sweeps up to time t remove at most what has expired by then: an item that expires at t
      or later stays stored until it is overwritten or cleared, long after it stopped being
      served. So it is for the rest of the run after the only sweep there is. */
  lemma {:induction false} UnsweptStays<V>(hash: Hash, n: nat, ops: seq<Op<V>>, key: string, t: int)
    requires n > 0 && forall op <- ops :: op.SweepShard? ==> op.at <= t
    ensures var put := LastPut(hash, n, ops, key); var shard := ApplyAll(hash, Empty<V>(n), ops)[ShardOf(hash, n, key)];
            && (put.Some? && t <= put.value.expTime ==> key in shard)
            && (key in shard ==> put == Some(shard[key]))
  {
    if ops != [] {
      assert ops[|ops| - 1] in ops;
      UnsweptStays(hash, n, ops[..|ops| - 1], key, t);
    }
  }

  // ---------------------------------------------------------------- the class

  class InmemoryShardedCache<V> {
    const hash: Hash
    const numShards: nat
    const shards: array<Table<V>>

    ghost predicate Valid()
      reads this, shards
    {
      shards.Length == numShards > 0 && Placed(hash, numShards, shards[..])
    }

    ghost function Contents(): Table<V>
      reads this, shards
    {
      Flat(shards[..])
    }

    constructor (hash: Hash, numShards: nat)
      requires numShards > 0
      ensures Valid() && Contents() == map[] && fresh(shards)
      ensures this.hash == hash && this.numShards == numShards
    {
      this.hash := hash;
      this.numShards := numShards;
      var tables := new Table<V>[numShards];
      for i := 0 to numShards
        invariant forall j :: 0 <= j < i ==> tables[j] == map[]
      {
        tables[i] := map[];
      }
      shards := tables;
      new;
      FlatOfEmpty(shards[..]);
    }

    method GetItem(key: string, now: int) returns (r: Option<V>)
      requires Valid()
      ensures r == Lookup(Contents(), key, now)
    {
      var shard := shards[ShardOf(hash, numShards, key)];
      FlatIsShard(hash, shards[..], key);
      if key !in shard {
        return None;
      }
      if now > shard[key].expTime {
        return None;
      }
      return Some(shard[key].value);
    }

    method AddItemWithTTL(key: string, value: V, ttl: int, now: int)
      requires Valid()
      modifies shards
      ensures Valid()
      ensures Contents() == old(Contents())[key := Item(value, now + ttl)]
      ensures shards[..] == Apply(hash, old(shards[..]), Put(key, Item(value, now + ttl)))
    {
      var i := ShardOf(hash, numShards, key);
      shards[i] := shards[i][key := Item(value, now + ttl)];
      assert shards[..] == Apply(hash, old(shards[..]), Put(key, Item(value, now + ttl)));
      FlatOfPut(hash, old(shards[..]), key, Item(value, now + ttl));
    }

    /** What DeleteItem does under the lock of one shard. The loop variable hides the key that
        was asked for, so the comparison always succeeds and every item is deleted. */
    method DeleteFromShard(i: nat)
      requires i < shards.Length
      modifies shards
      ensures shards[i] == map[]
      ensures forall j :: 0 <= j < shards.Length && j != i ==> shards[j] == old(shards[j])
    {
      var todo := shards[i].Keys;
      while todo != {}
        invariant Remaining(shards[i], todo)
        invariant forall j :: 0 <= j < shards.Length && j != i ==> shards[j] == old(shards[j])
        decreases |todo|
      {
        var key :| key in todo;
        RemoveOne(shards[i], todo, key);
        if key == key {
          shards[i] := shards[i] - {key};
        }
        todo := todo - {key};
      }
      NoneRemains(shards[i]);
    }

    /** Empties every shard, whatever the key. It does what its name says if and only if no
        other key is stored. */
    method DeleteItem(key: string)
      requires Valid()
      modifies shards
      ensures Valid() && Contents() == map[]
      ensures Contents() == old(Contents()) - {key} <==> old(Contents()).Keys <= {key}
      ensures shards[..] == ApplyAll(hash, old(shards[..]), Clears(numShards))
    {
      ghost var was := shards[..];
      for i := 0 to shards.Length
        invariant forall j :: 0 <= j < i ==> shards[j] == map[]
      {
        DeleteFromShard(i);
      }
      ClearsDone(hash, was, shards[..]);
      OnlyKey(Flat(was), key);
    }

    /** What a sweep does under the lock of one shard. */
    method CleanUpShard(i: nat, start: int)
      requires i < shards.Length
      modifies shards
      ensures shards[i] == Swept(old(shards[i]), start)
      ensures forall j :: 0 <= j < shards.Length && j != i ==> shards[j] == old(shards[j])
    {
      ghost var was := shards[i];
      var todo := shards[i].Keys;
      while todo != {}
        invariant PartSwept(was, shards[i], todo, start)
        invariant forall j :: 0 <= j < shards.Length && j != i ==> shards[j] == old(shards[j])
        decreases |todo|
      {
        var key :| key in todo;
        SweepOne(was, shards[i], todo, start, key);
        if start > shards[i][key].expTime {
          shards[i] := shards[i] - {key};
        }
        todo := todo - {key};
      }
      SweepEnds(was, shards[i], start);
    }

    method CleanUpExpired(start: int)
      requires Valid()
      modifies shards
      ensures Valid() && Contents() == Swept(old(Contents()), start)
      ensures forall k :: k in Contents() <==> k in old(Contents()) && start <= old(Contents())[k].expTime
      ensures forall k | k in Contents() :: Contents()[k] == old(Contents())[k]
      ensures shards[..] == ApplyAll(hash, old(shards[..]), Sweeps(numShards, start))
    {
      ghost var was := shards[..];
      for i := 0 to shards.Length
        invariant forall j :: 0 <= j < i ==> shards[j] == Swept(was[j], start)
        invariant forall j :: i <= j < shards.Length ==> shards[j] == was[j]
      {
        CleanUpShard(i, start);
      }
      SweepsDone(hash, was, shards[..], start);
    }
  }
}
