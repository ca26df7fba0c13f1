/** The shared kernel's containers: a chunked append-only log and a two-level sharded hash map. */
module Containers {
  import opened Facts

  // ---- The chunked log ----

  const CHUNK: nat := 1024

  function Flatten<T>(chunks: seq<seq<T>>): seq<T> {
    if chunks == [] then [] else Flatten(chunks[..|chunks| - 1]) + chunks[|chunks| - 1]
  }

  class ChunkedLog<T> {
    var chunks: seq<seq<T>>
    var len: nat

    /** Every chunk but the last is full, and the last is not empty. */
    ghost predicate Valid()
      reads this
    {
      && (forall i :: 0 <= i < |chunks| - 1 ==> |chunks[i]| == CHUNK)
      && (chunks != [] ==> 0 < |chunks[|chunks| - 1]| <= CHUNK)
      && len == |Flatten(chunks)|
    }

    ghost function Contents(): seq<T>
      reads this
    {
      Flatten(chunks)
    }

    constructor ()
      ensures Valid() && Contents() == []
    {
      chunks, len := [], 0;
    }

    function Get(index: nat): (value: T)
      requires Valid() && index < len
      reads this
      ensures value == Contents()[index]
    {
      FlattenIndex(chunks, index);
      chunks[index / CHUNK][index % CHUNK]
    }

    method Push(value: T) returns (index: nat)
      requires Valid()
      modifies this
      ensures Valid() && Contents() == old(Contents()) + [value]
      ensures index == |old(Contents())| && len == old(len) + 1
    {
      index := len;
      ghost var before := chunks;
      var n := |chunks|;
      if n > 0 && |chunks[n - 1]| < CHUNK {
        chunks := chunks[n - 1 := chunks[n - 1] + [value]];
        assert chunks[..n - 1] == before[..n - 1];
        assert Flatten(chunks) == Flatten(before) + [value];
      } else {
        chunks := chunks + [[value]];
        assert chunks[..n] == before;
      }
      len := len + 1;
    }
  }

  lemma {:induction false} FlattenLength<T>(chunks: seq<seq<T>>)
    requires forall i :: 0 <= i < |chunks| ==> |chunks[i]| == CHUNK
    ensures |Flatten(chunks)| == |chunks| * CHUNK
    decreases |chunks|
  {
    if chunks != [] {
      FlattenLength(chunks[..|chunks| - 1]);
    }
  }

  /** Position `index` lies in chunk `index / 1024` at offset `index % 1024`. */
  lemma {:induction false} FlattenIndex<T>(chunks: seq<seq<T>>, index: nat)
    requires forall i :: 0 <= i < |chunks| - 1 ==> |chunks[i]| == CHUNK
    requires chunks != [] ==> |chunks[|chunks| - 1]| <= CHUNK
    requires index < |Flatten(chunks)|
    ensures index / CHUNK < |chunks| && index % CHUNK < |chunks[index / CHUNK]|
    ensures chunks[index / CHUNK][index % CHUNK] == Flatten(chunks)[index]
    decreases |chunks|
  {
    var n := |chunks| - 1;
    FlattenLength(chunks[..n]);
    if index < |Flatten(chunks[..n])| {
      FlattenIndex(chunks[..n], index);
    } else {
      assert index == n * CHUNK + (index - n * CHUNK);
      assert index / CHUNK == n && index % CHUNK == index - n * CHUNK;
    }
  }

  // ---- The sharded map ----

  const GROUP: nat := 64

  type Shard<!K, V> = map<K, V>
  type Group<!K, V> = seq<Option<Shard<K, V>>>
  type Directory<!K, V> = seq<Option<Group<K, V>>>

  /** Where a key lives: the low bits of its hash, split into group and position in the group. */
  function Locate<K>(hash: K -> nat, shards: nat, key: K): (at: (nat, nat))
    requires shards > 0
  {
    var i := hash(key) % shards;
    (i / GROUP, i % GROUP)
  }

  lemma LocateInRange<K>(hash: K -> nat, shards: nat, key: K)
    requires shards > 0 && shards % GROUP == 0
    ensures Locate(hash, shards, key).0 < shards / GROUP && Locate(hash, shards, key).1 < GROUP
  {
    assert shards == (shards / GROUP) * GROUP;
  }

  /** The shard at a directory position, empty where nothing is allocated. */
  function ShardAt<K, V>(groups: Directory<K, V>, g: nat, l: nat): Shard<K, V> {
    if g < |groups| && groups[g].Some? && l < |groups[g].value| && groups[g].value[l].Some?
    then groups[g].value[l].value
    else map[]
  }

  /** A group has its fixed size and something in it, and no shard in it is empty. */
  ghost predicate WellFormed<K(!new), V>(group: Group<K, V>) {
    && |group| == GROUP
    && (exists l :: 0 <= l < GROUP && group[l].Some?)
    && (forall l :: 0 <= l < GROUP && group[l].Some? ==> group[l].value != map[])
  }

  ghost predicate Shape<K(!new), V>(groups: Directory<K, V>, shards: nat) {
    && shards > 0 && shards % GROUP == 0 && |groups| == shards / GROUP
    && (forall g :: 0 <= g < |groups| && groups[g].Some? ==> WellFormed(groups[g].value))
  }

  /** The part of a map whose keys hash to one shard. */
  ghost function Slice<K(!new), V>(contents: map<K, V>, hash: K -> nat, shards: nat, g: nat, l: nat): map<K, V>
    requires shards > 0
  {
    map k | k in contents && Locate(hash, shards, k) == (g, l) :: contents[k]
  }

  /** Every shard holds exactly the keys that hash to it. */
  ghost predicate Filed<K(!new), V(!new)>(groups: Directory<K, V>, hash: K -> nat, shards: nat, contents: map<K, V>)
    requires shards > 0
  {
    forall g, l :: 0 <= g < |groups| && 0 <= l < GROUP ==> ShardAt(groups, g, l) == Slice(contents, hash, shards, g, l)
  }

  /** The directory after one shard is overwritten, allocating its group when needed. */
  function WithShard<K, V>(groups: Directory<K, V>, g: nat, l: nat, shard: Shard<K, V>): Directory<K, V>
    requires g < |groups| && l < GROUP
    requires groups[g].Some? ==> |groups[g].value| == GROUP
  {
    var group := if groups[g].Some? then groups[g].value else seq(GROUP, _ => None);
    groups[g := Some(group[l := Some(shard)])]
  }

  /** The directory after one shard shrinks: an empty shard is dropped, and so is a group left with none. */
  function ShrinkShard<K(==), V(==)>(groups: Directory<K, V>, g: nat, l: nat, shard: Shard<K, V>): Directory<K, V>
    requires g < |groups| && l < GROUP && groups[g].Some? && |groups[g].value| == GROUP
  {
    var group := groups[g].value[l := if shard == map[] then None else Some(shard)];
    if Vacant(group) then groups[g := None] else groups[g := Some(group)]
  }

  predicate Vacant<K, V>(group: Group<K, V>) {
    forall i :: 0 <= i < |group| ==> group[i].None?
  }

  lemma WithShardShape<K(!new), V>(groups: Directory<K, V>, shards: nat, g: nat, l: nat, shard: Shard<K, V>)
    requires Shape(groups, shards) && g < |groups| && l < GROUP && shard != map[]
    ensures Shape(WithShard(groups, g, l, shard), shards)
    ensures forall i, j :: 0 <= i < |groups| && 0 <= j < GROUP ==>
      ShardAt(WithShard(groups, g, l, shard), i, j) == if (i, j) == (g, l) then shard else ShardAt(groups, i, j)
  {
    var after := WithShard(groups, g, l, shard);
    assert after[g].value[l].Some?;
    assert WellFormed(after[g].value);
  }

  lemma ShrinkShardShape<K(!new), V>(groups: Directory<K, V>, shards: nat, g: nat, l: nat, shard: Shard<K, V>)
    requires Shape(groups, shards) && g < |groups| && l < GROUP && groups[g].Some?
    ensures Shape(ShrinkShard(groups, g, l, shard), shards)
    ensures forall i, j :: 0 <= i < |groups| && 0 <= j < GROUP ==>
      ShardAt(ShrinkShard(groups, g, l, shard), i, j) == if (i, j) == (g, l) then shard else ShardAt(groups, i, j)
  {
    var after := ShrinkShard(groups, g, l, shard);
    var group := groups[g].value[l := if shard == map[] then None else Some(shard)];
    if after[g].Some? {
      assert WellFormed(group);
    } else {
      assert Vacant(group);
      forall j | 0 <= j < GROUP ensures ShardAt(after, g, j) == if j == l then shard else ShardAt(groups, g, j) {
        assert group[j].None?;
      }
    }
  }

  lemma SliceUpdate<K(!new), V>(contents: map<K, V>, hash: K -> nat, shards: nat, key: K, value: V, g: nat, l: nat)
    requires shards > 0
    ensures Slice(contents[key := value], hash, shards, g, l)
      == if (g, l) == Locate(hash, shards, key) then Slice(contents, hash, shards, g, l)[key := value]
         else Slice(contents, hash, shards, g, l)
  {
  }

  lemma SliceRemove<K(!new), V>(contents: map<K, V>, hash: K -> nat, shards: nat, key: K, g: nat, l: nat)
    requires shards > 0
    ensures Slice(contents - {key}, hash, shards, g, l)
      == if (g, l) == Locate(hash, shards, key) then Slice(contents, hash, shards, g, l) - {key}
         else Slice(contents, hash, shards, g, l)
  {
  }

  class ShardedMap<K(==,!new), V(==,!new)> {
    const shards: nat
    const hash: K -> nat
    var groups: Directory<K, V>
    var len: nat
    ghost var contents: map<K, V>

    /** The directory has its shape, files every key under its own hash, and counts its keys exactly. */
    ghost predicate Valid()
      reads this
    {
      Shape(groups, shards) && Filed(groups, hash, shards, contents) && len == |contents|
    }

    constructor (shards: nat, hash: K -> nat)
      requires shards > 0 && shards % GROUP == 0
      ensures Valid() && contents == map[]
    {
      this.shards, this.hash := shards, hash;
      groups := seq(shards / GROUP, _ => None);
      len, contents := 0, map[];
    }

    function Get(key: K): (value: Option<V>)
      requires Valid()
      reads this
      ensures value == if key in contents then Some(contents[key]) else None
    {
      LocateInRange(hash, shards, key);
      var (g, l) := Locate(hash, shards, key);
      var shard := ShardAt(groups, g, l);
      assert shard == Slice(contents, hash, shards, g, l);
      if key in shard then Some(shard[key]) else None
    }

    method Insert(key: K, value: V) returns (previous: Option<V>)
      requires Valid()
      modifies this
      ensures Valid() && contents == old(contents)[key := value]
      ensures previous == if key in old(contents) then Some(old(contents)[key]) else None
    {
      previous := Get(key);
      Place(key, value);
      if previous.None? {
        len := len + 1;
      }
    }

    /** Write through `get_mut`: the key is present and only its value changes. */
    method Update(key: K, value: V)
      requires Valid() && key in contents
      modifies this
      ensures Valid() && contents == old(contents)[key := value]
    {
      Place(key, value);
      assert contents.Keys == old(contents).Keys;
      assert |contents| == |contents.Keys| && |old(contents)| == |old(contents).Keys|;
    }

    method Place(key: K, value: V)
      requires Shape(groups, shards) && Filed(groups, hash, shards, contents)
      modifies this`groups, this`contents
      ensures Shape(groups, shards) && Filed(groups, hash, shards, contents)
      ensures contents == old(contents)[key := value]
    {
      LocateInRange(hash, shards, key);
      var (g, l) := Locate(hash, shards, key);
      var shard := ShardAt(groups, g, l)[key := value];
      PlaceKeeps(groups, hash, shards, contents, key, value);
      groups := WithShard(groups, g, l, shard);
      contents := contents[key := value];
    }

    method Remove(key: K) returns (previous: Option<V>)
      requires Valid()
      modifies this
      ensures Valid() && contents == old(contents) - {key}
      ensures previous == if key in old(contents) then Some(old(contents)[key]) else None
    {
      LocateInRange(hash, shards, key);
      var (g, l) := Locate(hash, shards, key);
      previous := Get(key);
      if groups[g].None? || groups[g].value[l].None? {
        assert ShardAt(groups, g, l) == Slice(contents, hash, shards, g, l);
        assert key !in contents;
        assert contents - {key} == contents;
        return;
      }
      RemoveKeeps(groups, hash, shards, contents, key);
      groups := ShrinkShard(groups, g, l, ShardAt(groups, g, l) - {key});
      if previous.Some? {
        assert (contents - {key}).Keys == contents.Keys - {key};
        assert |contents - {key}| == |contents| - 1;
        len := len - 1;
      } else {
        assert contents - {key} == contents;
      }
      contents := contents - {key};
    }

    /** The values of the map, gathered shard by shard. */
    function Values(): (values: set<V>)
      requires Valid()
      reads this
      ensures values == set k | k in contents :: contents[k]
    {
      ValuesBySlice(groups, hash, shards, contents);
      set g: nat, l: nat, k | 0 <= g < |groups| && 0 <= l < GROUP && k in ShardAt(groups, g, l) :: ShardAt(groups, g, l)[k]
    }

    /** The iterator: every pair of the map, once. */
    method Pairs() returns (pairs: seq<(K, V)>)
      requires Valid()
      ensures |pairs| == len
      ensures forall i, j :: 0 <= i < j < |pairs| ==> pairs[i].0 != pairs[j].0
      ensures forall k, v :: (k, v) in pairs <==> k in contents && contents[k] == v
    {
      hide Lists, Shape, Slice, Filed, ShardAt, Region, Locate;
      pairs := [];
      NothingListed<K, V>();
      ShapeFacts(groups, shards);
      RegionStart(contents, hash, shards);
      for g := 0 to |groups|
        invariant Lists(pairs, Region(contents, hash, shards, g, 0))
      {
        pairs := GroupPairs(g, pairs);
      }
      RegionEnd(groups, hash, shards, contents);
      ListedOnce(pairs, contents);
    }

    method GroupPairs(g: nat, before: seq<(K, V)>) returns (pairs: seq<(K, V)>)
      requires Valid() && g < |groups| && shards > 0
      requires Lists(before, Region(contents, hash, shards, g, 0))
      ensures Lists(pairs, Region(contents, hash, shards, g + 1, 0))
    {
      hide Lists, Shape, Slice, Filed, ShardAt, Region, Locate;
      pairs := before;
      for l := 0 to GROUP
        invariant Lists(pairs, Region(contents, hash, shards, g, l))
      {
        var shard := ShardAt(groups, g, l);
        ShardIsSlice(groups, hash, shards, contents, g, l);
        var more := ShardPairs(shard);
        RegionStep(contents, hash, shards, g, l);
        ListsConcat(pairs, Region(contents, hash, shards, g, l), more, shard);
        pairs := pairs + more;
      }
      RegionNext(groups, hash, shards, contents, g);
    }
  }

  predicate Before(at: (nat, nat), g: nat, l: nat) {
    at.0 < g || (at.0 == g && at.1 < l)
  }

  ghost predicate Lists<K(!new), V(!new)>(pairs: seq<(K, V)>, m: map<K, V>) {
    && |pairs| == |m|
    && (forall i, j :: 0 <= i < j < |pairs| ==> pairs[i].0 != pairs[j].0)
    && (forall k, v :: (k, v) in pairs <==> k in m && m[k] == v)
  }

  /** The keys of a map that live before a directory position. */
  ghost function Region<K(!new), V>(contents: map<K, V>, hash: K -> nat, shards: nat, g: nat, l: nat): map<K, V>
    requires shards > 0
  {
    map k | k in contents && Before(Locate(hash, shards, k), g, l) :: contents[k]
  }

  lemma RegionStart<K(!new), V>(contents: map<K, V>, hash: K -> nat, shards: nat)
    requires shards > 0
    ensures Region(contents, hash, shards, 0, 0) == map[]
  {
  }

  lemma RegionStep<K(!new), V>(contents: map<K, V>, hash: K -> nat, shards: nat, g: nat, l: nat)
    requires shards > 0
    ensures Region(contents, hash, shards, g, l + 1) == Region(contents, hash, shards, g, l) + Slice(contents, hash, shards, g, l)
    ensures Region(contents, hash, shards, g, l).Keys !! Slice(contents, hash, shards, g, l).Keys
  {
  }

  lemma RegionNext<K(!new), V>(groups: Directory<K, V>, hash: K -> nat, shards: nat, contents: map<K, V>, g: nat)
    requires Shape(groups, shards)
    ensures Region(contents, hash, shards, g, GROUP) == Region(contents, hash, shards, g + 1, 0)
  {
    forall k | k in contents ensures Locate(hash, shards, k).1 < GROUP {
      LocateInRange(hash, shards, k);
    }
  }

  lemma RegionEnd<K(!new), V>(groups: Directory<K, V>, hash: K -> nat, shards: nat, contents: map<K, V>)
    requires Shape(groups, shards)
    ensures Region(contents, hash, shards, |groups|, 0) == contents
  {
    forall k | k in contents ensures Locate(hash, shards, k).0 < |groups| {
      LocateInRange(hash, shards, k);
    }
  }

  lemma ValuesBySlice<K(!new), V(!new)>(groups: Directory<K, V>, hash: K -> nat, shards: nat, contents: map<K, V>)
    requires Shape(groups, shards) && Filed(groups, hash, shards, contents)
    ensures (set k | k in contents :: contents[k])
      == (set g: nat, l: nat, k | 0 <= g < |groups| && 0 <= l < GROUP && k in ShardAt(groups, g, l) :: ShardAt(groups, g, l)[k])
  {
    var gathered := set g: nat, l: nat, k | 0 <= g < |groups| && 0 <= l < GROUP && k in ShardAt(groups, g, l) :: ShardAt(groups, g, l)[k];
    forall k | k in contents ensures contents[k] in gathered {
      LocateInRange(hash, shards, k);
      var (g, l) := Locate(hash, shards, k);
      ShardIsSlice(groups, hash, shards, contents, g, l);
      assert k in ShardAt(groups, g, l);
    }
    forall g: nat, l: nat, k | 0 <= g < |groups| && 0 <= l < GROUP && k in ShardAt(groups, g, l)
      ensures k in contents && ShardAt(groups, g, l)[k] == contents[k]
    {
      ShardIsSlice(groups, hash, shards, contents, g, l);
    }
  }

  lemma ShapeFacts<K(!new), V>(groups: Directory<K, V>, shards: nat)
    requires Shape(groups, shards)
    ensures shards > 0
  {
  }

  lemma MoveOver<K, V>(done: map<K, V>, left: map<K, V>, k: K)
    requires k in left && done.Keys !! left.Keys
    ensures (done + map[k := left[k]]).Keys !! (left - {k}).Keys
    ensures done + map[k := left[k]] + (left - {k}) == done + left
  {
  }

  lemma ShardIsSlice<K(!new), V(!new)>(groups: Directory<K, V>, hash: K -> nat, shards: nat, contents: map<K, V>,
                       g: nat, l: nat)
    requires shards > 0 && Filed(groups, hash, shards, contents) && g < |groups| && l < GROUP
    ensures ShardAt(groups, g, l) == Slice(contents, hash, shards, g, l)
  {
  }

  lemma NothingListed<K(!new), V(!new)>()
    ensures Lists<K, V>([], map[])
  {
  }

  lemma ListedOnce<K(!new), V(!new)>(pairs: seq<(K, V)>, m: map<K, V>)
    requires Lists(pairs, m)
    ensures |pairs| == |m|
    ensures forall i, j :: 0 <= i < j < |pairs| ==> pairs[i].0 != pairs[j].0
    ensures forall k, v :: (k, v) in pairs <==> k in m && m[k] == v
  {
  }

  lemma ListsOne<K(!new), V(!new)>(k: K, v: V)
    ensures Lists([(k, v)], map[k := v])
  {
  }

  lemma ListsConcat<K(!new), V(!new)>(a: seq<(K, V)>, m: map<K, V>, b: seq<(K, V)>, n: map<K, V>)
    requires Lists(a, m) && Lists(b, n) && m.Keys !! n.Keys
    ensures Lists(a + b, m + n)
  {
    assert (m + n).Keys == m.Keys + n.Keys;
    assert |m + n| == |m| + |n|;
    forall i, j | 0 <= i < j < |a + b| ensures (a + b)[i].0 != (a + b)[j].0 {
      if i < |a| <= j {
        assert (a[i].0, a[i].1) in a && (b[j - |a|].0, b[j - |a|].1) in b;
      }
    }
  }

  method ShardPairs<K(==,!new), V(!new)>(shard: map<K, V>) returns (pairs: seq<(K, V)>)
    ensures Lists(pairs, shard)
  {
    hide Lists;
    pairs := [];
    var left := shard;
    ghost var done: map<K, V> := map[];
    NothingListed<K, V>();
    while left != map[]
      invariant Lists(pairs, done)
      invariant done.Keys !! left.Keys && done + left == shard
      decreases |left|
    {
      var k :| k in left;
      ListsOne(k, left[k]);
      MoveOver(done, left, k);
      ListsConcat(pairs, done, [(k, left[k])], map[k := left[k]]);
      pairs := pairs + [(k, left[k])];
      done := done + map[k := left[k]];
      left := left - {k};
    }
    assert done + left == done;
  }

  lemma PlaceKeeps<K(!new), V(!new)>(groups: Directory<K, V>, hash: K -> nat, shards: nat, contents: map<K, V>,
                     key: K, value: V)
    requires Shape(groups, shards) && Filed(groups, hash, shards, contents)
    ensures var (g, l) := Locate(hash, shards, key);
      && g < |groups| && l < GROUP
      && var after := WithShard(groups, g, l, ShardAt(groups, g, l)[key := value]);
         Shape(after, shards) && Filed(after, hash, shards, contents[key := value])
  {
    LocateInRange(hash, shards, key);
    var (g, l) := Locate(hash, shards, key);
    var shard := ShardAt(groups, g, l)[key := value];
    assert key in shard;
    WithShardShape(groups, shards, g, l, shard);
    var after := WithShard(groups, g, l, shard);
    forall i, j | 0 <= i < |after| && 0 <= j < GROUP
      ensures ShardAt(after, i, j) == Slice(contents[key := value], hash, shards, i, j)
    {
      SliceUpdate(contents, hash, shards, key, value, i, j);
      assert ShardAt(groups, i, j) == Slice(contents, hash, shards, i, j);
    }
  }

  lemma RemoveKeeps<K(!new), V(!new)>(groups: Directory<K, V>, hash: K -> nat, shards: nat, contents: map<K, V>, key: K)
    requires Shape(groups, shards) && Filed(groups, hash, shards, contents)
    requires Locate(hash, shards, key).0 < |groups| && groups[Locate(hash, shards, key).0].Some?
    ensures var (g, l) := Locate(hash, shards, key);
      && l < GROUP
      && var after := ShrinkShard(groups, g, l, ShardAt(groups, g, l) - {key});
         Shape(after, shards) && Filed(after, hash, shards, contents - {key})
  {
    LocateInRange(hash, shards, key);
    var (g, l) := Locate(hash, shards, key);
    var shard := ShardAt(groups, g, l) - {key};
    ShrinkShardShape(groups, shards, g, l, shard);
    var after := ShrinkShard(groups, g, l, shard);
    forall i, j | 0 <= i < |after| && 0 <= j < GROUP
      ensures ShardAt(after, i, j) == Slice(contents - {key}, hash, shards, i, j)
    {
      SliceRemove(contents, hash, shards, key, i, j);
      assert ShardAt(groups, i, j) == Slice(contents, hash, shards, i, j);
    }
  }
}
