/** The table of interned names: hashed buckets of reference-counted entries, and a cache of hashes
    keyed by the address of a string.

    An entry is identified by the address it was allocated at; other tables use it as a key. The
    list of a bucket is a sequence here, first entry first.
 */
module Names {
  import opened Common

  const MIN_SIZE: nat := 16 // PB_MIN_STRTABLE_SIZE
  const CACHE_SIZE: nat := 53 // PB_CACHE_SIZE
  const LENGTH_LIMIT: nat := 0x1_0000 // the length of an entry has 16 bits

  datatype Entry = Entry(text: seq<byte>, hash: nat, length: nat, refcount: nat)

  // pbN_calchash is a parameter: nothing here depends on how it mixes the bytes.
  type HashFunction = seq<byte> -> nat

  // `hash & (size - 1)`; the size is a power of two.
  function Bucket(hash: nat, size: nat): (b: nat)
    requires size > 0
    ensures b < size
  {
    hash % size
  }

  // ---- Buckets that hold the entries ----

  ghost predicate NoTwice(bucket: seq<nat>) {
    forall j, k | 0 <= j < k < |bucket| :: bucket[j] != bucket[k]
  }

  ghost predicate BucketOk(buckets: seq<seq<nat>>, entries: map<nat, Entry>, i: nat)
    requires i < |buckets|
  {
    && NoTwice(buckets[i])
    && forall id | id in buckets[i] :: id in entries && Bucket(entries[id].hash, |buckets|) == i
  }

  ghost predicate IsStored(buckets: seq<seq<nat>>, entries: map<nat, Entry>, id: nat)
    requires id in entries
  {
    |buckets| > 0 && id in buckets[Bucket(entries[id].hash, |buckets|)]
  }

  // Each entry is in the bucket of its hash, once, and nothing else is in the buckets.
  ghost predicate Stores(buckets: seq<seq<nat>>, entries: map<nat, Entry>) {
    && (forall i | 0 <= i < |buckets| :: BucketOk(buckets, entries, i))
    && (forall id | id in entries :: IsStored(buckets, entries, id))
  }

  // What an entry says about its text.
  ghost predicate EntryOk(hasher: HashFunction, e: Entry) {
    e.hash == hasher(e.text) && e.length == |e.text| % LENGTH_LIMIT
  }

  // No text of less than 2^16 bytes is there twice.
  ghost predicate Interned(hasher: HashFunction, entries: map<nat, Entry>) {
    && (forall id | id in entries :: EntryOk(hasher, entries[id]))
    && (forall id, id' | id in entries && id' in entries && id != id' && |entries[id].text| < LENGTH_LIMIT ::
          entries[id].text != entries[id'].text)
  }

  function Push(buckets: seq<seq<nat>>, id: nat, hash: nat): seq<seq<nat>>
    requires |buckets| > 0
  {
    var b := Bucket(hash, |buckets|);
    buckets[b := [id] + buckets[b]]
  }

  lemma PushStores(buckets: seq<seq<nat>>, entries: map<nat, Entry>, id: nat, e: Entry)
    requires |buckets| > 0 && Stores(buckets, entries) && id !in entries
    ensures Stores(Push(buckets, id, e.hash), entries[id := e])
  {
    var after, entries' := Push(buckets, id, e.hash), entries[id := e];
    forall i | 0 <= i < |buckets| ensures BucketOk(after, entries', i) {
      assert BucketOk(buckets, entries, i);
    }
    forall x | x in entries' ensures IsStored(after, entries', x) {
      if x != id {
        assert IsStored(buckets, entries, x);
      }
    }
  }

  // Position j of bucket b is taken out.
  function Removed(buckets: seq<seq<nat>>, b: nat, j: nat): seq<seq<nat>>
    requires b < |buckets| && j < |buckets[b]|
  {
    buckets[b := buckets[b][..j] + buckets[b][j + 1..]]
  }

  lemma WithoutOne(bucket: seq<nat>, j: nat)
    requires NoTwice(bucket) && j < |bucket|
    ensures NoTwice(bucket[..j] + bucket[j + 1..])
    ensures forall id :: id in bucket[..j] + bucket[j + 1..] <==> id in bucket && id != bucket[j]
  {
    var less := bucket[..j] + bucket[j + 1..];
    assert forall k | 0 <= k < |less| :: less[k] == bucket[if k < j then k else k + 1];
    assert forall k | 0 <= k < |bucket| && k != j :: bucket[k] == less[if k < j then k else k - 1];
  }

  lemma RemoveStores(buckets: seq<seq<nat>>, entries: map<nat, Entry>, b: nat, j: nat)
    requires Stores(buckets, entries) && b < |buckets| && j < |buckets[b]|
    ensures Stores(Removed(buckets, b, j), entries - {buckets[b][j]})
  {
    var id, after := buckets[b][j], Removed(buckets, b, j);
    assert BucketOk(buckets, entries, b);
    WithoutOne(buckets[b], j);
    forall i | 0 <= i < |buckets| ensures BucketOk(after, entries - {id}, i) {
      assert BucketOk(buckets, entries, i);
    }
    forall x | x in entries - {id} ensures IsStored(after, entries - {id}, x) {
      assert IsStored(buckets, entries, x);
    }
  }

  // ---- Looking up ----

  // r is what a lookup of the text s must return: its entry, if there is one and its length can be
  // represented.
  ghost predicate IsNameOf(entries: map<nat, Entry>, s: seq<byte>, r: Option<nat>) {
    match r
    case Some(id) => id in entries && entries[id].text == s && |s| < LENGTH_LIMIT
    case None => |s| < LENGTH_LIMIT ==> forall id | id in entries :: entries[id].text != s
  }

  lemma NameIsUnique(hasher: HashFunction, entries: map<nat, Entry>, s: seq<byte>, r: Option<nat>, r': Option<nat>)
    requires Interned(hasher, entries) && IsNameOf(entries, s, r) && IsNameOf(entries, s, r')
    ensures r == r'
  {
  }

  // What a scan of a bucket for this hash and text stops at.
  predicate Matches(e: Entry, s: seq<byte>, hash: nat) {
    e.hash == hash && e.length == |s| && e.text == s
  }

  lemma MatchIsName(hasher: HashFunction, entries: map<nat, Entry>, s: seq<byte>, hash: nat, id: nat)
    requires Interned(hasher, entries) && id in entries && Matches(entries[id], s, hash)
    ensures IsNameOf(entries, s, Some(id)) && hash == hasher(s)
  {
    assert EntryOk(hasher, entries[id]);
  }

  lemma NoMatchNoName(hasher: HashFunction, buckets: seq<seq<nat>>, entries: map<nat, Entry>, s: seq<byte>, hash: nat)
    requires Stores(buckets, entries) && Interned(hasher, entries) && hash == hasher(s)
    requires |buckets| > 0 ==>
               forall id | id in buckets[Bucket(hash, |buckets|)] :: id in entries && !Matches(entries[id], s, hash)
    ensures IsNameOf(entries, s, None)
  {
    forall id | id in entries && |s| < LENGTH_LIMIT ensures entries[id].text != s {
      assert EntryOk(hasher, entries[id]) && IsStored(buckets, entries, id);
    }
  }

  // ---- Moving every entry once ----

  // The entries before position j of bucket i.
  ghost predicate Before(buckets: seq<seq<nat>>, id: nat, i: nat, j: nat)
    requires i <= |buckets|
  {
    (exists b | 0 <= b < i :: id in buckets[b]) || (i < |buckets| && j <= |buckets[i]| && id in buckets[i][..j])
  }

  ghost predicate MovedUpTo(buckets: seq<seq<nat>>, entries: map<nat, Entry>, moved: map<nat, Entry>, i: nat, j: nat)
    requires i <= |buckets|
  {
    && (forall id | id in moved :: id in entries && moved[id] == entries[id] && Before(buckets, id, i, j))
    && (forall id | id in entries && Before(buckets, id, i, j) :: id in moved)
  }

  lemma NextMoves(buckets: seq<seq<nat>>, entries: map<nat, Entry>, moved: map<nat, Entry>, i: nat, j: nat)
    requires Stores(buckets, entries) && i < |buckets| && j < |buckets[i]| && MovedUpTo(buckets, entries, moved, i, j)
    ensures var id := buckets[i][j];
            id in entries && id !in moved && MovedUpTo(buckets, entries, moved[id := entries[id]], i, j + 1)
  {
    var id := buckets[i][j];
    assert BucketOk(buckets, entries, i) && id in buckets[i];
    assert buckets[i][..j + 1] == buckets[i][..j] + [id];
    forall b | 0 <= b < i ensures id !in buckets[b] {
      assert BucketOk(buckets, entries, b);
    }
    assert id !in buckets[i][..j];
    forall x | x in entries ensures Before(buckets, x, i, j + 1) <==> Before(buckets, x, i, j) || x == id {
    }
  }

  lemma BucketMoved(buckets: seq<seq<nat>>, entries: map<nat, Entry>, moved: map<nat, Entry>, i: nat)
    requires i < |buckets| && MovedUpTo(buckets, entries, moved, i, |buckets[i]|)
    ensures MovedUpTo(buckets, entries, moved, i + 1, 0)
  {
    assert buckets[i][..|buckets[i]|] == buckets[i];
    forall x | x in entries ensures Before(buckets, x, i, |buckets[i]|) <==> Before(buckets, x, i + 1, 0) {
    }
  }

  lemma AllMoved(buckets: seq<seq<nat>>, entries: map<nat, Entry>, moved: map<nat, Entry>)
    requires Stores(buckets, entries) && MovedUpTo(buckets, entries, moved, |buckets|, 0)
    ensures moved == entries
  {
    forall id | id in entries ensures id in moved {
      assert IsStored(buckets, entries, id) && Before(buckets, id, |buckets|, 0);
    }
  }

  // A cache slot: the address of a string and the hash it had.
  datatype CacheSlot = CacheSlot(name: nat, hash: nat)

  class Cache {
    var slots: seq<(CacheSlot, CacheSlot)>
    var hash: nat

    constructor (slots: seq<(CacheSlot, CacheSlot)>)
      requires |slots| == CACHE_SIZE
      ensures this.slots == slots
    {
      this.slots, hash := slots, 0;
    }
  }

  // The string at this address has this hash.
  predicate Knows(pair: (CacheSlot, CacheSlot), address: nat, hash: nat) {
    pair.0 == CacheSlot(address, hash) || pair.1 == CacheSlot(address, hash)
  }

  predicate IsCached(pair: (CacheSlot, CacheSlot), address: nat) {
    pair.0.name == address || pair.1.name == address
  }

  // Where the slots for an address are.
  function CachePlace(address: nat): nat { address * 2654435761 % CACHE_SIZE }

  class NameTable {
    const hasher: HashFunction
    const maxSize: nat // PB_MAX_HASHSIZE / sizeof(pb_NameEntry*)
    var buckets: seq<seq<nat>>
    var entries: map<nat, Entry> // what is allocated, by address
    var count: nat

    ghost predicate Valid()
      reads this
    {
      Stores(buckets, entries) && Interned(hasher, entries) && count == |entries|
    }

    constructor (hasher: HashFunction, limit: nat)
      ensures Valid() && entries == map[] && buckets == [] && this.hasher == hasher && maxSize == limit
    {
      this.hasher := hasher;
      maxSize, buckets, count, entries := limit, [], 0, map[];
    }

    // pbN_getname: with a hash that is not the text's, nothing is found.
    method GetName(s: seq<byte>, hash: nat) returns (r: Option<nat>)
      requires Valid()
      ensures r.Some? || hash == hasher(s) ==> IsNameOf(entries, s, r)
      ensures r.Some? ==> hash == hasher(s)
    {
      if buckets != [] {
        var bucket := buckets[Bucket(hash, |buckets|)];
        assert BucketOk(buckets, entries, Bucket(hash, |buckets|));
        var i := 0;
        while i < |bucket|
          invariant 0 <= i <= |bucket|
          invariant forall j | 0 <= j < i :: !Matches(entries[bucket[j]], s, hash)
        {
          if Matches(entries[bucket[i]], s, hash) {
            MatchIsName(hasher, entries, s, hash, bucket[i]);
            return Some(bucket[i]);
          }
          i := i + 1;
        }
      }
      if hash == hasher(s) {
        NoMatchNoName(hasher, buckets, entries, s, hash);
      }
      return None;
    }

    // pbN_resize: every entry moves to the bucket of its hash in a larger array.
    method Resize(size: nat) returns (ok: bool)
      requires Valid()
      modifies `buckets
      ensures Valid() && (ok ==> size <= |buckets| && 0 < |buckets|)
      ensures !ok ==> buckets == old(buckets)
      ensures size <= MIN_SIZE || size <= maxSize ==> ok
      ensures size <= MIN_SIZE ==> |buckets| == MIN_SIZE
      ensures ok ==> |buckets| == MIN_SIZE || |buckets| < 2 * size
    {
      var newsize := Doubled(size);
      if newsize < size {
        return false;
      }
      buckets := Rehash(buckets, entries, newsize);
      return true;
    }

    // The least size by doubling from the smallest one, unless the limit is in the way.
    method Doubled(size: nat) returns (newsize: nat)
      ensures MIN_SIZE <= newsize && (newsize == MIN_SIZE || newsize < 2 * size)
      ensures size <= maxSize ==> size <= newsize
      ensures size <= MIN_SIZE ==> newsize == MIN_SIZE
    {
      newsize := MIN_SIZE;
      while newsize < maxSize && newsize < size
        invariant MIN_SIZE <= newsize && (newsize == MIN_SIZE || newsize < 2 * size)
        invariant size <= MIN_SIZE ==> newsize == MIN_SIZE
      {
        newsize := newsize * 2;
      }
    }

    static method Rehash(buckets: seq<seq<nat>>, entries: map<nat, Entry>, newsize: nat) returns (after: seq<seq<nat>>)
      requires Stores(buckets, entries) && newsize > 0
      ensures |after| == newsize && Stores(after, entries)
    {
      after := seq(newsize, _ => []);
      ghost var moved: map<nat, Entry> := map[];
      var i := 0;
      while i < |buckets|
        invariant 0 <= i <= |buckets| && |after| == newsize && Stores(after, moved)
        invariant MovedUpTo(buckets, entries, moved, i, 0)
      {
        var j := 0;
        while j < |buckets[i]|
          invariant 0 <= j <= |buckets[i]| && |after| == newsize && Stores(after, moved)
          invariant MovedUpTo(buckets, entries, moved, i, j)
        {
          var id := buckets[i][j];
          NextMoves(buckets, entries, moved, i, j);
          PushStores(after, moved, id, entries[id]);
          after := Push(after, id, entries[id].hash);
          moved := moved[id := entries[id]];
          j := j + 1;
        }
        BucketMoved(buckets, entries, moved, i);
        i := i + 1;
      }
      AllMoved(buckets, entries, moved);
    }

    // There is room for one more entry, or for an array twice as large.
    ghost predicate CanAdd()
      reads this
    {
      count < |buckets| || 2 * |buckets| <= MIN_SIZE || 2 * |buckets| <= maxSize
    }

    // pbN_newname; `address` is what malloc returns.
    method NewEntry(s: seq<byte>, hash: nat, address: nat) returns (ok: bool)
      requires Valid() && hash == hasher(s) && address !in entries
      requires IsNameOf(entries, s, None)
      modifies this
      ensures Valid()
      ensures entries == if ok then old(entries)[address := Entry(s, hash, |s| % LENGTH_LIMIT, 0)] else old(entries)
      ensures old(CanAdd()) ==> ok
      ensures ok && old(buckets) == [] ==> |buckets| == MIN_SIZE
    {
      if count >= |buckets| {
        var resized := Resize(|buckets| * 2);
        if !resized {
          return false;
        }
      }
      var e := Entry(s, hash, |s| % LENGTH_LIMIT, 0);
      PushStores(buckets, entries, address, e);
      buckets := Push(buckets, address, hash);
      NewInterned(hasher, entries, s, address, e);
      entries := entries[address := e];
      count := count + 1;
      return true;
    }

    ghost function WithEntry(was: map<nat, Entry>, s: seq<byte>, id: nat): map<nat, Entry> {
      if id in was then was else was[id := Entry(s, hasher(s), |s| % LENGTH_LIMIT, 0)]
    }

    static ghost function OneMoreUser(was: map<nat, Entry>, id: nat): map<nat, Entry>
      requires id in was
    {
      was[id := was[id].(refcount := was[id].refcount + 1)]
    }

    // pb_newname: the entry of the text, made if there is none, with one more user.
    method NewName(s: seq<byte>, address: nat) returns (r: Option<nat>)
      requires Valid() && address !in entries
      modifies this
      ensures Valid()
      ensures r == None ==> entries == old(entries)
      ensures r.Some? ==> IsNameOf(old(entries), s, if r.value in old(entries) then r else None)
      ensures r.Some? && r.value !in old(entries) ==> r.value == address
      ensures r.Some? ==> entries == OneMoreUser(WithEntry(old(entries), s, r.value), r.value)
      ensures old(CanAdd()) ==> r.Some?
      ensures r.Some? && old(buckets) == [] ==> |buckets| == MIN_SIZE
    {
      var hash := hasher(s);
      r := GetName(s, hash);
      if r == None {
        var ok := NewEntry(s, hash, address);
        if !ok {
          return None;
        }
        r := Some(address);
      }
      UseName(r.value);
    }

    // pb_usename
    method UseName(id: nat)
      requires Valid() && id in entries
      modifies `entries
      ensures Valid() && entries == OneMoreUser(old(entries), id)
    {
      CountKeeps(hasher, buckets, entries, id, entries[id].refcount + 1);
      entries := entries[id := entries[id].(refcount := entries[id].refcount + 1)];
    }

    // pb_delname: the last user frees the entry.
    method DelName(id: nat)
      requires Valid() && id in entries
      modifies this
      ensures Valid()
      ensures entries == if old(entries)[id].refcount <= 1 then old(entries) - {id}
                         else old(entries)[id := old(entries)[id].(refcount := old(entries)[id].refcount - 1)]
    {
      if entries[id].refcount <= 1 {
        Unlink(id);
      } else {
        CountKeeps(hasher, buckets, entries, id, entries[id].refcount - 1);
        entries := entries[id := entries[id].(refcount := entries[id].refcount - 1)];
      }
    }

    // pbN_delname: the scan of the entry's bucket for its pointer.
    method Unlink(id: nat)
      requires Valid() && id in entries
      modifies this
      ensures Valid() && entries == old(entries) - {id}
    {
      assert IsStored(buckets, entries, id);
      var b := Bucket(entries[id].hash, |buckets|);
      ghost var at: nat :| at < |buckets[b]| && buckets[b][at] == id;
      var j := 0;
      while buckets[b][j] != id
        invariant 0 <= j <= at
        decreases at - j
      {
        j := j + 1;
      }
      RemoveStores(buckets, entries, b, j);
      buckets := Removed(buckets, b, j);
      entries := entries - {id};
      count := count - 1;
    }

    // pb_name. Whatever the cache holds, however stale, the result is that of a lookup without it. Afterwards
    // the cache has the hash; a new string takes the place of the one that came before the last.
    method PbName(cache: Cache, address: nat, s: seq<byte>) returns (r: Option<nat>)
      requires Valid() && |cache.slots| == CACHE_SIZE
      modifies cache
      ensures IsNameOf(entries, s, r) && |cache.slots| == CACHE_SIZE
      ensures var i := CachePlace(address);
              var was := old(cache.slots)[i];
              && cache.slots == old(cache.slots)[i := cache.slots[i]]
              && Knows(cache.slots[i], address, hasher(s)) && cache.hash == hasher(s)
              && (!IsCached(was, address) ==> cache.slots[i].1 == was.0)
              && (Knows(was, address, hasher(s)) && was.0.name != was.1.name ==> cache.slots[i] == was)
    {
      var i := CachePlace(address);
      var (first, second) := cache.slots[i];
      r := None;
      var hit := 0;
      if first.name == address {
        cache.hash := first.hash;
        r := GetName(s, first.hash);
      } else if second.name == address {
        cache.hash := second.hash;
        r := GetName(s, second.hash);
        hit := 1;
      } else {
        second := first;
        first := first.(name := address);
      }
      if r == None {
        cache.hash := hasher(s);
        if hit == 0 {
          first := first.(hash := hasher(s));
        } else {
          second := second.(hash := hasher(s));
        }
        r := GetName(s, hasher(s));
      }
      cache.slots := cache.slots[i := (first, second)];
    }
  }

  lemma CountKeeps(hasher: HashFunction, buckets: seq<seq<nat>>, entries: map<nat, Entry>, id: nat, n: nat)
    requires Stores(buckets, entries) && Interned(hasher, entries) && id in entries
    ensures var after := entries[id := entries[id].(refcount := n)];
            Stores(buckets, after) && Interned(hasher, after) && |after| == |entries|
  {
    var after := entries[id := entries[id].(refcount := n)];
    forall i | 0 <= i < |buckets| ensures BucketOk(buckets, after, i) {
      assert BucketOk(buckets, entries, i);
    }
    forall x | x in after ensures IsStored(buckets, after, x) && EntryOk(hasher, after[x]) {
      assert IsStored(buckets, entries, x) && EntryOk(hasher, entries[x]);
    }
    assert after.Keys == entries.Keys;
    assert |after| == |after.Keys| && |entries| == |entries.Keys|;
  }

  // A text that has an entry is found exactly if it is shorter than 2^16 bytes.
  lemma FoundIffShort(hasher: HashFunction, entries: map<nat, Entry>, s: seq<byte>, r: Option<nat>, id: nat)
    requires Interned(hasher, entries) && IsNameOf(entries, s, r) && id in entries && entries[id].text == s
    ensures r == Some(id) <==> |s| < LENGTH_LIMIT
    ensures |s| >= LENGTH_LIMIT ==> r == None
  {
  }

  // A longer text is not found, so interning it again makes another entry: here two for one text.
  method InternTwice(hasher: HashFunction) returns (t: NameTable, s: seq<byte>)
    ensures t.Valid() && |s| == LENGTH_LIMIT
    ensures 1 in t.entries && 2 in t.entries && t.entries[1].text == s == t.entries[2].text
  {
    t := new NameTable(hasher, 0);
    s := seq(LENGTH_LIMIT, _ => 0);
    var first := t.NewName(s, 1);
    assert t.entries.Keys == {1} && t.CanAdd();
    assert |t.entries| == |t.entries.Keys|;
    var second := t.NewName(s, 2);
  }

  lemma NewInterned(hasher: HashFunction, entries: map<nat, Entry>, s: seq<byte>, id: nat, e: Entry)
    requires Interned(hasher, entries) && IsNameOf(entries, s, None) && EntryOk(hasher, e) && e.text == s &&
             id !in entries
    ensures Interned(hasher, entries[id := e])
  {
  }
}
