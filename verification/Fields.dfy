/** The fields of a message type, cross-linked by name and by number, and the pool that they are
    allocated from.

    Names are the addresses of interned names. Both indexes are maps here: an entry whose value is
    NULL counts as absent.
 */
module Fields {
  import opened Common
  import opened Words

  // ---- The pool ----

  const OBJECTS_PER_PAGE: nat := 40 // (PB_POOLSIZE - sizeof(void*)) / obj_size; any number above 0

  class Pool {
    var freed: seq<nat> // the free list, its head first
    var pages: nat

    ghost var live: set<nat> // handed out and not given back

    // Each object of each page is either handed out or on the free list, once.
    ghost predicate Valid()
      reads this
    {
      && (forall i, j | 0 <= i < j < |freed| :: freed[i] != freed[j])
      && (forall x | x in freed :: x !in live)
      && (forall x: nat :: x < pages * OBJECTS_PER_PAGE <==> x in freed || x in live)
    }

    constructor ()
      ensures Valid() && live == {}
    {
      freed, pages, live := [], 0, {};
    }

    // pb_poolalloc: a new page keeps its first object and puts the others on the free list.
    method Alloc() returns (obj: nat)
      requires Valid()
      modifies this
      ensures Valid() && obj !in old(live) && live == old(live) + {obj}
      ensures pages == old(pages) + (if old(freed) == [] then 1 else 0)
    {
      if freed == [] {
        var base := pages * OBJECTS_PER_PAGE;
        freed := seq(OBJECTS_PER_PAGE - 1, i => base + 1 + i);
        forall x: nat | base < x < base + OBJECTS_PER_PAGE ensures x in freed {
          assert freed[x - base - 1] == x;
        }
        pages := pages + 1;
        obj := base;
      } else {
        obj := freed[0];
        assert freed == [obj] + freed[1..];
        freed := freed[1..];
      }
      live := live + {obj};
    }

    // pb_poolfree
    method Free(obj: nat)
      requires Valid() && obj in live
      modifies this
      ensures Valid() && live == old(live) - {obj} && pages == old(pages)
    {
      freed := [obj] + freed;
      live := live - {obj};
    }
  }

  // ---- The fields of a type ----

  datatype Field = Field(name: nat, number: int32)

  // The indexes by name and by number, and what the live fields hold, by address.
  datatype Indexes = Indexes(names: map<nat, nat>, tags: map<int32, nat>, fields: map<nat, Field>)
  {
    ghost predicate ByName(f: nat) { f in fields && fields[f].name in names && names[fields[f].name] == f }

    ghost predicate ByNumber(f: nat) { f in fields && fields[f].number in tags && tags[fields[f].number] == f }

    // Each entry leads to a live field that has its key, and each live field is led to by its name
    // or by its number.
    ghost predicate Ok() {
      && (forall n | n in names :: names[n] in fields && fields[names[n]].name == n)
      && (forall k | k in tags :: tags[k] in fields && fields[tags[k]].number == k)
      && (forall f | f in fields :: ByName(f) || ByNumber(f))
    }

    // In the middle of deleting a type: the entries of the names in `todo` and of all numbers lead to
    // live fields, and nothing else is live.
    ghost predicate PartlyFreed(todo: set<nat>) {
      && (forall n | n in todo :: n in names && names[n] in fields && fields[names[n]].name == n)
      && (forall k | k in tags :: tags[k] in fields && fields[tags[k]].number == k)
      && (forall f | f in fields :: (fields[f].name in todo && names[fields[f].name] == f) || ByNumber(f))
    }

    // f is freed and its number's entry, if it leads to f, taken out.
    ghost function Freed(f: nat): Indexes
      requires f in fields
    {
      Indexes(names, if ByNumber(f) then tags - {fields[f].number} else tags, fields - {f})
    }

    ghost predicate OnlyNumbered() {
      && (forall k | k in tags :: tags[k] in fields)
      && (forall f | f in fields :: ByNumber(f))
    }

    // Fields that would be in no index once the name and the number belong to another field.
    ghost function Orphans(name: nat, number: int32): set<nat> {
      NamedOrphan(name) + NumberedOrphan(number)
    }

    ghost function NamedOrphan(name: nat): set<nat> {
      if name in names && !ByNumber(names[name]) then {names[name]} else {}
    }

    ghost function NumberedOrphan(number: int32): set<nat> {
      if number in tags && !ByName(tags[number]) then {tags[number]} else {}
    }

    ghost function WithField(name: nat, number: int32, f: nat): Indexes {
      Indexes(names[name := f], tags[number := f], (fields - Orphans(name, number))[f := Field(name, number)])
    }

    ghost function WithoutField(f: nat): Indexes
      requires f in fields
    {
      Indexes(if ByName(f) then names - {fields[f].name} else names,
              if ByNumber(f) then tags - {fields[f].number} else tags,
              fields - {f})
    }
  }

  lemma NewFieldKeeps(ix: Indexes, name: nat, number: int32, f: nat)
    requires ix.Ok() && f !in ix.fields
    requires !(name in ix.names && number in ix.tags && ix.names[name] == ix.tags[number])
    ensures ix.WithField(name, number, f).Ok()
  {
    var ix' := ix.WithField(name, number, f);
    forall g | g in ix'.fields ensures ix'.ByName(g) || ix'.ByNumber(g) {
      if g != f {
        assert ix.ByName(g) || ix.ByNumber(g);
      }
    }
  }

  lemma DelFieldKeeps(ix: Indexes, f: nat)
    requires ix.Ok() && f in ix.fields
    ensures ix.WithoutField(f).Ok()
    ensures forall n :: n in ix.WithoutField(f).names <==> n in ix.names && ix.names[n] != f
    ensures forall k :: k in ix.WithoutField(f).tags <==> k in ix.tags && ix.tags[k] != f
  {
    var ix' := ix.WithoutField(f);
    forall g | g in ix'.fields ensures ix'.ByName(g) || ix'.ByNumber(g) {
      assert ix.ByName(g) || ix.ByNumber(g);
    }
  }

  // A live field stays live exactly if one of the indexes still leads to it.
  lemma FreedIffOrphaned(ix: Indexes, name: nat, number: int32, f: nat, g: nat)
    requires ix.Ok() && g in ix.fields && f !in ix.fields
    requires !(name in ix.names && number in ix.tags && ix.names[name] == ix.tags[number])
    ensures var ix' := ix.WithField(name, number, f);
            g in ix'.fields <==> (ix.fields[g].name in ix'.names && ix'.names[ix.fields[g].name] == g) ||
                                 (ix.fields[g].number in ix'.tags && ix'.tags[ix.fields[g].number] == g)
  {
    assert ix.ByName(g) || ix.ByNumber(g);
  }

  class MessageType {
    var names: map<nat, nat> // field_names
    var tags: map<int32, nat> // field_tags
    var fields: map<nat, Field>
    var fieldCount: int
    const pool: Pool

    ghost function S(): Indexes
      reads this
    {
      Indexes(names, tags, fields)
    }

    // The pool's other objects belong to other types.
    ghost predicate Allocated()
      reads this, pool
    {
      pool.Valid() && fields.Keys <= pool.live && fieldCount == |fields|
    }

    ghost predicate Valid()
      reads this, pool
    {
      S().Ok() && Allocated()
    }

    constructor (pool: Pool)
      requires pool.Valid()
      ensures Valid() && fields == map[] && this.pool == pool
    {
      this.pool := pool;
      names, tags, fields, fieldCount := map[], map[], map[], 0;
    }

    // What the pool has handed out to other types.
    ghost function Others(): set<nat>
      reads this, pool
    {
      pool.live - fields.Keys
    }

    // pb_fname and pb_field
    function NameOf(n: nat): Option<nat>
      reads this
    {
      if n in names then Some(names[n]) else None
    }

    function NumberOf(k: int32): Option<nat>
      reads this
    {
      if k in tags then Some(tags[k]) else None
    }

    // pbT_freefield and `--field_count`. The pool accepts only what is handed out, so a field cannot
    // be freed twice.
    method FreeField(f: nat)
      requires Allocated() && f in fields
      modifies `fields, `fieldCount, pool
      ensures Allocated() && fields == old(fields) - {f} && Others() == old(Others())
    {
      pool.Free(f);
      MinusOne(fields, f);
      fields := fields - {f};
      fieldCount := fieldCount - 1;
    }

    // pb_newfield
    method NewField(name: nat, number: int32) returns (f: nat)
      requires Valid()
      modifies this, pool
      ensures Valid()
      ensures f in fields && fields[f] == Field(name, number)
      ensures if name in old(names) && old(NumberOf(number)) == Some(old(names)[name])
              then f == old(names)[name] && S() == old(S())
              else f !in old(pool.live) && S() == old(S()).WithField(name, number, f)
    {
      var nf, tf := NameOf(name), NumberOf(number);
      if nf.Some? && tf == nf {
        return nf.value;
      }
      f := pool.Alloc();
      NewFieldKeeps(S(), name, number, f);
      ghost var was := S();
      FreeOrphans(name, number);
      assert f in Others();
      PlusOne(fields, f, Field(name, number));
      fields := fields[f := Field(name, number)];
      fieldCount := fieldCount + 1;
      names, tags := names[name := f], tags[number := f];
      assert S() == was.WithField(name, number, f);
    }

    // A field that loses its last index entry is freed.
    method FreeOrphans(name: nat, number: int32)
      requires S().Ok() && Allocated()
      requires name in names && number in tags ==> names[name] != tags[number]
      modifies `fields, `fieldCount, pool
      ensures Allocated() && Others() == old(Others())
      ensures fields == old(fields) - old(S()).Orphans(name, number)
    {
      ghost var s := S();
      FreeIfOrphan(NameOf(name), true, s.NamedOrphan(name));
      FreeIfOrphan(NumberOf(number), false, s.NumberedOrphan(number));
      MinusBoth(s.fields, s.NamedOrphan(name), s.NumberedOrphan(number));
    }

    // One of the two tests: is the field in the other index?
    method FreeIfOrphan(f: Option<nat>, named: bool, ghost orphan: set<nat>)
      requires Allocated() && (f.Some? ==> f.value in fields)
      requires orphan ==
               if f.Some? && !(if named then S().ByNumber(f.value) else S().ByName(f.value)) then {f.value} else {}
      modifies `fields, `fieldCount, pool
      ensures Allocated() && Others() == old(Others()) && fields == old(fields) - orphan
    {
      if f.Some? {
        var other := if named then NumberOf(fields[f.value].number) else NameOf(fields[f.value].name);
        if other != f {
          FreeField(f.value);
        }
      }
    }

    // pb_delfield
    method DelField(f: nat)
      requires Valid() && f in fields
      modifies this, pool
      ensures Valid() && S() == old(S()).WithoutField(f) && Others() == old(Others())
    {
      DelFieldKeeps(S(), f);
      ghost var after := S().WithoutField(f);
      assert S().ByName(f) || S().ByNumber(f);
      var name, number := fields[f].name, fields[f].number;
      var count := 0;
      if NameOf(name) == Some(f) {
        names := names - {name};
        count := count + 1;
      }
      if NumberOf(number) == Some(f) {
        tags := tags - {number};
        count := count + 1;
      }
      if count > 0 {
        FreeField(f);
      }
      assert S() == after;
    }

    // pb_deltype: the fields that have their name's entry are freed first, and taken out of the
    // index by number; what that index still holds is freed next.
    method DelType()
      requires Valid()
      modifies this, pool
      ensures Valid() && names == map[] && tags == map[] && fields == map[] && fieldCount == 0
      ensures Others() == old(Others())
    {
      FreeNamed();
      FreeNumbered();
      names, tags, fieldCount := map[], map[], 0;
    }

    method FreeNamed()
      requires Valid()
      modifies `tags, `fields, `fieldCount, pool
      ensures Allocated() && S().OnlyNumbered() && Others() == old(Others())
    {
      var todo := names.Keys;
      while todo != {}
        invariant Allocated() && S().PartlyFreed(todo) && Others() == old(Others())
        decreases |todo|
      {
        var n :| n in todo;
        ghost var s := S();
        var f := names[n];
        if NumberOf(fields[f].number) == Some(f) {
          tags := tags - {fields[f].number};
        }
        FreeField(f);
        OneFreed(s, todo, n);
        todo := todo - {n};
        assert S() == s.Freed(f);
      }
    }

    method FreeNumbered()
      requires Allocated() && S().OnlyNumbered()
      modifies `fields, `fieldCount, pool
      ensures Allocated() && fields == map[] && Others() == old(Others())
    {
      var left := tags.Values;
      forall f | f in fields ensures f in left {
        assert fields[f].number in tags && tags[fields[f].number] == f;
      }
      forall f | f in left ensures f in fields {
        assert exists k :: k in tags && tags[k] == f;
      }
      while left != {}
        invariant Allocated() && left == fields.Keys && Others() == old(Others())
        decreases |left|
      {
        var f :| f in left;
        FreeField(f);
        left := left - {f};
      }
    }
  }

  lemma OneFreed(s: Indexes, todo: set<nat>, n: nat)
    requires s.PartlyFreed(todo) && n in todo
    ensures var f := s.names[n];
            s.Freed(f).PartlyFreed(todo - {n})
  {
  }

  lemma MinusBoth(m: map<nat, Field>, a: set<nat>, b: set<nat>)
    ensures m - a - b == m - (a + b)
  {
  }

  lemma MinusOne(m: map<nat, Field>, f: nat)
    requires f in m
    ensures |m - {f}| == |m| - 1
  {
    assert (m - {f}).Keys == m.Keys - {f};
    assert |m - {f}| == |(m - {f}).Keys| && |m| == |m.Keys|;
  }

  lemma PlusOne(m: map<nat, Field>, f: nat, x: Field)
    requires f !in m
    ensures |m[f := x]| == |m| + 1
  {
    assert m[f := x].Keys == m.Keys + {f};
    assert |m[f := x]| == |m[f := x].Keys| && |m| == |m.Keys|;
  }
}
