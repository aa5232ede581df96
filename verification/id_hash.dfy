/** The id hash of the plugin library (tscore/ffilib/source/idhash.c): 256
    doubly linked buckets of (id, data) nodes, the bucket chosen by id mod
    256. A bucket is modelled as the sequence of its nodes from the head;
    NULL data is `None`. */
module IdHash {
  import opened Wrappers

  /** FFILIB_ID_HASH_SIZE (ffilib/idhash.h). */
  const HashSize: nat := 256

  datatype Entry<D> = Entry(id: nat, data: D)

  datatype IdHash<D> = IdHash(buckets: seq<seq<Entry<D>>>)

  /** ComputeHash (idhash.c:21-24). */
  function BucketOf(id: nat): (b: nat)
    ensures b < HashSize
    ensures (id - b) % HashSize == 0
  {
    id % HashSize
  }

  /** The table has its fixed number of buckets. */
  predicate Shaped<D>(h: IdHash<D>)
  {
    |h.buckets| == HashSize
  }

  predicate DistinctIds<D>(b: seq<Entry<D>>)
  {
    forall i, j :: 0 <= i < j < |b| ==> b[i].id != b[j].id
  }

  /** Every node sits in the bucket of its id, and no bucket holds an id
      twice. */
  predicate Valid<D>(h: IdHash<D>)
  {
    Shaped(h) &&
    (forall k, i :: 0 <= k < |h.buckets| && 0 <= i < |h.buckets[k]| ==> BucketOf(h.buckets[k][i].id) == k) &&
    (forall k :: 0 <= k < |h.buckets| ==> DistinctIds(h.buckets[k]))
  }

  /** The data of the first node with `id`, walking from the head. */
  function Find<D>(b: seq<Entry<D>>, id: nat): (r: Option<D>)
    ensures r.None? <==> forall i :: 0 <= i < |b| ==> b[i].id != id
    ensures r.Some? ==> exists i :: 0 <= i < |b| && b[i] == Entry(id, r.value)
  {
    if |b| == 0 then None
    else if b[0].id == id then Some(b[0].data)
    else
      var r := Find(b[1..], id);
      assert r.Some? ==> exists i :: 0 <= i < |b[1..]| && b[1..][i] == Entry(id, r.value);
      r
  }

  /** The bucket with the first node of `id` unlinked. */
  function Unlink<D>(b: seq<Entry<D>>, id: nat): (r: seq<Entry<D>>)
    ensures |r| == |b| || |r| + 1 == |b|
    ensures forall e :: e in r ==> e in b
  {
    if |b| == 0 then []
    else if b[0].id == id then b[1..]
    else [b[0]] + Unlink(b[1..], id)
  }

  /** The bucket with the data of the first node of `id` overwritten. */
  function Overwrite<D>(b: seq<Entry<D>>, id: nat, data: D): (r: seq<Entry<D>>)
    ensures |r| == |b|
    ensures forall i :: 0 <= i < |b| ==> r[i].id == b[i].id
  {
    if |b| == 0 then []
    else if b[0].id == id then [Entry(id, data)] + b[1..]
    else [b[0]] + Overwrite(b[1..], id, data)
  }

  /** FFILib_InitializeHash: every bucket empty. */
  function Init<D>(): (h: IdHash<D>)
    ensures Valid(h)
    ensures forall id: nat :: Get(h, id) == None
  {
    IdHash(seq(HashSize, _ => []))
  }

  /** FFILib_GetIDData (idhash.c:125-142): the data stored for `id`, None
      when it is absent. */
  function Get<D>(h: IdHash<D>, id: nat): (r: Option<D>)
    requires Shaped(h)
    ensures r.None? <==> forall i :: 0 <= i < |h.buckets[BucketOf(id)]| ==> h.buckets[BucketOf(id)][i].id != id
  {
    Find(h.buckets[BucketOf(id)], id)
  }

  /** FFILib_AddID (idhash.c:55-92). An id already present has its data
      replaced in place; otherwise a node is allocated and linked at the head
      of its bucket. None is FFILIB_ERROR_MEMORY, the table unchanged. */
  function Add<D>(h: IdHash<D>, id: nat, data: D, allocOk: bool): (r: Option<IdHash<D>>)
    requires Shaped(h)
    ensures r.None? <==> !allocOk && Get(h, id).None?
    ensures r.Some? ==> Shaped(r.value)
  {
    var k := BucketOf(id);
    var b := h.buckets[k];
    if Find(b, id).Some? then Some(IdHash(h.buckets[k := Overwrite(b, id, data)]))
    else if !allocOk then None
    else Some(IdHash(h.buckets[k := [Entry(id, data)] + b]))
  }

  /** FFILib_RemoveID (idhash.c:94-123): unlink the first node of `id`, if
      any. */
  function Remove<D>(h: IdHash<D>, id: nat): (r: IdHash<D>)
    requires Shaped(h)
    ensures Shaped(r)
    ensures Get(h, id).None? ==> r == h
  {
    var k := BucketOf(id);
    var b := h.buckets[k];
    if Find(b, id).None? then h
    else IdHash(h.buckets[k := Unlink(b, id)])
  }

  /** The number of nodes held. */
  function Count<D>(buckets: seq<seq<Entry<D>>>): nat
  {
    if |buckets| == 0 then 0 else |buckets[0]| + Count(buckets[1..])
  }

  // ---------------------------------------------------------------------
  // Bucket lemmas

  lemma {:induction false} FindOverwrite<D>(b: seq<Entry<D>>, id: nat, data: D, other: nat)
    requires Find(b, id).Some?
    ensures Find(Overwrite(b, id, data), other) == if other == id then Some(data) else Find(b, other)
  {
    if b[0].id != id {
      assert Overwrite(b, id, data)[1..] == Overwrite(b[1..], id, data);
      FindOverwrite(b[1..], id, data, other);
    }
  }

  lemma {:induction false} FindUnlink<D>(b: seq<Entry<D>>, id: nat, other: nat)
    requires DistinctIds(b)
    ensures Find(Unlink(b, id), other) == if other == id then None else Find(b, other)
  {
    if |b| > 0 {
      if b[0].id == id {
        assert forall i :: 0 <= i < |b[1..]| ==> b[1..][i].id != id by {
          forall i | 0 <= i < |b[1..]| ensures b[1..][i].id != id {
            assert b[1..][i] == b[i + 1];
          }
        }
      } else {
        assert DistinctIds(b[1..]) by {
          forall i, j | 0 <= i < j < |b[1..]| ensures b[1..][i].id != b[1..][j].id {
            assert b[1..][i] == b[i + 1] && b[1..][j] == b[j + 1];
          }
        }
        assert Unlink(b, id)[1..] == Unlink(b[1..], id);
        FindUnlink(b[1..], id, other);
      }
    }
  }

  lemma {:induction false} UnlinkKeepsDistinct<D>(b: seq<Entry<D>>, id: nat)
    requires DistinctIds(b)
    ensures DistinctIds(Unlink(b, id))
  {
    if |b| > 0 {
      assert DistinctIds(b[1..]) by {
        forall i, j | 0 <= i < j < |b[1..]| ensures b[1..][i].id != b[1..][j].id {
          assert b[1..][i] == b[i + 1] && b[1..][j] == b[j + 1];
        }
      }
      if b[0].id != id {
        UnlinkKeepsDistinct(b[1..], id);
        var r := Unlink(b, id);
        forall i, j | 0 <= i < j < |r| ensures r[i].id != r[j].id {
          if i == 0 {
            assert r[j] in b[1..];
            var m :| 0 <= m < |b[1..]| && b[1..][m] == r[j];
            assert b[1..][m] == b[m + 1];
          } else {
            assert r[i] == Unlink(b[1..], id)[i - 1] && r[j] == Unlink(b[1..], id)[j - 1];
          }
        }
      }
    }
  }

  // ---------------------------------------------------------------------
  // Table lemmas: Get is a finite map that Add and Remove update pointwise.

  lemma AddValid<D>(h: IdHash<D>, id: nat, data: D, allocOk: bool)
    requires Valid(h) && Add(h, id, data, allocOk).Some?
    ensures Valid(Add(h, id, data, allocOk).value)
  {
    var k := BucketOf(id);
    var r := Add(h, id, data, allocOk).value;
    if Find(h.buckets[k], id).None? {
      var b := r.buckets[k];
      assert b == [Entry(id, data)] + h.buckets[k];
      forall i, j | 0 <= i < j < |b| ensures b[i].id != b[j].id {
        if i == 0 {
          assert b[j] == h.buckets[k][j - 1];
        } else {
          assert b[i] == h.buckets[k][i - 1] && b[j] == h.buckets[k][j - 1];
        }
      }
    }
  }

  /** After AddID, GetIDData(id) is the new data and every other id is
      unchanged; an id already present keeps its bucket's size. */
  lemma AddUpdates<D>(h: IdHash<D>, id: nat, data: D, allocOk: bool, other: nat)
    requires Valid(h) && Add(h, id, data, allocOk).Some?
    ensures Get(Add(h, id, data, allocOk).value, other) == if other == id then Some(data) else Get(h, other)
    ensures Get(h, id).Some? ==> Count(Add(h, id, data, allocOk).value.buckets) == Count(h.buckets)
    ensures Get(h, id).None? ==> Count(Add(h, id, data, allocOk).value.buckets) == Count(h.buckets) + 1
  {
    var k := BucketOf(id);
    var r := Add(h, id, data, allocOk).value;
    if Find(h.buckets[k], id).Some? {
      if BucketOf(other) == k {
        FindOverwrite(h.buckets[k], id, data, other);
      }
    }
    CountUpdate(h.buckets, k, r.buckets[k]);
  }

  /** After RemoveID, GetIDData(id) is None and every other id is
      unchanged. */
  lemma RemoveUpdates<D>(h: IdHash<D>, id: nat, other: nat)
    requires Valid(h)
    ensures Valid(Remove(h, id))
    ensures Get(Remove(h, id), other) == if other == id then None else Get(h, other)
    ensures Get(h, id).Some? ==> Count(Remove(h, id).buckets) + 1 == Count(h.buckets)
  {
    var k := BucketOf(id);
    if Find(h.buckets[k], id).Some? {
      var r := Remove(h, id);
      UnlinkKeepsDistinct(h.buckets[k], id);
      forall i | 0 <= i < |r.buckets[k]| ensures BucketOf(r.buckets[k][i].id) == k {
        assert r.buckets[k][i] in h.buckets[k];
      }
      if BucketOf(other) == k {
        FindUnlink(h.buckets[k], id, other);
      }
      UnlinkShrinks(h.buckets[k], id);
      CountUpdate(h.buckets, k, r.buckets[k]);
    }
  }

  lemma {:induction false} UnlinkShrinks<D>(b: seq<Entry<D>>, id: nat)
    requires Find(b, id).Some?
    ensures |Unlink(b, id)| + 1 == |b|
  {
    if b[0].id != id {
      UnlinkShrinks(b[1..], id);
    }
  }

  lemma {:induction false} CountUpdate<D>(bs: seq<seq<Entry<D>>>, k: nat, b: seq<Entry<D>>)
    requires k < |bs|
    ensures Count(bs[k := b]) + |bs[k]| == Count(bs) + |b|
  {
    if k > 0 {
      assert bs[k := b][1..] == bs[1..][k - 1 := b];
      CountUpdate(bs[1..], k - 1, b);
    }
  }

  /** A lookup after adding and then removing an id sees the table as it
      was, for every id. */
  lemma AddThenRemove<D>(h: IdHash<D>, id: nat, data: D, other: nat)
    requires Valid(h) && Get(h, id).None?
    ensures Add(h, id, data, true).Some?
    ensures Get(Remove(Add(h, id, data, true).value, id), other) == Get(h, other)
  {
    AddValid(h, id, data, true);
    AddUpdates(h, id, data, true, other);
    RemoveUpdates(Add(h, id, data, true).value, id, other);
  }
}
