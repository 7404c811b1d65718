/** The persistent event cache: an ordered list of calendar records kept in a
    JSON file, with an inclusive date-range query, a merge that skips records
    whose id is already stored, and a clear operation. The file is modelled by
    its decoded content; reading and writing it are not modelled. */
module CacheHandling {
  import opened Values
  import opened Dates

  /** One economic-calendar entry as the provider delivers it and the cache
      file stores it. Every key is present; `date` is the 'DD/MM/YYYY' text,
      the text fields hold a string or null (None), and the figures None, a string or
      an integer. */
  datatype EventRecord = EventRecord(
    id: Value,
    date: string,
    time: Option<string>,
    zone: Option<string>,
    currency: Option<string>,
    importance: Option<string>,
    event: Option<string>,
    actual: Value,
    forecast: Value,
    previous: Value)

  /** What reading the cache file can find: no file, a text json.load rejects
      with JSONDecodeError, or a decoded object whose "data" list is given. */
  datatype StoredFile = Missing | Undecodable | Decoded(data: seq<EventRecord>)

  /** The records a freshly loaded cache holds. */
  function LoadCache(file: StoredFile): (records: seq<EventRecord>)
    ensures file.Missing? || file.Undecodable? ==> records == []
    ensures file.Decoded? ==> records == file.data
  {
    match file
    case Missing => []
    case Undecodable => []
    case Decoded(data) => data
  }

  /** The query's test for one record whose date parsed: start <= midnight <= end. */
  predicate Within(d: Date, start: Instant, end: Instant) {
    InstantLe(start, Midnight(d)) && InstantLe(Midnight(d), end)
  }

  /** A record whose date parses and lies in [start, end]. */
  predicate Selected(r: EventRecord, start: Instant, end: Instant) {
    ParseDate(r.date).Some? && Within(ParseDate(r.date).value, start, end)
  }

  /** get_cached_data: the records dated within [start, end] in stored order, or
      None when some stored date does not parse (strptime raises ValueError). */
  function RangeQuery(records: seq<EventRecord>, start: Instant, end: Instant): Option<seq<EventRecord>>
    decreases |records|
  {
    if records == [] then Some([])
    else
      var last := records[|records| - 1];
      match RangeQuery(records[..|records| - 1], start, end)
      case None => None
      case Some(found) =>
        match ParseDate(last.date)
        case None => None
        case Some(d) => if Within(d, start, end) then Some(found + [last]) else Some(found)
  }

  /** The ids present in a list of records. */
  function Ids(records: seq<EventRecord>): (ids: set<Value>)
    ensures forall r :: r in records ==> r.id in ids
    ensures forall x :: x in ids ==> exists r :: r in records && r.id == x
  {
    set r | r in records :: r.id
  }

  /** The records of a batch whose id is not among `known`, in batch order. */
  function Fresh(batch: seq<EventRecord>, known: set<Value>): seq<EventRecord>
    decreases |batch|
  {
    if batch == [] then []
    else
      var last := batch[|batch| - 1];
      Fresh(batch[..|batch| - 1], known) + (if last.id in known then [] else [last])
  }

  /** add_to_cache: the store followed by the batch records with a new id. */
  function Merge(store: seq<EventRecord>, batch: seq<EventRecord>): seq<EventRecord> {
    store + Fresh(batch, Ids(store))
  }

  predicate DistinctIds(records: seq<EventRecord>) {
    forall i, j :: 0 <= i < j < |records| ==> records[i].id != records[j].id
  }

  /** `a` is `b` with some elements left out, the rest in the same order. */
  predicate IsSubsequence<T(==)>(a: seq<T>, b: seq<T>)
    decreases |b|
  {
    |a| <= |b| &&
    (a == [] ||
     if a[|a| - 1] == b[|b| - 1] then IsSubsequence(a[..|a| - 1], b[..|b| - 1])
     else IsSubsequence(a, b[..|b| - 1]))
  }

  class CacheHandler {
    /** The list under the "data" key of the in-memory cache object. */
    var data: seq<EventRecord>
    /** The content of the cache file on disk. */
    var file: StoredFile

    /** Loads the cache file; a missing file or a JSONDecodeError gives an
        empty store. */
    constructor (stored: StoredFile)
      ensures data == LoadCache(stored) && file == stored
    {
      data := LoadCache(stored);
      file := stored;
    }

    /** Writes the whole cache object back to the file. */
    method SaveCache()
      modifies this
      ensures data == old(data) && file == Decoded(data)
    {
      file := Decoded(data);
    }

    /** The stored records dated within [start, end], or None when a stored
        date does not parse. */
    method GetCachedData(start: Instant, end: Instant) returns (result: Option<seq<EventRecord>>)
      ensures result == RangeQuery(data, start, end)
    {
      var cached := [];
      var i := 0;
      while i < |data|
        invariant 0 <= i <= |data|
        invariant RangeQuery(data[..i], start, end) == Some(cached)
      {
        var record := data[i];
        var recordDate := ParseDate(record.date);
        if recordDate.None? {
          RangeQueryFailure(data, start, end);
          return None;
        }
        if InstantLe(start, Midnight(recordDate.value)) && InstantLe(Midnight(recordDate.value), end) {
          cached := cached + [record];
        }
        assert data[..i + 1][..i] == data[..i];
        i := i + 1;
      }
      assert data[..i] == data;
      return Some(cached);
    }

    /** Appends the batch records whose id was not in the store before the
        call, then saves. */
    method AddToCache(batch: seq<EventRecord>)
      modifies this
      ensures data == Merge(old(data), batch)
      ensures file == Decoded(data)
    {
      var existingIds := set r | r in data :: r.id;
      var i := 0;
      while i < |batch|
        invariant 0 <= i <= |batch|
        invariant data == old(data) + Fresh(batch[..i], existingIds)
      {
        assert batch[..i + 1][..i] == batch[..i];
        if batch[i].id !in existingIds {
          data := data + [batch[i]];
        }
        i := i + 1;
      }
      assert batch[..i] == batch;
      SaveCache();
    }

    /** Empties the store and saves. */
    method ClearCache()
      modifies this
      ensures data == [] && file == Decoded([])
      ensures forall start, end :: RangeQuery(data, start, end) == Some([])
    {
      data := [];
      SaveCache();
    }
  }

  /** The query fails exactly when some stored date does not parse. */
  lemma {:induction false} RangeQueryFailure(records: seq<EventRecord>, start: Instant, end: Instant)
    ensures RangeQuery(records, start, end).None? <==>
            exists i :: 0 <= i < |records| && ParseDate(records[i].date).None?
  {
    if records != [] {
      var prefix := records[..|records| - 1];
      RangeQueryFailure(prefix, start, end);
      if RangeQuery(records, start, end).None? && RangeQuery(prefix, start, end).None? {
        var i :| 0 <= i < |prefix| && ParseDate(prefix[i].date).None?;
        assert records[i] == prefix[i];
      }
      if (exists i :: 0 <= i < |records| && ParseDate(records[i].date).None?) &&
         ParseDate(records[|records| - 1].date).Some? {
        var i :| 0 <= i < |records| && ParseDate(records[i].date).None?;
        assert prefix[i] == records[i];
      }
    }
  }

  /** A successful query holds each selected record as often as the store does
      and no other record. */
  lemma {:induction false} RangeQueryCounts(records: seq<EventRecord>, start: Instant, end: Instant)
    requires RangeQuery(records, start, end).Some?
    ensures forall r :: multiset(RangeQuery(records, start, end).value)[r] ==
                        if Selected(r, start, end) then multiset(records)[r] else 0
  {
    if records != [] {
      var prefix := records[..|records| - 1];
      RangeQueryCounts(prefix, start, end);
      assert records == prefix + [records[|records| - 1]];
    }
  }

  /** A successful query returns exactly the selected stored records. */
  lemma RangeQueryMembers(records: seq<EventRecord>, start: Instant, end: Instant)
    requires RangeQuery(records, start, end).Some?
    ensures forall r :: r in RangeQuery(records, start, end).value <==>
                        r in records && Selected(r, start, end)
  {
    RangeQueryCounts(records, start, end);
  }

  /** A successful query keeps the stored order. */
  lemma {:induction false} RangeQueryOrder(records: seq<EventRecord>, start: Instant, end: Instant)
    requires RangeQuery(records, start, end).Some?
    ensures IsSubsequence(RangeQuery(records, start, end).value, records)
  {
    if records != [] {
      var prefix := records[..|records| - 1];
      var last := records[|records| - 1];
      var found := RangeQuery(prefix, start, end).value;
      RangeQueryOrder(prefix, start, end);
      assert prefix + [last] == records;
      if Selected(last, start, end) {
        assert RangeQuery(records, start, end) == Some(found + [last]);
        SubsequenceAppendBoth(found, prefix, last);
      } else {
        assert RangeQuery(records, start, end) == Some(found);
        SubsequenceExtend(found, prefix, last);
        assert prefix + [last] == records;
      }
    }
  }

  lemma SubsequenceAppendBoth<T>(a: seq<T>, b: seq<T>, x: T)
    requires IsSubsequence(a, b)
    ensures IsSubsequence(a + [x], b + [x])
  {
    assert (a + [x])[..|a|] == a && (b + [x])[..|b|] == b;
  }

  lemma {:induction false} SubsequenceExtend<T>(a: seq<T>, b: seq<T>, x: T)
    requires IsSubsequence(a, b)
    ensures IsSubsequence(a, b + [x])
    decreases |b|, 1
  {
    assert (b + [x])[..|b|] == b;
    if a != [] && a[|a| - 1] == x {
      SubsequenceDropLast(a, b);
    }
  }

  lemma {:induction false} SubsequenceDropLast<T>(a: seq<T>, b: seq<T>)
    requires a != [] && IsSubsequence(a, b)
    ensures IsSubsequence(a[..|a| - 1], b)
    decreases |b|, 0
  {
    var a', b' := a[..|a| - 1], b[..|b| - 1];
    assert b == b' + [b[|b| - 1]];
    if a[|a| - 1] == b[|b| - 1] {
      SubsequenceExtend(a', b', b[|b| - 1]);
    } else {
      SubsequenceDropLast(a, b');
      SubsequenceExtend(a', b', b[|b| - 1]);
    }
  }

  /** A merge keeps exactly the batch records with an unknown id. */
  lemma {:induction false} FreshMembers(batch: seq<EventRecord>, known: set<Value>)
    ensures forall r :: r in Fresh(batch, known) <==> r in batch && r.id !in known
    ensures |Fresh(batch, known)| <= |batch|
  {
    if batch != [] {
      FreshMembers(batch[..|batch| - 1], known);
      assert batch == batch[..|batch| - 1] + [batch[|batch| - 1]];
    }
  }

  /** Records with distinct ids stay distinct when filtered. */
  lemma {:induction false} FreshDistinct(batch: seq<EventRecord>, known: set<Value>)
    requires DistinctIds(batch)
    ensures DistinctIds(Fresh(batch, known))
  {
    if batch != [] {
      var prefix := batch[..|batch| - 1];
      var last := batch[|batch| - 1];
      FreshDistinct(prefix, known);
      FreshMembers(prefix, known);
      var f := Fresh(prefix, known);
      if last.id !in known {
        forall i | 0 <= i < |f|
          ensures f[i].id != last.id
        {
          assert f[i] in prefix;
          var k :| 0 <= k < |prefix| && prefix[k] == f[i];
          assert batch[k] == f[i];
        }
      }
    }
  }

  /** The filter keeps each batch record with an unknown id exactly as
      often as the batch holds it, and no other record. */
  lemma {:induction false} FreshCounts(batch: seq<EventRecord>, known: set<Value>)
    ensures forall r :: multiset(Fresh(batch, known))[r] ==
                        if r.id in known then 0 else multiset(batch)[r]
  {
    if batch != [] {
      FreshCounts(batch[..|batch| - 1], known);
      assert batch == batch[..|batch| - 1] + [batch[|batch| - 1]];
    }
  }

  /** The filter keeps batch order. */
  lemma {:induction false} FreshOrder(batch: seq<EventRecord>, known: set<Value>)
    ensures IsSubsequence(Fresh(batch, known), batch)
  {
    if batch != [] {
      var prefix := batch[..|batch| - 1];
      var last := batch[|batch| - 1];
      var f := Fresh(prefix, known);
      FreshOrder(prefix, known);
      assert prefix + [last] == batch;
      if last.id !in known {
        SubsequenceAppendBoth(f, prefix, last);
      } else {
        SubsequenceExtend(f, prefix, last);
        assert prefix + [last] == batch;
        assert f + [] == f;
        assert IsSubsequence(f, batch);
      }
    }
  }

  /** Filtering a prefix of the batch gives a prefix of the filtered batch. */
  lemma {:induction false} FreshPrefix(batch: seq<EventRecord>, known: set<Value>, n: nat)
    requires n <= |batch|
    ensures |Fresh(batch[..n], known)| <= |Fresh(batch, known)|
    ensures Fresh(batch, known)[..|Fresh(batch[..n], known)|] == Fresh(batch[..n], known)
    decreases |batch|
  {
    if n == |batch| {
      assert batch[..n] == batch;
    } else {
      var prefix := batch[..|batch| - 1];
      FreshPrefix(prefix, known, n);
      assert prefix[..n] == batch[..n];
      var f, g := Fresh(batch[..n], known), Fresh(prefix, known);
      assert Fresh(batch, known)[..|g|] == g;
      assert Fresh(batch, known)[..|f|] == g[..|f|];
    }
  }

  /** The stored records stay an unchanged prefix, and what follows them is
      exactly the batch records whose id the store did not have: in batch
      order, each as often as the batch holds it. */
  lemma MergeAppendsOnlyNewIds(store: seq<EventRecord>, batch: seq<EventRecord>)
    ensures Merge(store, batch)[..|store|] == store
    ensures forall i :: |store| <= i < |Merge(store, batch)| ==>
              Merge(store, batch)[i] in batch && Merge(store, batch)[i].id !in Ids(store)
    ensures IsSubsequence(Merge(store, batch)[|store|..], batch)
    ensures forall r :: multiset(Merge(store, batch)[|store|..])[r] ==
                        if r.id in Ids(store) then 0 else multiset(batch)[r]
    ensures |store| <= |Merge(store, batch)| <= |store| + |batch|
  {
    FreshMembers(batch, Ids(store));
    FreshCounts(batch, Ids(store));
    FreshOrder(batch, Ids(store));
    var m := Merge(store, batch);
    assert m[|store|..] == Fresh(batch, Ids(store));
    forall i | |store| <= i < |m|
      ensures m[i] in batch && m[i].id !in Ids(store)
    {
      assert m[i] == Fresh(batch, Ids(store))[i - |store|];
    }
  }

  /** If the store and the batch each have distinct ids, so has the merge. */
  lemma MergeKeepsIdsDistinct(store: seq<EventRecord>, batch: seq<EventRecord>)
    requires DistinctIds(store) && DistinctIds(batch)
    ensures DistinctIds(Merge(store, batch))
  {
    var f := Fresh(batch, Ids(store));
    FreshDistinct(batch, Ids(store));
    FreshMembers(batch, Ids(store));
    var m := Merge(store, batch);
    forall i, j | 0 <= i < j < |m|
      ensures m[i].id != m[j].id
    {
      if j >= |store| && i < |store| {
        assert m[i] == store[i];
        assert m[j] == f[j - |store|];
        assert f[j - |store|] in f;
      } else if i >= |store| {
        assert m[i] == f[i - |store|] && m[j] == f[j - |store|];
      }
    }
  }

  /** Dedup looks only at the ids stored before the call: two batch records
      that share an id the store does not have are both appended, in batch
      order, so the merge then has a repeated id. */
  lemma MergeKeepsDuplicatesWithinBatch(store: seq<EventRecord>, batch: seq<EventRecord>, i: nat, j: nat)
    requires i < j < |batch| && batch[i].id == batch[j].id && batch[i].id !in Ids(store)
    ensures exists p, q :: |store| <= p < q < |Merge(store, batch)| &&
                           Merge(store, batch)[p] == batch[i] && Merge(store, batch)[q] == batch[j]
    ensures !DistinctIds(Merge(store, batch))
  {
    var known := Ids(store);
    var a, b := batch[..i + 1], batch[..j + 1];
    assert a[..i] == batch[..i] && a[i] == batch[i];
    assert b[..j] == batch[..j] && b[j] == batch[j];
    assert Fresh(a, known) == Fresh(batch[..i], known) + [batch[i]];
    assert Fresh(b, known) == Fresh(batch[..j], known) + [batch[j]];
    var p0, q0 := |Fresh(batch[..i], known)|, |Fresh(batch[..j], known)|;
    FreshPrefix(batch[..j], known, i + 1);
    assert batch[..j][..i + 1] == a;
    assert p0 < q0;
    FreshPrefix(batch, known, i + 1);
    FreshPrefix(batch, known, j + 1);
    var f := Fresh(batch, known);
    assert f[p0] == Fresh(a, known)[p0] == batch[i];
    assert f[q0] == Fresh(b, known)[q0] == batch[j];
    var m := Merge(store, batch);
    assert m[|store| + p0] == batch[i] && m[|store| + q0] == batch[j];
  }

  /** Merging the same batch a second time changes nothing. */
  lemma MergeIdempotent(store: seq<EventRecord>, batch: seq<EventRecord>)
    ensures Merge(Merge(store, batch), batch) == Merge(store, batch)
  {
    var once := Merge(store, batch);
    FreshMembers(batch, Ids(store));
    forall r | r in batch
      ensures r.id in Ids(once)
    {
      if r.id !in Ids(store) {
        assert r in Fresh(batch, Ids(store));
        assert r in once;
      } else {
        var s :| s in store && s.id == r.id;
        assert s in once;
      }
    }
    FreshNoneNew(batch, Ids(once));
  }

  lemma {:induction false} FreshNoneNew(batch: seq<EventRecord>, known: set<Value>)
    requires forall r :: r in batch ==> r.id in known
    ensures Fresh(batch, known) == []
  {
    if batch != [] {
      FreshNoneNew(batch[..|batch| - 1], known);
    }
  }
}
