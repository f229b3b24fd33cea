/** The resource helper of the calendar (src/utils/Resources.js): it walks the
    resource list with each resource's id and position, and partitions events
    into buckets keyed by the resource they belong to. */
module ResourceGrouping {
  import opened Js
  import opened Seqs

  /** The accessors the host supplies: the id of a resource, the resource id an
      event refers to, and a resource's display title. */
  datatype Accessors<!R, !E> = Accessors(resourceId: R -> Value, resource: E -> Value, resourceTitle: R -> string)

  /** `Resources(resources, accessors)`: `list` is `None` when the host passed no
      resource list (a falsy `resources`); an empty array is `Some([])`. */
  datatype Resources<!R, !E> = Resources(list: Option<seq<R>>, accessors: Accessors<R, E>)

  /** The first component of the pair handed to `map`'s callback: the `NONE`
      sentinel object, or the id the accessor returned for a resource. */
  datatype EntryId = NoneEntry | Accessed(id: Value)

  /** A key of the event-bucket map: the `NONE` sentinel or a resource id. */
  datatype Key = NoneKey | Id(id: Value)

  /** The part-time bucket: the code uses the plain string 'other', so a real
      resource whose id is 'other' shares this bucket. */
  const Other: Key := Id(Str("other"))

  /** `map(fn)`: one call of `fn([id, resource], index)` per resource, or the
      single call `fn([NONE, null], 0)` when there are no resources. */
  function Map<R, E, T>(res: Resources<R, E>, fn: (EntryId, Option<R>, nat) -> T): (r: seq<T>)
    ensures res.list.None? ==> r == [fn(NoneEntry, None, 0)]
    ensures res.list.Some? ==> |r| == |res.list.value|
    ensures res.list.Some? ==> forall i :: 0 <= i < |r| ==>
      r[i] == fn(Accessed(res.accessors.resourceId(res.list.value[i])), Some(res.list.value[i]), i)
  {
    match res.list
    case None => [fn(NoneEntry, None, 0)]
    case Some(rs) => seq(|rs|, i requires 0 <= i < |rs| => fn(Accessed(res.accessors.resourceId(rs[i])), Some(rs[i]), i))
  }

  /** One entry as `map` hands it to its callback. */
  datatype Entry<R> = Entry(id: EntryId, resource: Option<R>, index: nat)

  function ResourcesOf<R>(entries: seq<Entry<R>>): seq<Option<R>>
  {
    seq(|entries|, i requires 0 <= i < |entries| => entries[i].resource)
  }

  /** With resources, `map` is a pure projection: reading back the resource of
      every entry returns the resource list unchanged (no reordering, nothing
      dropped or added), and every entry's index is its position. */
  lemma MapPreservesResources<R, E>(res: Resources<R, E>)
    requires res.list.Some?
    ensures var entries := Map(res, (id, r, i) => Entry(id, r, i));
      && ResourcesOf(entries) == seq(|res.list.value|, i requires 0 <= i < |res.list.value| => Some(res.list.value[i]))
      && forall i :: 0 <= i < |entries| ==> entries[i].index == i
  {
  }

  /** With no resources, `map` yields the single synthetic `NONE` entry whose
      resource is `null`, whatever else the callback does. */
  lemma MapWithoutResources<R, E>(res: Resources<R, E>)
    requires res.list.None?
    ensures Map(res, (id, r, i) => Entry(id, r, i)) == [Entry(NoneEntry, None, 0)]
  {
  }

  /** The bucket of an event whose resource id is `id`: 'other' when the id is
      one of the part-time ids, else the id itself, or `NONE` when it is falsy. */
  function BucketKey(id: Value, partTimeIds: seq<Value>): Key
  {
    if id in partTimeIds then Other
    else if Truthy(id) then Id(id)
    else NoneKey
  }

  /** The bucket key of each event, as a function value. */
  function KeyFn<R, E>(acc: Accessors<R, E>, partTimeIds: seq<Value>): E -> Key
  {
    e => BucketKey(acc.resource(e), partTimeIds)
  }

  /** The keys of the events of `s`. */
  function KeysOf<E>(s: seq<E>, key: E -> Key): set<Key>
    decreases |s|
  {
    if s == [] then {} else KeysOf(s[..|s| - 1], key) + {key(s[|s| - 1])}
  }

  /** The partition the grouping is specified by: one bucket per key that some
      event has, holding exactly the events with that key, in input order. */
  ghost function Partition<E>(s: seq<E>, key: E -> Key): map<Key, seq<E>>
  {
    map k | k in KeysOf(s, key) :: Filter(s, key, k)
  }

  /** A key occurs among the events exactly when its bucket is not empty. */
  lemma {:induction false} KeysOfNonEmpty<E>(s: seq<E>, key: E -> Key, k: Key)
    ensures k in KeysOf(s, key) <==> Filter(s, key, k) != []
    decreases |s|
  {
    if s != [] {
      KeysOfNonEmpty(s[..|s| - 1], key, k);
    }
  }

  /** Appending one event to the input appends it to its own bucket, creating
      that bucket if it did not exist, and leaves every other bucket as it was. */
  lemma PartitionSnoc<E>(s: seq<E>, x: E, key: E -> Key)
    ensures var p := Partition(s, key);
      Partition(s + [x], key) == p[key(x) := (if key(x) in p then p[key(x)] else []) + [x]]
  {
    var p, q := Partition(s, key), Partition(s + [x], key);
    var kx := key(x);
    var r := p[kx := (if kx in p then p[kx] else []) + [x]];
    assert (s + [x])[..|s|] == s;
    assert KeysOf(s + [x], key) == KeysOf(s, key) + {kx};
    assert q.Keys == r.Keys;
    forall k | k in q
      ensures q[k] == r[k]
    {
      FilterSnoc(s, x, key, k);
      if k == kx && kx !in p {
        KeysOfNonEmpty(s, key, kx);
      }
    }
  }

  /** `groupEvents(events, partTimeResourceIds)`. Without resources the events
      are returned unchanged under `NONE`; otherwise one loop appends every
      event to its bucket, creating a bucket on its first event. */
  method GroupEvents<R, E>(res: Resources<R, E>, events: seq<E>, partTimeIds: seq<Value>)
      returns (m: map<Key, seq<E>>)
    ensures res.list.None? ==> m == map[NoneKey := events]
    ensures res.list.Some? ==> m == Partition(events, KeyFn(res.accessors, partTimeIds))
  {
    m := map[];
    if res.list.None? {
      m := m[NoneKey := events];
      return;
    }
    ghost var key := KeyFn(res.accessors, partTimeIds);
    var i := 0;
    while i < |events|
      invariant 0 <= i <= |events|
      invariant m == Partition(events[..i], key)
    {
      var event := events[i];
      var id := BucketKey(res.accessors.resource(event), partTimeIds);
      var bucket := if id in m then m[id] else [];
      bucket := bucket + [event];
      m := m[id := bucket];
      assert events[..i + 1] == events[..i] + [event];
      PartitionSnoc(events[..i], event, key);
      i := i + 1;
    }
    assert events[..i] == events;
  }

  /** Every event lands in exactly one bucket: the one of its own key. */
  lemma EventInExactlyOneBucket<E>(s: seq<E>, key: E -> Key, i: nat, k: Key)
    requires i < |s|
    ensures var p := Partition(s, key);
      key(s[i]) in p && (k in p && s[i] in p[k] <==> k == key(s[i]))
  {
    FilterMembership(s, key, key(s[i]), s[i]);
    FilterMembership(s, key, k, s[i]);
    KeysOfNonEmpty(s, key, key(s[i]));
  }

  /** Every bucket of the partition holds at least one event (buckets are
      created only on insertion), and no events give no buckets. */
  lemma PartitionBucketsNonEmpty<E>(s: seq<E>, key: E -> Key)
    ensures forall k :: k in Partition(s, key) ==> Partition(s, key)[k] != []
    ensures s == [] ==> Partition(s, key) == map[]
  {
    forall k | k in Partition(s, key)
      ensures Partition(s, key)[k] != []
    {
      KeysOfNonEmpty(s, key, k);
    }
  }

  /** Within a bucket, the event at input position `i` comes at the position
      given by the number of earlier events in the same bucket; of two events
      in one bucket, the earlier input comes first. */
  lemma PartitionKeepsOrder<E>(s: seq<E>, key: E -> Key, i: nat, j: nat)
    requires i < j < |s| && key(s[i]) == key(s[j])
    ensures var p, k := Partition(s, key), key(s[i]);
      && k in p
      && |Filter(s[..i], key, k)| < |Filter(s[..j], key, k)| < |p[k]|
      && p[k][|Filter(s[..i], key, k)|] == s[i]
      && p[k][|Filter(s[..j], key, k)|] == s[j]
  {
    var k := key(s[i]);
    KeysOfNonEmpty(s, key, k);
    FilterPosition(s, i, key, k);
    FilterPosition(s, j, key, k);
    FilterKeepsOrder(s, i, j, key, k);
  }

  /** An event whose resource id is part-time is in the 'other' bucket and in no
      other; any other event is in the bucket of its id, or in `NONE` when its id
      is falsy. */
  lemma GroupingRules<R, E>(acc: Accessors<R, E>, partTimeIds: seq<Value>, events: seq<E>, i: nat, k: Key)
    requires i < |events|
    ensures var p, id := Partition(events, KeyFn(acc, partTimeIds)), acc.resource(events[i]);
      k in p && events[i] in p[k] <==>
        if id in partTimeIds then k == Other
        else if Truthy(id) then k == Id(id)
        else k == NoneKey
  {
    EventInExactlyOneBucket(events, KeyFn(acc, partTimeIds), i, k);
  }

  /** The total number of events over all buckets of a map. */
  ghost function TotalSize<E>(m: map<Key, seq<E>>): nat
    decreases |m|
  {
    if |m| == 0 then 0
    else
      var k := Pick(m);
      |m[k]| + TotalSize(m - {k})
  }

  ghost function Pick<E>(m: map<Key, seq<E>>): (k: Key)
    requires |m| > 0
    ensures k in m
  {
    var k :| k in m; k
  }

  /** The total size does not depend on which bucket is counted first. */
  lemma {:induction false} TotalSizeRemove<E>(m: map<Key, seq<E>>, k: Key)
    requires k in m
    ensures TotalSize(m) == |m[k]| + TotalSize(m - {k})
    decreases |m|
  {
    var j := Pick(m);
    if j != k {
      assert (m - {j}) - {k} == (m - {k}) - {j};
      TotalSizeRemove(m - {j}, k);
      TotalSizeRemove(m - {k}, j);
    }
  }

  /** Replacing one bucket changes the total by the difference in its size. */
  lemma TotalSizeUpdate<E>(m: map<Key, seq<E>>, k: Key, v: seq<E>)
    ensures TotalSize(m[k := v]) == TotalSize(m) - (if k in m then |m[k]| else 0) + |v|
  {
    var u, rest := m[k := v], m - {k};
    assert u - {k} == rest by {
      assert (u - {k}).Keys == rest.Keys;
      assert forall j :: j in rest ==> (u - {k})[j] == rest[j];
    }
    TotalSizeRemove(u, k);
    if k in m {
      TotalSizeRemove(m, k);
    } else {
      assert rest == m by {
        assert rest.Keys == m.Keys;
      }
    }
  }

  /** The bucket sizes of the partition add up to the number of events. */
  lemma {:induction false} PartitionTotalSize<E>(s: seq<E>, key: E -> Key)
    ensures TotalSize(Partition(s, key)) == |s|
    decreases |s|
  {
    if s != [] {
      var init, x := s[..|s| - 1], s[|s| - 1];
      assert s == init + [x];
      PartitionTotalSize(init, key);
      PartitionSnoc(init, x, key);
      var p := Partition(init, key);
      TotalSizeUpdate(p, key(x), (if key(x) in p then p[key(x)] else []) + [x]);
    }
  }
}
