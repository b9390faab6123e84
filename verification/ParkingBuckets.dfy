/** The sixteen buckets of the parking table, updated in place, and their refinement of the one flat
    map that `ParkingTable` reasons about. */
module ParkingBuckets {
  import opened ParkingTable
  import opened Bytes

  const BUCKETS: nat := 16

  type Bucket = map<Key, seq<Entry>>

  /** The low `bits` bits of the exclusive or of `a` and `b`. */
  function LowXor(a: nat, b: nat, bits: nat): (x: nat)
    ensures x < Power2(bits)
  {
    if bits == 0 then 0 else (a + b) % 2 + 2 * LowXor(a / 2, b / 2, bits - 1)
  }

  /** Low nibble of the key exclusive-or its second nibble. */
  function BucketIndex(key: Key): (i: nat)
    ensures i < BUCKETS
  {
    assert Power2(4) == 16;
    LowXor(key, key / 16, 4)
  }

  /** Each of the four bits of the index is set exactly if the key's bit there and the one four places above
      differ. */
  lemma IndexBits(key: Key)
    ensures var i := BucketIndex(key);
            && i % 2 == (key + key / 16) % 2 && i / 2 % 2 == (key / 2 + key / 32) % 2
            && i / 4 % 2 == (key / 4 + key / 64) % 2 && i / 8 % 2 == (key / 8 + key / 128) % 2
  {
    hide LowXor;
    var a, b := key, key / 16;
    assert BucketIndex(key) == LowXor(a, b, 4);
    OneBit(a, b, 3);
    OneBit(a / 2, b / 2, 2);
    OneBit(a / 4, b / 4, 1);
    OneBit(a / 8, b / 8, 0);
    hide *;
    assert a / 2 / 2 == a / 4 && a / 4 / 2 == a / 8 && b / 2 / 2 == b / 4 && b / 4 / 2 == b / 8;
    assert b / 2 == key / 32 && b / 4 == key / 64 && b / 8 == key / 128;
    var i := LowXor(a, b, 4);
    assert i / 2 / 2 == i / 4 && i / 4 / 2 == i / 8;
  }

  lemma OneBit(a: nat, b: nat, more: nat)
    ensures LowXor(a, b, more + 1) % 2 == (a + b) % 2
    ensures LowXor(a, b, more + 1) / 2 == LowXor(a / 2, b / 2, more)
  {
    hide Power2;
  }

  /** Every key is stored in its own bucket. */
  ghost predicate Placed(buckets: seq<Bucket>) {
    forall i, k :: 0 <= i < |buckets| && k in buckets[i] ==> BucketIndex(k) == i
  }

  ghost function Keys(buckets: seq<Bucket>): set<Key> {
    set i, k | 0 <= i < |buckets| && k in buckets[i] :: k
  }

  /** The one map the buckets stand for. */
  ghost function Flat(buckets: seq<Bucket>): Bucket
    requires |buckets| == BUCKETS
  {
    map k | k in Keys(buckets) && k in buckets[BucketIndex(k)] :: buckets[BucketIndex(k)][k]
  }

  /** Looking a key up in its bucket is looking it up in the flat map. */
  lemma FlatLookup(buckets: seq<Bucket>, key: Key)
    requires |buckets| == BUCKETS
    ensures Waiters(Flat(buckets), key) == Waiters(buckets[BucketIndex(key)], key)
  {
  }

  /** Storing a key into its bucket stores it into the flat map and disturbs no other key. */
  lemma FlatPut(buckets: seq<Bucket>, key: Key, value: seq<Entry>, bucket: Bucket)
    requires |buckets| == BUCKETS && Placed(buckets)
    requires bucket == buckets[BucketIndex(key)][key := value]
    ensures Placed(buckets[BucketIndex(key) := bucket])
    ensures Flat(buckets[BucketIndex(key) := bucket]) == Flat(buckets)[key := value]
  {
    var after := buckets[BucketIndex(key) := bucket];
    SameKeysElsewhere(buckets, after, key);
    assert key in after[BucketIndex(key)];
  }

  /** Removing a key from its bucket removes it from the flat map and disturbs no other key. */
  lemma FlatRemove(buckets: seq<Bucket>, key: Key, bucket: Bucket)
    requires |buckets| == BUCKETS && Placed(buckets)
    requires bucket == buckets[BucketIndex(key)] - {key}
    ensures Placed(buckets[BucketIndex(key) := bucket])
    ensures Flat(buckets[BucketIndex(key) := bucket]) == Flat(buckets) - {key}
  {
    var after := buckets[BucketIndex(key) := bucket];
    SameKeysElsewhere(buckets, after, key);
  }

  lemma SameKeysElsewhere(before: seq<Bucket>, after: seq<Bucket>, key: Key)
    requires |before| == |after| == BUCKETS
    requires forall i :: 0 <= i < BUCKETS && i != BucketIndex(key) ==> after[i] == before[i]
    requires forall k :: k != key ==> (k in after[BucketIndex(key)] <==> k in before[BucketIndex(key)])
    requires forall k :: k != key && k in before[BucketIndex(key)] ==>
               after[BucketIndex(key)][k] == before[BucketIndex(key)][k]
    ensures forall k :: k != key ==> (k in Keys(after) <==> k in Keys(before))
    ensures forall k :: k != key ==> (k in Flat(after) <==> k in Flat(before))
    ensures forall k :: k != key && k in Flat(before) ==> Flat(after)[k] == Flat(before)[k]
  {
    forall k | k != key
      ensures k in Keys(after) <==> k in Keys(before)
    {
      assert forall i :: 0 <= i < BUCKETS ==> (k in after[i] <==> k in before[i]);
    }
  }

  /** The table object. Each method is one atomic step; a locked section updates one bucket in place. */
  class Table {
    const buckets: array<Bucket>
    var keyOf: map<Entry, Key>
    var notified: map<Entry, bool>
    var pcs: map<Tid, Pc>
    ghost var taken: set<Entry>
    ghost var returned: map<Entry, bool>

    ghost predicate Valid()
      reads this, buckets
    {
      buckets.Length == BUCKETS && Placed(buckets[..])
    }

    ghost function View(): State
      requires Valid()
      reads this, buckets
    {
      State(Flat(buckets[..]), keyOf, notified, pcs, taken, returned)
    }

    constructor (threads: set<Tid>)
      ensures Valid() && fresh(buckets) && View() == Init(threads)
    {
      buckets := new Bucket[BUCKETS](_ => map[]);
      keyOf, notified, pcs := map[], map[], map t | t in threads :: Idle;
      taken, returned := {}, map[];
    }

    method ParkStep(t: Tid, key: Key, entry: Entry)
      requires Valid() && Enabled(View(), Park(t, key, entry))
      modifies this, buckets
      ensures Valid() && View() == Apply(old(View()), Park(t, key, entry))
    {
      ghost var before := buckets[..];
      var i := BucketIndex(key);
      assert buckets[i] == before[i];
      var bucket := buckets[i][key := Waiters(buckets[i], key) + [entry]];
      FlatLookup(before, key);
      FlatPut(before, key, Waiters(before[i], key) + [entry], bucket);
      hide Flat, Keys, Placed, BucketIndex;
      StoreBucket(i, bucket);
      notified := notified[entry := false];
      keyOf := keyOf[entry := key];
      pcs := pcs[t := Checking(entry)];
    }

    /** Replaces one bucket. */
    method StoreBucket(i: nat, bucket: Bucket)
      requires i < buckets.Length
      modifies buckets
      ensures buckets[..] == old(buckets[..])[i := bucket]
    {
      buckets[i] := bucket;
    }

    method CheckStep(t: Tid) returns (done: bool)
      requires Valid() && Enabled(View(), Check(t))
      modifies this
      ensures Valid() && View() == Apply(old(View()), Check(t))
      ensures done == old(notified)[old(pcs)[t].entry]
    {
      var entry := pcs[t].entry;
      done := notified[entry];
      if done {
        returned := returned[entry := true];
        pcs := pcs[t := Idle];
      } else {
        pcs := pcs[t := Deciding(entry)];
      }
    }

    method EnterWaitStep(t: Tid)
      requires Valid() && Enabled(View(), EnterWait(t))
      modifies this
      ensures Valid() && View() == Apply(old(View()), EnterWait(t))
    {
      var entry := pcs[t].entry;
      pcs := pcs[t := if !notified[entry] then Asleep(entry) else Checking(entry)];
    }

    /** The locked half of unpark_all; the returned count includes entries whose park timed out. */
    method UnparkAllStep(t: Tid, key: Key) returns (count: nat)
      requires Valid() && Enabled(View(), UnparkAll(t, key))
      modifies this, buckets
      ensures Valid() && View() == Apply(old(View()), UnparkAll(t, key))
      ensures count == |Waiters(old(View()).table, key)|
    {
      ghost var before := buckets[..];
      var i := BucketIndex(key);
      assert buckets[i] == before[i];
      var entries := Waiters(buckets[i], key);
      FlatLookup(before, key);
      FlatRemove(before, key, before[i] - {key});
      hide Flat, Keys, Placed, BucketIndex;
      StoreBucket(i, buckets[i] - {key});
      taken := taken + (set e | e in entries);
      pcs := pcs[t := Drain(key, entries)];
      count := |entries|;
    }

    method NotifyStep(t: Tid)
      requires Valid() && Enabled(View(), Notify(t))
      modifies this
      ensures Valid() && View() == Apply(old(View()), Notify(t))
    {
      var pc := pcs[t];
      notified := notified[pc.rest[0] := true];
      pcs := pcs[t := Waking(pc.key, pc.rest)];
    }

    method WakeStep(t: Tid)
      requires Valid() && Enabled(View(), Wake(t))
      modifies this
      ensures Valid() && View() == Apply(old(View()), Wake(t))
    {
      var pc := pcs[t];
      var woken := pc.rest[0];
      pcs := map u | u in pcs ::
        if u == t then Drain(pc.key, pc.rest[1..])
        else if pcs[u] == Asleep(woken) then Checking(woken)
        else pcs[u];
    }
  }
}
