/** The robin-hood hash table: a dense entry vector and a circular bucket index into it. */
module HashTable {
  import opened Options
  import opened Powers
  import opened Sizing
  import opened RobinHood
  import opened Entries

  /** What taking over a vector did; the last where the source goes on to shift by the word size. */
  datatype Takeover = Taken | Refused | Undefined

  /** What an insertion did: a new entry, an entry that was there, or no room left at all. */
  datatype Placement = Inserted(idx: nat) | Present(idx: nat) | Overflow

  function Larger(a: nat, b: nat): nat { if a >= b then a else b }

  function Smaller(a: nat, b: nat): nat { if a <= b then a else b }

  function BucketIdxFromHash(hash: Hash, shifts: nat): (p: nat)
    ensures 32 <= shifts <= INITIAL_SHIFTS ==> p < NumBuckets(shifts)
  {
    if 32 <= shifts <= INITIAL_SHIFTS then
      HomeInRange(hash, shifts);
      hash / Pow2(shifts) % MAX_BUCKETS
    else
      hash / Pow2(shifts) % MAX_BUCKETS
  }

  /** The home is the leading bits of the hash, the probe starts with its last byte at distance one. */
  lemma HashSplits(hash: Hash, shifts: nat)
    requires 32 <= shifts <= INITIAL_SHIFTS
    ensures var home := BucketIdxFromHash(hash, shifts);
            home * Pow2(shifts) <= hash < (home + 1) * Pow2(shifts)
    ensures DIST_INC + hash % DIST_INC == 0x100 + hash % 0x100
  {
    HomeInRange(hash, shifts);
    NumBucketsBounds(shifts);
    var p := Pow2(shifts);
    hide Pow2, NumBuckets;
    DivSplits(hash, p);
  }

  lemma DivSplits(x: nat, p: nat)
    requires p > 0
    ensures x / p * p <= x < (x / p + 1) * p
  {
  }

  function OriginOf(hash: Hash, shifts: nat): Origin {
    Origin(BucketIdxFromHash(hash, shifts), hash % DIST_INC)
  }

  function Origins<K, V>(es: seq<Entry<K, V>>, hash: K -> Hash, shifts: nat): (os: seq<Origin>)
    ensures |os| == |es|
    ensures forall i :: 0 <= i < |es| ==> os[i] == OriginOf(hash(es[i].key), shifts)
  {
    seq(|es|, i requires 0 <= i < |es| => OriginOf(hash(es[i].key), shifts))
  }

  lemma OriginsInRange<K, V>(es: seq<Entry<K, V>>, hash: K -> Hash, shifts: nat)
    requires 32 <= shifts <= INITIAL_SHIFTS
    ensures OriginsOk(Origins(es, hash, shifts), NumBuckets(shifts))
  {
  }

  ghost function Matches<K, V>(es: seq<Entry<K, V>>, n: nat, key: K): set<nat>
    requires n <= |es|
  {
    set i: nat | i < n && es[i].key == key
  }

  lemma NoMatches<K, V>(es: seq<Entry<K, V>>, n: nat, key: K)
    requires n <= |es| && Matches(es, n, key) == {}
    ensures forall i :: 0 <= i < n ==> es[i].key != key
  {
    forall i: nat | i < n ensures es[i].key != key {
      assert i !in Matches(es, n, key);
    }
  }

  lemma MatchIsIndexOf<K, V>(es: seq<Entry<K, V>>, key: K, i: nat)
    requires UniqueKeys(es) && i < |es| && es[i].key == key
    ensures IndexOf(es, key) == i
  {
  }

  lemma AppendUnique<K, V>(es: seq<Entry<K, V>>, fs: seq<Entry<K, V>>)
    requires UniqueKeys(es) && |fs| == |es| + 1 && fs == es + [fs[|es|]]
    requires forall i :: 0 <= i < |es| ==> fs[i].key != fs[|es|].key
    ensures UniqueKeys(fs)
    ensures IndexOf(es, fs[|es|].key) == |es|
  {
    assert forall i :: 0 <= i < |es| ==> fs[i] == es[i];
  }

  lemma UniquePrefix<K, V>(es: seq<Entry<K, V>>, n: nat)
    requires UniqueKeys(es) && n <= |es|
    ensures UniqueKeys(es[..n])
  {
  }

  class Table<K(==), V(==)> {
    const hash: K -> Hash
    var values: seq<Entry<K, V>>
    var buckets: array<Bucket>
    var shifts: nat
    var capacity: nat

    ghost predicate Sized()
      reads this
    {
      && 32 <= shifts <= INITIAL_SHIFTS
      && buckets.Length == NumBuckets(shifts)
      && capacity == CapacityOf(buckets.Length)
    }

    /** The first `n` entries, and nothing else, are indexed. */
    ghost predicate Indexed(n: nat)
      reads this, buckets
    {
      n <= |values| && Index(buckets[..], Origins(values, hash, shifts), Upto(n))
    }

    ghost predicate Valid()
      reads this, buckets
    {
      Sized() && |values| <= capacity && UniqueKeys(values) && Indexed(|values|)
    }

    /** The map the table stands for. */
    ghost function Map(): map<K, V>
      reads this, buckets
      requires Valid()
    {
      Contents(values)
    }

    /**
     Where the source is about to shift by the word size, which is not defined: the shift is
     stored and the buckets are freed. The model stops there.
     */
    ghost predicate Stuck()
      reads this
    {
      shifts == 0 && buckets.Length == 0 && capacity == 0
    }

    constructor (hash: K -> Hash, bucketCount: nat)
      ensures fresh(buckets) && this.hash == hash && values == []
      ensures if bucketCount <= LoadLimit(MAX_BUCKETS) then Valid() && Tight(shifts, bucketCount) else Stuck()
    {
      this.hash := hash;
      values := [];
      buckets := new Bucket[0];
      shifts := INITIAL_SHIFTS;
      capacity := 0;
      new;
      if bucketCount != 0 {
        shifts := CalcShiftsForSize(Smaller(bucketCount, MAX_BUCKETS));
        if shifts == 0 { return; }
      }
      AllocateBucketsFromShift();
      ClearBuckets();
    }

    method AllocateBucketsFromShift()
      requires 32 <= shifts <= INITIAL_SHIFTS
      modifies this`buckets, this`capacity
      ensures fresh(buckets) && Sized()
    {
      buckets := new Bucket[NumBuckets(shifts)];
      capacity := CapacityOf(buckets.Length);
    }

    method ClearBuckets()
      requires Sized()
      modifies buckets
      ensures Indexed(0)
    {
      forall p | 0 <= p < buckets.Length { buckets[p] := EMPTY; }
      OriginsInRange(values, hash, shifts);
      NumBucketsBounds(shifts);
      UptoNext(0);
      EmptyIndex(buckets[..], Origins(values, hash, shifts));
    }

    /**
     A probe for `key` among the first `n` entries that is `j` buckets from home and has met no
     entry with that key.
     */
    ghost predicate Probing(n: nat, key: K, word: nat, b: nat, j: nat)
      reads this, buckets
    {
      && Sized() && Indexed(n) && j <= buckets.Length
      && var o := OriginOf(hash(key), shifts);
      && Seeking(buckets[..], Origins(values, hash, shifts), Upto(n), Matches(values, n, key), o, j)
      && b == At(buckets.Length, o.home, j) && word == Probe(o.tag, j)
    }

    /** The bucket before the probe, if the probe has moved at all, holds it no more than one distance off. */
    ghost predicate Behind(word: nat, b: nat, j: nat)
      reads this, buckets
      requires b < buckets.Length
    {
      j > 0 ==> buckets[Prev(buckets.Length, b)].word + DIST_INC >= word
    }

    lemma ProbeStart(n: nat, key: K)
      requires Sized() && Indexed(n)
      ensures Probing(n, key, DIST_INC + hash(key) % DIST_INC, BucketIdxFromHash(hash(key), shifts), 0)
      ensures BucketIdxFromHash(hash(key), shifts) < buckets.Length
    {
    }

    /** A bucket that matches the whole word points to one of the entries searched. */
    lemma ProbeHit(n: nat, key: K, word: nat, b: nat, j: nat)
      requires Probing(n, key, word, b, j) && b < buckets.Length && word == buckets[b].word
      ensures buckets[b].idx < n <= |values| && j < buckets.Length && Full(buckets[..], b)
    {
      SeekHit(buckets[..], Origins(values, hash, shifts), Upto(n), Matches(values, n, key),
              OriginOf(hash(key), shifts), j);
    }

    /** Anything but a match is passed. */
    lemma ProbeOn(n: nat, key: K, word: nat, b: nat, j: nat)
      requires Probing(n, key, word, b, j) && b < buckets.Length && j < buckets.Length
      requires word == buckets[b].word ==> buckets[b].idx < |values| && values[buckets[b].idx].key != key
      ensures Probing(n, key, word + DIST_INC, Next(buckets.Length, b), j + 1)
    {
      SeekOn(buckets[..], Origins(values, hash, shifts), Upto(n), Matches(values, n, key),
             OriginOf(hash(key), shifts), j);
    }

    /** A probe not ahead of its bucket has not made a full turn. */
    lemma ProbeInTurn(n: nat, key: K, word: nat, b: nat, j: nat)
      requires Probing(n, key, word, b, j) && b < buckets.Length
      ensures word <= buckets[b].word ==> j < buckets.Length
    {
      WordBound(buckets[..], Origins(values, hash, shifts), Upto(n), b);
    }

    /** A probe ahead of its bucket has shown the key to be absent. */
    lemma ProbeDone(n: nat, key: K, word: nat, b: nat, j: nat)
      requires Probing(n, key, word, b, j) && b < buckets.Length && word > buckets[b].word
      ensures n <= |values| && forall i :: 0 <= i < n ==> values[i].key != key
    {
      hide Index, Matches, OriginOf, Origins;
      SeekEnds(buckets[..], Origins(values, hash, shifts), Upto(n), Matches(values, n, key),
               OriginOf(hash(key), shifts), j);
      NoMatches(values, n, key);
    }

    lemma ProbeRange(n: nat, key: K, word: nat, b: nat, j: nat)
      requires Probing(n, key, word, b, j)
      ensures Sized() && Indexed(n)
    {
    }

    /** A probe at rest is where the bucket of the key's entry may be placed. */
    lemma ProbeRests(n: nat, key: K, word: nat, b: nat, j: nat)
      requires Probing(n, key, word, b, j) && b < buckets.Length && Behind(word, b, j) && buckets[b].word <= word
      requires n < |values| && values[n].key == key && n < buckets.Length
      ensures Carry(buckets[..], Origins(values, hash, shifts), Upto(n), Bucket(word, n), b)
      ensures |Upto(n)| < buckets.Length
    {
      UptoNext(n);
      ProbeToCarry(buckets[..], Origins(values, hash, shifts), Upto(n), n, j);
    }

    /** After a bucket with the probe's word, the next bucket is not ahead of the probe. */
    lemma ProbeNotOvertaken(n: nat, key: K, word: nat, b: nat, j: nat)
      requires Probing(n, key, word, b, j) && b < buckets.Length && word == buckets[b].word
      ensures buckets[Next(buckets.Length, b)].word <= word + DIST_INC
    {
      assert OrderedAt(buckets[..], Next(buckets.Length, b));
    }

    /** The first bucket, counted from the key's home, that the key's probe is not behind. */
    method NextWhileLess(key: K, ghost n: nat) returns (word: nat, b: nat, ghost j: nat)
      requires Sized() && Indexed(n)
      ensures b < buckets.Length && Probing(n, key, word, b, j)
      ensures buckets[b].word <= word && Behind(word, b, j)
    {
      hide Indexed, Probing;
      word, b, j := DIST_INC + hash(key) % DIST_INC, BucketIdxFromHash(hash(key), shifts), 0;
      ProbeStart(n, key);
      while word < buckets[b].word
        invariant b < buckets.Length && Probing(n, key, word, b, j) && Behind(word, b, j)
        decreases buckets.Length - j
      {
        ProbeInTurn(n, key, word, b, j);
        ProbeOn(n, key, word, b, j);
        word, b, j := word + DIST_INC, Next(buckets.Length, b), j + 1;
      }
    }

    /** Puts a bucket at its place; every bucket from there to the next empty one moves up. */
    method PlaceAndShiftUp(bucket: Bucket, start: nat, ghost os: seq<Origin>, ghost live: set<nat>)
      requires Carry(buckets[..], os, live, bucket, start)
      requires |live| < buckets.Length
      modifies buckets
      ensures Index(buckets[..], os, live + {bucket.idx})
    {
      var carried, place := bucket, start;
      ghost var stored := live;
      ghost var e := SomeEmpty(buckets[..], os, live);
      while buckets[place].word != 0
        invariant Carry(buckets[..], os, stored, carried, place)
        invariant buckets[e].word == 0
        invariant stored + {carried.idx} == live + {bucket.idx}
        decreases Dist(buckets.Length, place, e)
      {
        PlaceSwap(buckets[..], os, stored, carried, place, e);
        stored := stored + {carried.idx} - {buckets[place].idx};
        ghost var after := buckets[..][place := carried];
        var displaced := buckets[place];
        buckets[place] := carried;
        assert buckets[..] == after;
        carried := Bucket(displaced.word + DIST_INC, displaced.idx);
        place := Next(buckets.Length, place);
      }
      PlaceLast(buckets[..], os, stored, carried, place);
      ghost var after := buckets[..][place := carried];
      buckets[place] := carried;
      assert buckets[..] == after;
    }

    method ClearAndFillBucketsFromValues()
      requires Sized() && |values| <= buckets.Length && UniqueKeys(values)
      modifies buckets
      ensures Indexed(|values|)
    {
      ClearBuckets();
      hide Index;
      for v := 0 to |values|
        invariant Indexed(v)
      {
        var word, b, j := NextWhileLess(values[v].key, v);
        ProbeRests(v, values[v].key, word, b, j);
        PlaceAndShiftUp(Bucket(word, v), b, Origins(values, hash, shifts), Upto(v));
        UptoNext(v);
      }
    }

    /**
     Rebuilds the index with twice as many buckets. At the maximal bucket count there is no
     room for the entry just added, and it is taken back.
     */
    method IncreaseSize() returns (grown: bool)
      requires Sized() && 0 < |values| == capacity + 1
      requires UniqueKeys(values) && Indexed(|values| - 1)
      modifies this`values, this`buckets, this`capacity, this`shifts, buckets
      ensures Valid() && (buckets == old(buckets) || fresh(buckets))
      ensures grown <==> old(capacity) < MAX_BUCKETS
      ensures shifts == if grown then old(shifts) - 1 else old(shifts)
      ensures values == if grown then old(values) else old(values[..|values| - 1])
    {
      hide Index, UniqueKeys, Pow2, NumBuckets;
      NumBucketsBounds(shifts);
      if capacity == MAX_BUCKETS {
        UniquePrefix(values, |values| - 1);
        PopBack();
        return false;
      }
      OneDoublingSuffices(shifts, |values|);
      shifts := shifts - 1;
      AllocateBucketsFromShift();
      CapacityBelowBuckets(shifts);
      ClearAndFillBucketsFromValues();
      return true;
    }

    /** Drops the last entry, which is not indexed. */
    method PopBack()
      requires Sized() && |values| > 0 && Indexed(|values| - 1)
      modifies this`values
      ensures values == old(values[..|values| - 1]) && Indexed(|values|)
    {
      ghost var os := Origins(values, hash, shifts);
      values := values[..|values| - 1];
      OriginsInRange(values, hash, shifts);
      Reorigin(buckets[..], os, Upto(|values|), Origins(values, hash, shifts));
    }

    /** Adds an entry, which is not indexed yet; a probe for it among the others goes on. */
    method PushBack(e: Entry<K, V>, ghost word: nat, ghost b: nat, ghost j: nat)
      requires Probing(|values|, e.key, word, b, j)
      modifies this`values
      ensures values == old(values) + [e] && Probing(|values| - 1, e.key, word, b, j)
    {
      ghost var os := Origins(values, hash, shifts);
      values := values + [e];
      OriginsInRange(values, hash, shifts);
      Reorigin(buckets[..], os, Upto(|values| - 1), Origins(values, hash, shifts));
    }

    /** Places the entry just pushed, which is not indexed yet, or grows the table for it. */
    method PlaceElement(word: nat, b: nat, ghost j: nat) returns (placed: bool)
      requires 0 < |values| <= capacity + 1 && UniqueKeys(values) && b < buckets.Length
      requires Probing(|values| - 1, values[|values| - 1].key, word, b, j)
      requires buckets[b].word <= word && Behind(word, b, j)
      modifies this`values, this`buckets, this`capacity, this`shifts, buckets
      ensures Valid() && (buckets == old(buckets) || fresh(buckets))
      ensures placed <==> |old(values)| <= MAX_BUCKETS
      ensures shifts == if placed && |old(values)| > old(capacity) then old(shifts) - 1 else old(shifts)
      ensures values == if placed then old(values) else old(values[..|values| - 1])
    {
      hide Indexed, UniqueKeys, Pow2, NumBuckets, Probing, Behind;
      ProbeRange(|values| - 1, values[|values| - 1].key, word, b, j);
      NumBucketsBounds(shifts);
      CapacityBelowBuckets(shifts);
      if |values| > capacity {
        placed := IncreaseSize();
      } else {
        PlaceLastEntry(word, b, j);
        placed := true;
      }
    }

    /** Indexes the last entry where its probe has come to rest. */
    method PlaceLastEntry(word: nat, b: nat, ghost j: nat)
      requires Sized() && 0 < |values| <= buckets.Length && b < buckets.Length
      requires Probing(|values| - 1, values[|values| - 1].key, word, b, j)
      requires buckets[b].word <= word && Behind(word, b, j)
      modifies buckets
      ensures Indexed(|values|)
    {
      hide Index, Pow2, NumBuckets, Probing, Carry, Origins, Behind;
      var v := |values| - 1;
      ProbeRests(v, values[v].key, word, b, j);
      PlaceAndShiftUp(Bucket(word, v), b, Origins(values, hash, shifts), Upto(v));
      UptoNext(v);
    }

    /** The effect of inserting an entry: nothing if its key is there or nothing more fits. */
    ghost predicate Added(before: seq<Entry<K, V>>, e: Entry<K, V>, r: Placement)
      reads this
    {
      match r
      case Present(idx) => idx == IndexOf(before, e.key) < |before| && values == before
      case Inserted(idx) => idx == |before| == IndexOf(before, e.key) < MAX_BUCKETS && values == before + [e]
      case Overflow => |before| == MAX_BUCKETS == IndexOf(before, e.key) && values == before
    }

    ghost predicate Assigned(before: seq<Entry<K, V>>, e: Entry<K, V>, r: Placement)
      reads this
    {
      if r.Present? then r.idx == IndexOf(before, e.key) < |before| && values == before[r.idx := e]
      else Added(before, e, r)
    }

    /** Places the entry just pushed once the probe has shown its key to be absent. */
    method PlaceAbsent(ghost before: seq<Entry<K, V>>, word: nat, b: nat, ghost j: nat) returns (r: Placement)
      requires |values| == |before| + 1 && values == before + [values[|before|]]
      requires UniqueKeys(before) && |before| <= capacity && b < buckets.Length
      requires Probing(|before|, values[|before|].key, word, b, j)
      requires buckets[b].word < word && Behind(word, b, j)
      modifies this`values, this`buckets, this`capacity, this`shifts, buckets
      ensures Valid() && (buckets == old(buckets) || fresh(buckets))
      ensures Added(before, old(values)[|before|], r)
      ensures shifts == if r.Inserted? && |before| == old(capacity) then old(shifts) - 1 else old(shifts)
    {
      hide Indexed, Probing, UniqueKeys;
      ProbeDone(|before|, values[|before|].key, word, b, j);
      AppendUnique(before, values);
      var placed := PlaceElement(word, b, j);
      r := if placed then Inserted(|values| - 1) else Overflow;
    }

    /** Pushes the entry first, and takes it back if its key turns out to be there. */
    method Emplace(key: K, value: V) returns (r: Placement)
      requires Valid()
      modifies this`values, this`buckets, this`capacity, this`shifts, buckets
      ensures Valid() && (buckets == old(buckets) || fresh(buckets))
      ensures Added(old(values), Entry(key, value), r)
      ensures shifts == if r.Inserted? && |old(values)| == old(capacity) then old(shifts) - 1 else old(shifts)
    {
      hide Indexed, Probing, UniqueKeys;
      ghost var before, n := values, |values|;
      ProbeStart(n, key);
      PushBack(Entry(key, value), DIST_INC + hash(key) % DIST_INC, BucketIdxFromHash(hash(key), shifts), 0);
      var word: nat, b: nat := DIST_INC + hash(key) % DIST_INC, BucketIdxFromHash(hash(key), shifts);
      ghost var j: nat := 0;
      while word <= buckets[b].word
        invariant values == before + [Entry(key, value)] && buckets == old(buckets)
        invariant n <= capacity == old(capacity) && shifts == old(shifts)
        invariant b < buckets.Length && Probing(n, key, word, b, j) && Behind(word, b, j)
        decreases buckets.Length - j
      {
        ProbeInTurn(n, key, word, b, j);
        if word == buckets[b].word {
          ProbeHit(n, key, word, b, j);
          if values[buckets[b].idx].key == key {
            var found := buckets[b].idx;
            MatchIsIndexOf(before, key, found);
            ProbeRange(n, key, word, b, j);
            PopBack();
            return Present(found);
          }
        }
        ProbeOn(n, key, word, b, j);
        word, b, j := word + DIST_INC, Next(buckets.Length, b), j + 1;
      }
      r := PlaceAbsent(before, word, b, j);
    }

    /** Probes first, and pushes the entry only if its key is absent. */
    method TryEmplace(key: K, value: V) returns (r: Placement)
      requires Valid()
      modifies this`values, this`buckets, this`capacity, this`shifts, buckets
      ensures Valid() && (buckets == old(buckets) || fresh(buckets))
      ensures Added(old(values), Entry(key, value), r)
      ensures shifts == if r.Inserted? && |old(values)| == old(capacity) then old(shifts) - 1 else old(shifts)
    {
      hide Indexed, Probing, UniqueKeys;
      ghost var before, n := values, |values|;
      var word: nat, b: nat := DIST_INC + hash(key) % DIST_INC, BucketIdxFromHash(hash(key), shifts);
      ghost var j: nat := 0;
      ProbeStart(n, key);
      while true
        invariant values == before && buckets == old(buckets) && Valid()
        invariant capacity == old(capacity) && shifts == old(shifts)
        invariant b < buckets.Length && Probing(n, key, word, b, j) && Behind(word, b, j)
        decreases buckets.Length - j
      {
        ProbeInTurn(n, key, word, b, j);
        if word == buckets[b].word {
          ProbeHit(n, key, word, b, j);
          if values[buckets[b].idx].key == key {
            MatchIsIndexOf(before, key, buckets[b].idx);
            return Present(buckets[b].idx);
          }
        } else if word > buckets[b].word {
          PushBack(Entry(key, value), word, b, j);
          r := PlaceAbsent(before, word, b, j);
          return;
        }
        ProbeOn(n, key, word, b, j);
        word, b, j := word + DIST_INC, Next(buckets.Length, b), j + 1;
      }
    }

    /** try_emplace, and an assignment if the key was there. */
    method InsertOrAssign(key: K, value: V) returns (r: Placement)
      requires Valid()
      modifies this`values, this`buckets, this`capacity, this`shifts, buckets
      ensures Valid() && (buckets == old(buckets) || fresh(buckets))
      ensures r.Overflow? <==> key !in old(Map()) && |old(Map())| == MAX_BUCKETS
      ensures r.Present? <==> key in old(Map())
      ensures Map() == if r.Overflow? then old(Map()) else old(Map())[key := value]
      ensures Assigned(old(values), Entry(key, value), r)
      ensures shifts == if r.Inserted? && |old(values)| == old(capacity) then old(shifts) - 1 else old(shifts)
    {
      hide Index, Contents, UniqueKeys, Pow2, NumBuckets;
      ghost var before := values;
      r := TryEmplace(key, value);
      ContentsSize(before);
      IndexOfContents(before, key);
      if r.Present? {
        ContentsSet(before, r.idx, value);
        values := values[r.idx := Entry(values[r.idx].key, value)];
        assert Origins(values, hash, shifts) == Origins(before, hash, shifts);
      } else if r.Inserted? {
        ContentsAppend(before, Entry(key, value));
      }
    }

    /** The index of the key's entry; the number of entries stands for the end iterator. */
    method Find(key: K) returns (idx: nat)
      requires Valid()
      ensures idx == IndexOf(values, key)
    {
      hide Indexed, Probing, UniqueKeys;
      ghost var n := |values|;
      if values == [] { return |values|; }
      var word: nat, b: nat := DIST_INC + hash(key) % DIST_INC, BucketIdxFromHash(hash(key), shifts);
      ghost var j: nat := 0;
      ProbeStart(n, key);
      NumBucketsBounds(shifts);
      // two probes that do not ask whether to stop
      for probe := 0 to 2
        invariant b < buckets.Length && Probing(n, key, word, b, j) && j == probe
      {
        if word == buckets[b].word {
          ProbeHit(n, key, word, b, j);
          if values[buckets[b].idx].key == key {
            MatchIsIndexOf(values, key, buckets[b].idx);
            return buckets[b].idx;
          }
        }
        ProbeOn(n, key, word, b, j);
        word, b, j := word + DIST_INC, Next(buckets.Length, b), j + 1;
      }
      while true
        invariant b < buckets.Length && Probing(n, key, word, b, j)
        decreases buckets.Length - j
      {
        ProbeInTurn(n, key, word, b, j);
        if word == buckets[b].word {
          ProbeHit(n, key, word, b, j);
          if values[buckets[b].idx].key == key {
            MatchIsIndexOf(values, key, buckets[b].idx);
            return buckets[b].idx;
          }
        } else if word > buckets[b].word {
          ProbeDone(n, key, word, b, j);
          return |values|;
        }
        ProbeOn(n, key, word, b, j);
        word, b, j := word + DIST_INC, Next(buckets.Length, b), j + 1;
      }
    }

    // -------------------------------------------------------------- removal

    /** Looks, from its home on, for the bucket that points to the entry at index `i`. */
    method BucketPointingTo(i: nat, home: nat, ghost os: seq<Origin>, ghost live: set<nat>) returns (b: nat)
      requires Index(buckets[..], os, live) && i in live && i < |os| && home == os[i].home
      ensures Holds(buckets[..], b, i)
    {
      var n := buckets.Length;
      ghost var x: nat :| Holds(buckets[..], x, i);
      ghost var j: nat := 0;
      assert BucketOk(buckets[..], os, x);
      b := home;
      Chain(buckets[..], os, live, x, j);
      while buckets[b].idx != i
        invariant j <= Dist(n, home, x) && b == At(n, home, j) && Full(buckets[..], b)
        decreases Dist(n, home, x) - j
      {
        b, j := Next(n, b), j + 1;
        Chain(buckets[..], os, live, x, j);
      }
    }

    /** Takes an entry out of the index: the buckets after its own shift back towards home. */
    method Unlink(bucketIdx: nat, ghost os: seq<Origin>, ghost live: set<nat>)
      requires Index(buckets[..], os, live) && Full(buckets[..], bucketIdx)
      modifies buckets
      ensures Index(buckets[..], os, live - {old(buckets[bucketIdx].idx)})
    {
      assert buckets.Length >= 4;
      hide Index, Placed, Hole, Total, Shifted, Full, Ordered, OrderedAt, BucketOk, Holds;
      var n, b := buckets.Length, bucketIdx;
      var next := Next(n, b);
      ghost var rest := live - {buckets[b].idx};
      Dig(buckets[..], os, live, b);
      while buckets[next].word >= 2 * DIST_INC
        invariant b < n && next == Next(n, b)
        invariant Hole(buckets[..][b := EMPTY], os, rest, b)
        decreases Total(buckets[..][b := EMPTY])
      {
        ghost var bs := buckets[..];
        ShiftBack(bs[b := EMPTY], os, rest, b);
        ShiftStores(bs, b);
        buckets[b] := Bucket(buckets[next].word - DIST_INC, buckets[next].idx);
        assert buckets[..] == bs[b := Bucket(bs[next].word - DIST_INC, bs[next].idx)];
        b, next := next, Next(n, next);
      }
      ghost var bs := buckets[..][b := EMPTY];
      buckets[b] := EMPTY;
      assert buckets[..] == bs;
      Settle(bs, os, rest, b);
    }

    /**
     Removes the entry a bucket points to. The last entry moves into the hole, and its bucket
     is found by its old index and repointed.
     */
    method DoErase(bucketIdx: nat) returns (erased: Entry<K, V>)
      requires Valid() && Full(buckets[..], bucketIdx) && buckets[bucketIdx].idx < |values|
      modifies this`values, buckets
      ensures Valid()
      ensures erased == old(values[buckets[bucketIdx].idx])
      ensures values == SwapRemove(old(values), old(buckets[bucketIdx].idx))
    {
      hide Index, Pow2, NumBuckets, Contents, UniqueKeys;
      var removed, back := buckets[bucketIdx].idx, |values| - 1;
      ghost var os, rest := Origins(values, hash, shifts), Upto(|values|) - {removed};
      ghost var before := values;
      ContentsRemove(before, removed);
      Unlink(bucketIdx, os, Upto(|values|));
      erased := values[removed];
      if removed != back {
        values := values[removed := values[back]];
        var home := BucketIdxFromHash(hash(values[removed].key), shifts);
        var b := BucketPointingTo(back, home, os, rest);
        ghost var after := Origins(SwapRemove(before, removed), hash, shifts);
        assert after == os[..back][removed := os[back]];
        Repoint(buckets[..], os, rest, b, removed, after);
        ghost var bs := buckets[..][b := Bucket(buckets[b].word, removed)];
        buckets[b] := Bucket(buckets[b].word, removed);
        assert buckets[..] == bs;
        assert rest - {back} + {removed} == Upto(back);
      } else {
        assert rest == Upto(back);
        OriginsInRange(before[..back], hash, shifts);
        Reorigin(buckets[..], os, rest, Origins(before[..back], hash, shifts));
      }
      values := values[..back];
    }

    method DoEraseKey(key: K) returns (erased: Option<Entry<K, V>>)
      requires Valid()
      modifies this`values, buckets
      ensures Valid()
      ensures var before := old(values);
              var i := IndexOf(before, key);
              && erased == (if i < |before| then Some(before[i]) else None)
              && values == (if i < |before| then SwapRemove(before, i) else before)
    {
      hide Indexed, Probing, UniqueKeys, SwapRemove;
      if values == [] {
        return None;
      }
      ghost var n := |values|;
      var word: nat, b: nat;
      ghost var j: nat;
      word, b, j := NextWhileLess(key, n);
      while word == buckets[b].word && MissesKey(n, key, word, b, j)
        invariant Valid() && unchanged(this) && unchanged(buckets)
        invariant b < buckets.Length && Probing(n, key, word, b, j) && buckets[b].word <= word
        decreases buckets.Length - j
      {
        ProbeHit(n, key, word, b, j);
        ProbeOn(n, key, word, b, j);
        ProbeNotOvertaken(n, key, word, b, j);
        word, b, j := word + DIST_INC, Next(buckets.Length, b), j + 1;
      }
      if word != buckets[b].word {
        ProbeDone(n, key, word, b, j);
        return None;
      }
      ProbeHit(n, key, word, b, j);
      MatchIsIndexOf(values, key, buckets[b].idx);
      var e := DoErase(b);
      return Some(e);
    }

    /** Whether the bucket, whose word is the probe's, belongs to an entry with another key. */
    predicate MissesKey(ghost n: nat, key: K, word: nat, b: nat, ghost j: nat)
      reads this, buckets
      requires b < buckets.Length && word == buckets[b].word && Probing(n, key, word, b, j)
    {
      ProbeHit(n, key, word, b, j);
      values[buckets[b].idx].key != key
    }

    method EraseKey(key: K) returns (count: nat)
      requires Valid()
      modifies this`values, buckets
      ensures Valid()
      ensures count == if key in old(Map()) then 1 else 0
      ensures var i := IndexOf(old(values), key);
              if i < |old(values)| then count == 1 && values == SwapRemove(old(values), i)
              else count == 0 && values == old(values)
      ensures Map() == old(Map()) - {key}
    {
      IndexOfRemove(values, key);
      var erased := DoEraseKey(key);
      count := if erased.Some? then 1 else 0;
    }

    /** Removes the entry an iterator points to. */
    method EraseAt(i: nat) returns (erased: Entry<K, V>)
      requires Valid() && i < |values|
      modifies this`values, buckets
      ensures Valid()
      ensures erased == old(values[i]) && values == SwapRemove(old(values), i)
      ensures Map() == old(Map()) - {old(values[i].key)}
    {
      hide Index;
      ContentsRemove(values, i);
      ghost var os := Origins(values, hash, shifts);
      var b := BucketPointingTo(i, BucketIdxFromHash(hash(values[i].key), shifts), os, Upto(|values|));
      erased := DoErase(b);
    }

    /**
     Removes the entries [first, last): from left to right while the back has entries to fill
     the gap with, then the rest of the range from right to left.
     */
    method EraseRange(first: nat, last: nat) returns (idx: nat)
      requires Valid() && first <= last <= |values|
      modifies this`values, buckets
      ensures Valid() && idx == first
      ensures values == WithoutRange(old(values), first, last)
    {
      hide Valid, Contents, SwapRemove, HalfRemoved, WithoutRange;
      ghost var before, n := values, |values|;
      HalfRemovedEnds(before, first, last);
      var mid := first + Moved(|values|, first, last);
      var i := first;
      while i != mid
        invariant first <= i <= mid && Valid()
        invariant values == HalfRemoved(before, first, i - first, n - (i - first))
        decreases mid - i
      {
        HalfRemovedMove(before, first, i - first);
        var _ := EraseAt(i);
        i := i + 1;
      }
      i := last;
      while i != mid
        invariant mid <= i <= last && Valid()
        invariant mid < last ==> values == HalfRemoved(before, first, mid - first, i)
        invariant mid == last ==> values == HalfRemoved(before, first, mid - first, n - (mid - first))
      {
        i := i - 1;
        HalfRemovedPop(before, first, mid - first, i + 1);
        var _ := EraseAt(i);
      }
      return first;
    }

    // ------------------------------------------------- whole-table operations

    method Clear()
      requires Valid()
      modifies this`values, buckets
      ensures Valid() && values == []
    {
      values := [];
      ClearBuckets();
    }

    /** Sets the shift and rebuilds the index; the entries and their order stay. */
    method Rebuild(newShifts: nat)
      requires UniqueKeys(values) && Roomy(newShifts)
      modifies this`buckets, this`capacity, this`shifts
      ensures Valid() && fresh(buckets) && shifts == newShifts
    {
      hide UniqueKeys, Pow2, NumBuckets, Index;
      shifts := newShifts;
      AllocateBucketsFromShift();
      CapacityBelowBuckets(shifts);
      ClearAndFillBucketsFromValues();
    }

    /** Stores the shift of a size that no bucket count admits, and frees the buckets. */
    method Free()
      modifies this`buckets, this`capacity, this`shifts
      ensures Stuck() && fresh(buckets)
    {
      shifts, capacity := 0, 0;
      buckets := new Bucket[0];
    }

    /** Whether a shift gives enough buckets for the entries. */
    ghost predicate Roomy(newShifts: nat)
      reads this
    {
      32 <= newShifts <= INITIAL_SHIFTS && |values| <= LoadLimit(NumBuckets(newShifts))
    }

    /**
     Moves to the smallest bucket count that admits `count` entries and those already there. If
     there is none, the shift is stored and the buckets are freed before the source is undefined.
     */
    method Rehash(count: nat) returns (defined: bool)
      requires Valid()
      modifies this`buckets, this`capacity, this`shifts
      ensures buckets == old(buckets) || fresh(buckets)
      ensures defined <==> Larger(count, |values|) <= LoadLimit(MAX_BUCKETS)
      ensures if defined then Valid() && Tight(shifts, Larger(count, |values|)) else Stuck()
    {
      var wanted := CalcShiftsForSize(Larger(Smaller(count, MAX_BUCKETS), |values|));
      if wanted == 0 {
        Free();
        return false;
      }
      if wanted != shifts {
        Rebuild(wanted);
      }
      return true;
    }

    /** As rehash, but never to fewer buckets than there are. */
    method Reserve(count: nat) returns (defined: bool)
      requires Valid()
      modifies this`buckets, this`capacity, this`shifts
      ensures buckets == old(buckets) || fresh(buckets)
      ensures defined <==> Larger(count, |values|) <= LoadLimit(MAX_BUCKETS)
      ensures if defined then Valid() && count <= capacity && shifts <= old(shifts) else Stuck()
      ensures defined ==> Tight(shifts, Larger(count, |values|)) || shifts == old(shifts)
    {
      hide UniqueKeys, Pow2, NumBuckets, Index;
      var wanted := CalcShiftsForSize(Larger(Smaller(count, MAX_BUCKETS), |values|));
      if wanted == 0 {
        Free();
        return false;
      }
      if wanted < shifts {
        Rebuild(wanted);
      } else {
        NumBucketsMonotone(shifts, wanted);
        LoadLimitMonotone(NumBuckets(wanted), NumBuckets(shifts));
      }
      CapacityBelowBuckets(shifts);
      return true;
    }

    /** Allocates more buckets if the present ones are too few for `size` entries. */
    method MakeRoom(size: nat) returns (defined: bool)
      requires Sized()
      modifies this`buckets, this`capacity, this`shifts
      ensures buckets == old(buckets) || fresh(buckets)
      ensures defined <==> size <= LoadLimit(MAX_BUCKETS)
      ensures if defined then Sized() && size <= capacity else Stuck()
    {
      hide Pow2, NumBuckets;
      var wanted := CalcShiftsForSize(size);
      if wanted == 0 {
        Free();
        return false;
      }
      if wanted < shifts {
        shifts := wanted;
        AllocateBucketsFromShift();
      } else {
        NumBucketsMonotone(shifts, wanted);
        LoadLimitMonotone(NumBuckets(wanted), NumBuckets(shifts));
      }
      CapacityBelowBuckets(shifts);
      return true;
    }

    /** Probes for a key among the first `n` entries: the key is found, or its place is. */
    method FindOrPlace(n: nat, key: K) returns (found: bool, word: nat, b: nat, ghost j: nat)
      requires Sized() && n <= |values| && UniqueKeys(values[..n]) && Indexed(n)
      ensures b < buckets.Length && Probing(n, key, word, b, j) && Behind(word, b, j)
      ensures found <==> IndexOf(values[..n], key) < n
      ensures !found ==> word > buckets[b].word
    {
      hide Probing, Pow2, NumBuckets, Index, UniqueKeys;
      word, b, j := DIST_INC + hash(key) % DIST_INC, BucketIdxFromHash(hash(key), shifts), 0;
      ProbeStart(n, key);
      while true
        invariant b < buckets.Length && Probing(n, key, word, b, j) && Behind(word, b, j)
        decreases buckets.Length - j
      {
        ProbeInTurn(n, key, word, b, j);
        if word > buckets[b].word {
          ProbeDone(n, key, word, b, j);
          return false, word, b, j;
        }
        if word == buckets[b].word {
          ProbeHit(n, key, word, b, j);
          if values[buckets[b].idx].key == key {
            assert values[..n][buckets[b].idx].key == key;
            return true, word, b, j;
          }
        }
        ProbeOn(n, key, word, b, j);
        word, b, j := word + DIST_INC, Next(buckets.Length, b), j + 1;
      }
    }

    /**
     One round of replace: the entry at `v` is indexed, or, if its key is indexed already,
     overwritten with the back entry.
     */
    method ReplaceStep(v: nat) returns (next: nat)
      requires Sized() && v < |values| <= capacity && UniqueKeys(values[..v]) && Indexed(v)
      modifies this`values, buckets
      ensures next <= |values| <= |old(values)| && |values| - next < |old(values)| - v
      ensures UniqueKeys(values[..next]) && Indexed(next)
      ensures Dedup(values, next) == Dedup(old(values), v)
    {
      hide Probing, Pow2, NumBuckets, Index, UniqueKeys, SwapRemove, IndexOf, Carry;
      var key := values[v].key;
      var found, word, b, j := FindOrPlace(v, key);
      if found {
        DropDuplicate(v);
        next := v;
      } else {
        AppendUnique(values[..v], values[..v + 1]);
        ProbeRests(v, key, word, b, j);
        PlaceAndShiftUp(Bucket(word, v), b, Origins(values, hash, shifts), Upto(v));
        UptoNext(v);
        next := v + 1;
      }
    }

    method DropDuplicate(v: nat)
      requires Sized() && v < |values| && Indexed(v)
      modifies this`values
      ensures values == SwapRemove(old(values), v) && |values| == |old(values)| - 1 && Indexed(v)
      ensures values[..v] == old(values[..v])
    {
      ghost var os := Origins(values, hash, shifts);
      if v != |values| - 1 {
        values := values[v := values[|values| - 1]];
      }
      values := values[..|values| - 1];
      OriginsInRange(values, hash, shifts);
      Reorigin(buckets[..], os, Upto(v), Origins(values, hash, shifts));
    }

    /** Stores a vector of entries, none of which is indexed yet. */
    method TakeOver(container: seq<Entry<K, V>>)
      requires Sized() && Indexed(0)
      modifies this`values
      ensures values == container && Indexed(0) && UniqueKeys(values[..0])
    {
      ghost var none := Origins(values, hash, shifts);
      values := container;
      OriginsInRange(values, hash, shifts);
      UptoNext(0);
      Reorigin(buckets[..], none, Upto(0), Origins(values, hash, shifts));
    }

    /**
     Takes over a whole vector of entries. An entry whose key is already indexed is replaced by
     the back entry. Vectors the value index cannot address are refused; those it can address
     but no bucket count admits are not defined.
     */
    method Replace(container: seq<Entry<K, V>>) returns (r: Takeover)
      requires Valid()
      modifies this`values, this`buckets, this`capacity, this`shifts, buckets
      ensures buckets == old(buckets) || fresh(buckets)
      ensures r.Refused? <==> |container| > MAX_BUCKETS
      ensures r.Undefined? <==> LoadLimit(MAX_BUCKETS) < |container| <= MAX_BUCKETS
      ensures if r.Undefined? then Stuck() else Valid()
      ensures values == if r.Taken? then Dedup(container, 0) else old(values)
    {
      hide Probing, Pow2, NumBuckets, Index;
      if |container| > MAX_BUCKETS { return Refused; }
      var defined := MakeRoom(|container|);
      if !defined { return Undefined; }
      ClearBuckets();
      TakeOver(container);
      var v: nat := 0;
      while v != |values|
        invariant v <= |values| <= capacity && Sized() && (buckets == old(buckets) || fresh(buckets))
        invariant UniqueKeys(values[..v]) && Indexed(v)
        invariant Dedup(values, v) == Dedup(container, 0)
        decreases |values| - v
      {
        v := ReplaceStep(v);
      }
      assert values[..v] == values;
      return Taken;
    }

    /** Equality of tables is equality of their maps, whatever the order of the entries. */
    method Equals(other: Table<K, V>) returns (equal: bool)
      requires Valid() && other.Valid()
      ensures equal <==> Map() == other.Map()
    {
      hide Indexed, Contents, IndexOf, UniqueKeys;
      if this == other { return true; }
      ContentsSize(values);
      ContentsSize(other.values);
      if |values| != |other.values| { return false; }
      for i := 0 to |other.values|
        invariant forall k :: 0 <= k < i ==> Agrees(values, other.values[k])
      {
        var idx := Find(other.values[i].key);
        IndexOfContents(values, other.values[i].key);
        ContentsOne(other.values, i);
        if idx == |values| || other.values[i].value != values[idx].value {
          return false;
        }
      }
      AllAgree(values, other.values);
      return true;
    }
  }
}
