/**
 The bucket index of the robin-hood table: a circular array of words that order the buckets,
 and the steps by which insertion and removal rearrange it.

 A bucket's word is (distance from its home + 1) * 256 + fingerprint, an empty bucket is all
 zeroes. The index is described for an arbitrary family of origins (home bucket and
 fingerprint of the entry at each value index), so that nothing here depends on keys.
 */
module RobinHood {

  datatype Bucket = Bucket(word: nat, idx: nat)

  /** Home bucket and fingerprint of one entry. */
  datatype Origin = Origin(home: nat, tag: nat)

  const DIST_INC: nat := 256
  const EMPTY: Bucket := Bucket(0, 0)

  /** The circularly following bucket. */
  function Next(n: nat, p: nat): (q: nat)
    requires p < n
    ensures q < n
  {
    if p + 1 == n then 0 else p + 1
  }

  function Prev(n: nat, p: nat): (q: nat)
    requires p < n
    ensures q < n && Next(n, q) == p
  {
    if p == 0 then n - 1 else p - 1
  }

  /** How many steps of Next lead from `home` to `p`. */
  function Dist(n: nat, home: nat, p: nat): (d: nat)
    requires home < n && p < n
    ensures d < n
  {
    if home <= p then p - home else p + n - home
  }

  /** The bucket `j` steps after `home`; `j == n` is a full turn. */
  function At(n: nat, home: nat, j: nat): (p: nat)
    requires home < n && j <= n
    ensures p < n
    ensures j < n ==> Dist(n, home, p) == j
  {
    if home + j < n then home + j else home + j - n
  }

  lemma AtDist(n: nat, home: nat, p: nat)
    requires home < n && p < n
    ensures At(n, home, Dist(n, home, p)) == p
  {
  }

  /** The word of an entry with the given tag, `j` steps away from home. */
  function Probe(tag: nat, j: nat): nat {
    (j + 1) * DIST_INC + tag
  }

  ghost predicate OriginsOk(os: seq<Origin>, n: nat) {
    forall i :: 0 <= i < |os| ==> os[i].home < n && os[i].tag < DIST_INC
  }

  predicate Full(bs: seq<Bucket>, p: int) {
    0 <= p < |bs| && bs[p].word != 0
  }

  predicate Holds(bs: seq<Bucket>, p: int, i: int) {
    Full(bs, p) && bs[p].idx == i
  }

  /** A full bucket points to an entry and carries exactly that entry's word. */
  ghost predicate BucketOk(bs: seq<Bucket>, os: seq<Origin>, p: nat)
    requires p < |bs| && OriginsOk(os, |bs|)
  {
    if bs[p].word == 0 then bs[p].idx == 0
    else bs[p].idx < |os| && bs[p].word == Probe(os[bs[p].idx].tag, Dist(|bs|, os[bs[p].idx].home, p))
  }

  /** A bucket away from home has a predecessor whose word is at most one distance behind. */
  predicate OrderedAt(bs: seq<Bucket>, p: nat)
    requires p < |bs|
  {
    bs[p].word >= 2 * DIST_INC ==> bs[Prev(|bs|, p)].word + DIST_INC >= bs[p].word
  }

  /** Each value index in `live`, and no other, sits in exactly one full bucket. */
  ghost predicate Placed(bs: seq<Bucket>, os: seq<Origin>, live: set<nat>) {
    && |bs| >= 4
    && OriginsOk(os, |bs|)
    && (forall p :: 0 <= p < |bs| ==> BucketOk(bs, os, p))
    && (forall p :: Full(bs, p) ==> bs[p].idx in live)
    && (forall p, q :: Full(bs, p) && Full(bs, q) && bs[p].idx == bs[q].idx ==> p == q)
    && (forall i :: i in live ==> exists p :: Holds(bs, p, i))
  }

  predicate Ordered(bs: seq<Bucket>) {
    forall p :: 0 <= p < |bs| ==> OrderedAt(bs, p)
  }

  /** The invariant of the bucket array. */
  ghost predicate Index(bs: seq<Bucket>, os: seq<Origin>, live: set<nat>) {
    Placed(bs, os, live) && Ordered(bs)
  }

  function Upto(n: nat): set<nat> {
    set i | 0 <= i < n && Below(i, n)
  }

  predicate Below(i: int, n: int) { i < n }

  lemma UptoNext(n: nat)
    ensures Upto(0) == {}
    ensures Upto(n) + {n} == Upto(n + 1)
    ensures |Upto(n)| == n
  {
    if n > 0 {
      UptoNext(n - 1);
    }
  }

  // ---------------------------------------------------------------- probing

  /** Between an entry's home and its bucket no word is behind the entry's own probe. */
  lemma {:induction false} Chain(bs: seq<Bucket>, os: seq<Origin>, live: set<nat>, p: nat, j: nat)
    requires Index(bs, os, live) && Full(bs, p) && BucketOk(bs, os, p)
    requires j <= Dist(|bs|, os[bs[p].idx].home, p)
    ensures bs[At(|bs|, os[bs[p].idx].home, j)].word >= Probe(os[bs[p].idx].tag, j)
    decreases Dist(|bs|, os[bs[p].idx].home, p) - j
  {
    var o := os[bs[p].idx];
    if j < Dist(|bs|, o.home, p) {
      Chain(bs, os, live, p, j + 1);
      assert OrderedAt(bs, At(|bs|, o.home, j + 1));
      assert Prev(|bs|, At(|bs|, o.home, j + 1)) == At(|bs|, o.home, j);
    } else {
      assert At(|bs|, o.home, j) == p;
    }
  }

  /** Value index `i` is not among the first `j` buckets counted from `home`. */
  ghost predicate Beyond(bs: seq<Bucket>, i: int, home: nat, j: nat)
    requires home < |bs|
  {
    forall p :: Holds(bs, p, i) ==> Dist(|bs|, home, p) >= j
  }

  lemma BeyondStep(bs: seq<Bucket>, i: nat, home: nat, j: nat)
    requires home < |bs| && j < |bs| && Beyond(bs, i, home, j)
    requires !Holds(bs, At(|bs|, home, j), i)
    ensures Beyond(bs, i, home, j + 1)
  {
  }

  /** A probe never gets ahead of the buckets before it has met its entry. */
  lemma ProbeHolds(bs: seq<Bucket>, os: seq<Origin>, live: set<nat>, i: nat, j: nat)
    requires Index(bs, os, live) && i in live && i < |os| && j <= |bs|
    requires Beyond(bs, i, os[i].home, j)
    ensures bs[At(|bs|, os[i].home, j)].word >= Probe(os[i].tag, j)
  {
    var p :| Holds(bs, p, i);
    assert BucketOk(bs, os, p);
    Chain(bs, os, live, p, j);
  }

  /**
   A search for the entries `ts`, all of origin `o`, that has passed the first `j` buckets
   from home without meeting any of them.
   */
  ghost predicate Seeking(bs: seq<Bucket>, os: seq<Origin>, live: set<nat>, ts: set<nat>, o: Origin, j: nat) {
    && Index(bs, os, live)
    && o.home < |bs| && o.tag < DIST_INC && j <= |bs|
    && ts <= live
    && (forall i :: i in ts ==> i < |os| && os[i] == o)
    && (forall i :: i in ts ==> Beyond(bs, i, o.home, j))
  }

  /** A bucket with another word, or with an entry not sought, is passed. */
  lemma SeekOn(bs: seq<Bucket>, os: seq<Origin>, live: set<nat>, ts: set<nat>, o: Origin, j: nat)
    requires Seeking(bs, os, live, ts, o, j) && j < |bs|
    requires var b := bs[At(|bs|, o.home, j)];
             b.word != Probe(o.tag, j) || b.idx !in ts
    ensures Seeking(bs, os, live, ts, o, j + 1)
  {
    var p := At(|bs|, o.home, j);
    assert BucketOk(bs, os, p);
    forall i | i in ts ensures Beyond(bs, i, o.home, j + 1) {
      BeyondStep(bs, i, o.home, j);
    }
  }

  /** A probe that is ahead of the bucket it meets has nothing left to find. */
  lemma SeekEnds(bs: seq<Bucket>, os: seq<Origin>, live: set<nat>, ts: set<nat>, o: Origin, j: nat)
    requires Seeking(bs, os, live, ts, o, j)
    ensures bs[At(|bs|, o.home, j)].word < Probe(o.tag, j) ==> ts == {}
  {
    if i :| i in ts {
      ProbeHolds(bs, os, live, i, j);
    }
  }

  /** A bucket with the probe's word belongs to an entry of the same origin. */
  lemma SeekHit(bs: seq<Bucket>, os: seq<Origin>, live: set<nat>, ts: set<nat>, o: Origin, j: nat)
    requires Seeking(bs, os, live, ts, o, j)
    requires bs[At(|bs|, o.home, j)].word == Probe(o.tag, j)
    ensures j < |bs| && Full(bs, At(|bs|, o.home, j))
    ensures bs[At(|bs|, o.home, j)].idx in live && bs[At(|bs|, o.home, j)].idx < |os|
  {
    var p := At(|bs|, o.home, j);
    WordBound(bs, os, live, p);
    assert BucketOk(bs, os, p) && Full(bs, p);
  }

  /** Every stored word is behind a probe that has made a full turn. */
  lemma WordBound(bs: seq<Bucket>, os: seq<Origin>, live: set<nat>, p: nat)
    requires Placed(bs, os, live) && p < |bs|
    ensures bs[p].word < Probe(0, |bs|)
  {
    assert BucketOk(bs, os, p);
  }

  /** Up to 2^24 - 2 buckets no word, stored or probing, outgrows 32 bits. */
  lemma WordsFit(bs: seq<Bucket>, os: seq<Origin>, live: set<nat>, p: nat, o: Origin, j: nat)
    requires Placed(bs, os, live) && |bs| <= 0xFF_FFFE
    requires p < |bs| && o.tag < DIST_INC && j <= |bs|
    ensures bs[p].word < 0x1_0000_0000
    ensures Probe(o.tag, j) < 0x1_0000_0000
  {
    WordBound(bs, os, live, p);
  }

  // ------------------------------------------------------------- pigeonhole

  ghost function Indices(bs: seq<Bucket>, k: nat): set<nat>
    requires k <= |bs|
  {
    set p | 0 <= p < k && bs[p].word != 0 :: bs[p].idx
  }

  lemma {:induction false} IndicesCount(bs: seq<Bucket>, os: seq<Origin>, live: set<nat>, k: nat)
    requires Placed(bs, os, live) && k <= |bs|
    requires forall p :: 0 <= p < k ==> bs[p].word != 0
    ensures |Indices(bs, k)| == k
  {
    if k == 0 {
      assert Indices(bs, 0) == {};
    } else {
      IndicesCount(bs, os, live, k - 1);
      assert Full(bs, k - 1);
      assert forall p :: 0 <= p < k - 1 ==> Full(bs, p) && bs[p].idx != bs[k - 1].idx;
      assert Indices(bs, k) == Indices(bs, k - 1) + {bs[k - 1].idx};
    }
  }

  lemma SubsetSize(a: set<nat>, b: set<nat>)
    requires a <= b
    ensures |a| <= |b|
  {
    if a != {} {
      var x :| x in a;
      SubsetSize(a - {x}, b - {x});
    }
  }

  /** Fewer entries than buckets leave a bucket empty. */
  lemma SomeEmpty(bs: seq<Bucket>, os: seq<Origin>, live: set<nat>) returns (e: nat)
    requires Placed(bs, os, live) && |live| < |bs|
    ensures e < |bs| && bs[e] == EMPTY
  {
    if forall p :: 0 <= p < |bs| ==> bs[p].word != 0 {
      IndicesCount(bs, os, live, |bs|);
      assert Indices(bs, |bs|) <= live by { assert forall p :: 0 <= p < |bs| ==> Full(bs, p); }
      SubsetSize(Indices(bs, |bs|), live);
      assert false;
    }
    e :| 0 <= e < |bs| && bs[e].word == 0;
    assert BucketOk(bs, os, e);
  }

  /** With an empty bucket left, no entry is far enough from home to keep a probe going full turn. */
  lemma ProbeShort(bs: seq<Bucket>, os: seq<Origin>, live: set<nat>, o: Origin, j: nat)
    requires Index(bs, os, live) && |live| < |bs|
    requires o.home < |bs| && j <= |bs|
    requires j > 0 ==> bs[Prev(|bs|, At(|bs|, o.home, j))].word + DIST_INC >= Probe(o.tag, j)
    ensures j < |bs|
  {
    if j == |bs| {
      var p := Prev(|bs|, o.home);
      assert BucketOk(bs, os, p) && Full(bs, p);
      var e := SomeEmpty(bs, os, live);
      AtDist(|bs|, o.home, e);
      Chain(bs, os, live, p, Dist(|bs|, o.home, e));
      assert false;
    }
  }

  /** A probe that has come to rest is a bucket ready to be placed. */
  lemma ProbeToCarry(bs: seq<Bucket>, os: seq<Origin>, live: set<nat>, i: nat, j: nat)
    requires Index(bs, os, live) && |live| < |bs| && i < |os| && i !in live && j <= |bs|
    requires bs[At(|bs|, os[i].home, j)].word <= Probe(os[i].tag, j)
    requires j > 0 ==> bs[Prev(|bs|, At(|bs|, os[i].home, j))].word + DIST_INC >= Probe(os[i].tag, j)
    ensures Carry(bs, os, live, Bucket(Probe(os[i].tag, j), i), At(|bs|, os[i].home, j))
  {
    ProbeShort(bs, os, live, os[i], j);
  }

  // -------------------------------------------------------------- insertion

  /** A bucket on its way to `place`, while all entries in `live` are stored. */
  ghost predicate Carry(bs: seq<Bucket>, os: seq<Origin>, live: set<nat>, b: Bucket, place: nat) {
    && Index(bs, os, live)
    && place < |bs|
    && b.idx < |os| && b.idx !in live
    && b.word == Probe(os[b.idx].tag, Dist(|bs|, os[b.idx].home, place))
    && bs[place].word <= b.word
    && (b.word >= 2 * DIST_INC ==> bs[Prev(|bs|, place)].word + DIST_INC >= b.word)
  }

  /** Overwriting a bucket exchanges the entry it held for the new one. */
  lemma Overwrite(bs: seq<Bucket>, os: seq<Origin>, live: set<nat>, b: Bucket, place: nat)
    requires Carry(bs, os, live, b, place)
    ensures Placed(bs[place := b], os, if bs[place].word == 0 then live + {b.idx} else live + {b.idx} - {bs[place].idx})
  {
    var cs := bs[place := b];
    var was := bs[place];
    var now := if was.word == 0 then live + {b.idx} else live + {b.idx} - {was.idx};
    assert forall p :: Full(bs, p) ==> bs[p].idx in live;
    assert forall p :: Full(cs, p) && p != place ==> Full(bs, p);
    assert was.word != 0 ==> Full(bs, place);
    forall p | 0 <= p < |cs| ensures BucketOk(cs, os, p) {
      assert BucketOk(bs, os, p);
    }
    assert forall p :: Full(cs, p) ==> cs[p].idx in now;
    forall i | i in now ensures exists p :: Holds(cs, p, i) {
      if i == b.idx {
        assert Holds(cs, place, i);
      } else {
        var p :| Holds(bs, p, i);
        assert Holds(cs, p, i);
      }
    }
  }

  /** The overwriting keeps every bucket ordered. */
  lemma OverwriteOrdered(bs: seq<Bucket>, os: seq<Origin>, live: set<nat>, b: Bucket, place: nat)
    requires Carry(bs, os, live, b, place)
    ensures Ordered(bs[place := b])
  {
    var cs := bs[place := b];
    forall p | 0 <= p < |bs| ensures OrderedAt(cs, p) {
      assert OrderedAt(bs, p);
      if p != place && Prev(|bs|, p) == place {
        assert bs[place].word <= b.word;
      }
    }
  }

  /** One shift: the carried bucket takes the place, the displaced one moves on. */
  lemma PlaceSwap(bs: seq<Bucket>, os: seq<Origin>, live: set<nat>, b: Bucket, place: nat, e: nat)
    requires Carry(bs, os, live, b, place) && bs[place].word != 0
    requires e < |bs| && bs[e].word == 0
    ensures Carry(bs[place := b], os, live + {b.idx} - {bs[place].idx},
                  Bucket(bs[place].word + DIST_INC, bs[place].idx), Next(|bs|, place))
  {
    var n, was := |bs|, bs[place];
    Overwrite(bs, os, live, b, place);
    OverwriteOrdered(bs, os, live, b, place);
    assert BucketOk(bs, os, place);
    var home := os[was.idx].home;
    if Dist(n, home, place) == n - 1 {
      // the entry would be a full turn from home, and so would leave no bucket empty
      AtDist(n, home, e);
      Chain(bs, os, live, place, Dist(n, home, e));
      assert false;
    }
    assert Dist(n, home, Next(n, place)) == Dist(n, home, place) + 1;
    assert OrderedAt(bs, Next(n, place));
  }

  /** The last shift: the place is empty. */
  lemma PlaceLast(bs: seq<Bucket>, os: seq<Origin>, live: set<nat>, b: Bucket, place: nat)
    requires Carry(bs, os, live, b, place) && bs[place].word == 0
    ensures Index(bs[place := b], os, live + {b.idx})
  {
    Overwrite(bs, os, live, b, place);
    OverwriteOrdered(bs, os, live, b, place);
  }

  // ---------------------------------------------------------------- removal

  /** The words of all buckets added up: what each backward shift makes smaller. */
  ghost function Total(bs: seq<Bucket>): nat {
    if bs == [] then 0 else bs[0].word + Total(bs[1..])
  }

  lemma {:induction false} TotalUpdate(bs: seq<Bucket>, p: nat, b: Bucket)
    requires p < |bs|
    ensures Total(bs[p := b]) == Total(bs) - bs[p].word + b.word
  {
    if p == 0 {
      assert bs[p := b][1..] == bs[1..];
    } else {
      assert bs[p := b][1..] == bs[1..][p - 1 := b];
      TotalUpdate(bs[1..], p - 1, b);
    }
  }

  /** An empty bucket whose successor may still wait to be shifted back into it. */
  ghost predicate Hole(bs: seq<Bucket>, os: seq<Origin>, live: set<nat>, p: nat) {
    && Placed(bs, os, live)
    && p < |bs| && bs[p] == EMPTY
    && (forall r :: 0 <= r < |bs| && r != Next(|bs|, p) ==> OrderedAt(bs, r))
    && (bs[Next(|bs|, p)].word >= 3 * DIST_INC ==>
          bs[Prev(|bs|, p)].word + 2 * DIST_INC >= bs[Next(|bs|, p)].word)
  }

  /** Emptying a full bucket removes its entry and makes a hole. */
  lemma Dig(bs: seq<Bucket>, os: seq<Origin>, live: set<nat>, p: nat)
    requires Index(bs, os, live) && Full(bs, p)
    ensures Hole(bs[p := EMPTY], os, live - {bs[p].idx}, p)
  {
    var cs := bs[p := EMPTY];
    var n, q := |bs|, Next(|bs|, p);
    forall r | 0 <= r < n ensures BucketOk(cs, os, r) {
      assert BucketOk(bs, os, r);
    }
    assert forall r :: Full(cs, r) ==> Full(bs, r) && r != p;
    forall i | i in live - {bs[p].idx} ensures exists r :: Holds(cs, r, i) {
      var r :| Holds(bs, r, i);
      assert Holds(cs, r, i);
    }
    forall r | 0 <= r < n && r != q ensures OrderedAt(cs, r) {
      assert OrderedAt(bs, r);
    }
    assert OrderedAt(bs, q) && OrderedAt(bs, p);
  }

  /** The buckets after one backward shift. */
  ghost function Shifted(bs: seq<Bucket>, p: nat): (cs: seq<Bucket>)
    requires p < |bs| && bs[Next(|bs|, p)].word >= DIST_INC
    ensures |cs| == |bs|
  {
    var q := Next(|bs|, p);
    bs[p := Bucket(bs[q].word - DIST_INC, bs[q].idx)][q := EMPTY]
  }

  /** Storing the bucket after the hole one nearer to home, then blanking it, is one shift. */
  lemma ShiftStores(bs: seq<Bucket>, p: nat)
    requires p < |bs| && bs[Next(|bs|, p)].word >= DIST_INC && Next(|bs|, p) != p
    ensures var q := Next(|bs|, p);
            bs[p := Bucket(bs[q].word - DIST_INC, bs[q].idx)][q := EMPTY] == Shifted(bs[p := EMPTY], p)
  {
  }

  /** One backward shift moves the hole to the next bucket. */
  lemma ShiftBack(bs: seq<Bucket>, os: seq<Origin>, live: set<nat>, p: nat)
    requires Hole(bs, os, live, p) && bs[Next(|bs|, p)].word >= 2 * DIST_INC
    ensures Hole(Shifted(bs, p), os, live, Next(|bs|, p)) && Total(Shifted(bs, p)) < Total(bs)
  {
    var q := Next(|bs|, p);
    ShiftTotal(bs, p);
    ShiftPlaced(bs, os, live, p);
    ShiftOrdered(bs, os, live, p);
    assert Shifted(bs, p)[q] == EMPTY;
    hide Placed, OrderedAt, Total, Shifted;
  }

  /** The word of the bucket moved is one distance smaller. */
  lemma ShiftTotal(bs: seq<Bucket>, p: nat)
    requires p < |bs| && bs[p] == EMPTY && bs[Next(|bs|, p)].word >= DIST_INC && Next(|bs|, p) != p
    ensures Total(Shifted(bs, p)) < Total(bs)
  {
    var q := Next(|bs|, p);
    var moved := Bucket(bs[q].word - DIST_INC, bs[q].idx);
    TotalUpdate(bs, p, moved);
    TotalUpdate(bs[p := moved], q, EMPTY);
  }

  lemma ShiftPlaced(bs: seq<Bucket>, os: seq<Origin>, live: set<nat>, p: nat)
    requires Hole(bs, os, live, p) && bs[Next(|bs|, p)].word >= 2 * DIST_INC
    ensures Placed(Shifted(bs, p), os, live)
  {
    var q, cs := Next(|bs|, p), Shifted(bs, p);
    assert forall r :: Full(cs, r) && r != p ==> Full(bs, r) && r != q && cs[r] == bs[r];
    assert Full(bs, q) && cs[p].idx == bs[q].idx;
    ShiftKept(bs, os, live, p);
    ShiftStored(bs, os, live, p);
    hide BucketOk, OrderedAt, Next;
  }

  /** Every bucket still says how far its entry is from home. */
  lemma ShiftKept(bs: seq<Bucket>, os: seq<Origin>, live: set<nat>, p: nat)
    requires Hole(bs, os, live, p) && bs[Next(|bs|, p)].word >= 2 * DIST_INC
    ensures forall r :: 0 <= r < |bs| ==> BucketOk(Shifted(bs, p), os, r)
  {
    var cs := Shifted(bs, p);
    hide Full, Holds, OrderedAt;
    assert BucketOk(bs, os, Next(|bs|, p));
    forall r | 0 <= r < |bs| ensures BucketOk(cs, os, r) {
      assert BucketOk(bs, os, r);
    }
  }

  /** Every entry still has a bucket. */
  lemma ShiftStored(bs: seq<Bucket>, os: seq<Origin>, live: set<nat>, p: nat)
    requires Hole(bs, os, live, p) && bs[Next(|bs|, p)].word >= 2 * DIST_INC
    ensures forall i :: i in live ==> exists r :: Holds(Shifted(bs, p), r, i)
  {
    var q, cs := Next(|bs|, p), Shifted(bs, p);
    hide BucketOk, OrderedAt;
    forall i | i in live ensures exists r :: Holds(cs, r, i) {
      var r :| Holds(bs, r, i);
      assert Holds(cs, if r == q then p else r, i);
    }
  }

  lemma ShiftOrdered(bs: seq<Bucket>, os: seq<Origin>, live: set<nat>, p: nat)
    requires Hole(bs, os, live, p) && bs[Next(|bs|, p)].word >= 2 * DIST_INC
    ensures var q, cs := Next(|bs|, p), Shifted(bs, p);
            && (forall r :: 0 <= r < |bs| && r != Next(|bs|, q) ==> OrderedAt(cs, r))
            && (cs[Next(|bs|, q)].word >= 3 * DIST_INC ==>
                  cs[Prev(|bs|, q)].word + 2 * DIST_INC >= cs[Next(|bs|, q)].word)
  {
    var n, q, cs := |bs|, Next(|bs|, p), Shifted(bs, p);
    forall r | 0 <= r < n && r != Next(n, q) ensures OrderedAt(cs, r) {
      if r != q { assert OrderedAt(bs, r); }
    }
    assert OrderedAt(bs, Next(n, q));
  }

  /** A hole before a bucket that is at home, or empty, is no hole at all. */
  lemma Settle(bs: seq<Bucket>, os: seq<Origin>, live: set<nat>, p: nat)
    requires Hole(bs, os, live, p) && bs[Next(|bs|, p)].word < 2 * DIST_INC
    ensures Index(bs, os, live)
  {
  }

  ghost function Repointed(bs: seq<Bucket>, x: nat, i: nat): seq<Bucket>
    requires x < |bs|
  {
    bs[x := Bucket(bs[x].word, i)]
  }

  /** Repointing the bucket of the last entry to the index it has been moved to. */
  lemma Repoint(bs: seq<Bucket>, os: seq<Origin>, live: set<nat>, x: nat, i: nat, ps: seq<Origin>)
    requires Index(bs, os, live) && |os| > 0 && Holds(bs, x, |os| - 1)
    requires i < |os| - 1 && i !in live
    requires |ps| == |os| - 1 && ps == os[..|os| - 1][i := os[|os| - 1]]
    ensures Index(bs[x := Bucket(bs[x].word, i)], ps, live - {|os| - 1} + {i})
  {
    var cs := Repointed(bs, x, i);
    assert Placed(bs, os, live) && Ordered(bs);
    RepointKept(bs, os, live, x, i, ps);
    RepointStored(bs, os, live, x, i, live - {|os| - 1} + {i});
    assert forall r :: Full(cs, r) ==> Full(bs, r);
    assert forall r :: Full(bs, r) && r != x ==> bs[r].idx != |os| - 1;
    assert forall r :: Full(bs, r) ==> bs[r].idx in live;
    hide BucketOk;
    forall r | 0 <= r < |bs| ensures OrderedAt(cs, r) {
      assert OrderedAt(bs, r);
    }
    hide OrderedAt;
  }

  /** The repointed bucket belongs to the entry at its new index, and the others are as before. */
  lemma RepointKept(bs: seq<Bucket>, os: seq<Origin>, live: set<nat>, x: nat, i: nat, ps: seq<Origin>)
    requires Placed(bs, os, live) && |os| > 0 && Holds(bs, x, |os| - 1)
    requires i < |os| - 1 && ps == os[..|os| - 1][i := os[|os| - 1]] && i !in live
    ensures OriginsOk(ps, |bs|)
    ensures forall r :: 0 <= r < |bs| ==> BucketOk(Repointed(bs, x, i), ps, r)
  {
    assert forall r :: Full(bs, r) && r != x ==> bs[r].idx != |os| - 1 && bs[r].idx in live;
    forall r | 0 <= r < |bs| ensures BucketOk(Repointed(bs, x, i), ps, r) {
      assert BucketOk(bs, os, r);
    }
  }

  lemma RepointStored(bs: seq<Bucket>, os: seq<Origin>, live: set<nat>, x: nat, i: nat, now: set<nat>)
    requires Placed(bs, os, live) && |os| > 0 && Holds(bs, x, |os| - 1) && i < |os| - 1
    requires now == live - {|os| - 1} + {i}
    ensures forall k :: k in now ==> exists r :: Holds(Repointed(bs, x, i), r, k)
  {
    var cs := Repointed(bs, x, i);
    hide BucketOk;
    forall k | k in now ensures exists r :: Holds(cs, r, k) {
      if k == i {
        assert Holds(cs, x, k);
      } else {
        var r :| Holds(bs, r, k);
        assert Holds(cs, r, k);
      }
    }
  }

  /** Buckets that are all empty index nothing. */
  lemma EmptyIndex(bs: seq<Bucket>, os: seq<Origin>)
    requires |bs| >= 4 && OriginsOk(os, |bs|)
    requires forall p :: 0 <= p < |bs| ==> bs[p] == EMPTY
    ensures Index(bs, os, {})
  {
  }

  /** The index only depends on the origins of the entries it stores. */
  lemma Reorigin(bs: seq<Bucket>, os: seq<Origin>, live: set<nat>, ps: seq<Origin>)
    requires Index(bs, os, live) && OriginsOk(ps, |bs|)
    requires forall i :: i in live ==> i < |os| && i < |ps| && ps[i] == os[i]
    ensures Index(bs, ps, live)
  {
    forall r | 0 <= r < |bs| ensures BucketOk(bs, ps, r) {
      assert BucketOk(bs, os, r);
      assert Full(bs, r) ==> bs[r].idx in live;
    }
  }
}
