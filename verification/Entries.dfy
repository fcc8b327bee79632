/**
 The dense entry vector of the table as a plain sequence: what the table means as a map, and
 what removal, range removal and de-duplication do to it.
 */
module Entries {

  datatype Entry<K, V> = Entry(key: K, value: V)

  ghost predicate UniqueKeys<K, V>(es: seq<Entry<K, V>>) {
    forall i, j :: 0 <= i < j < |es| ==> es[i].key != es[j].key
  }

  /** Linear scan: the first index with the key, or the length if there is none. */
  function IndexOf<K(==), V>(es: seq<Entry<K, V>>, key: K): (r: nat)
    ensures r <= |es|
    ensures r < |es| ==> es[r].key == key
    ensures forall i :: 0 <= i < r ==> es[i].key != key
  {
    if es == [] || es[0].key == key then 0 else 1 + IndexOf(es[1..], key)
  }

  /** The map that a vector with unique keys stands for. */
  ghost function Contents<K, V>(es: seq<Entry<K, V>>): map<K, V>
    requires UniqueKeys(es)
  {
    map e | e in es :: e.key := e.value
  }

  lemma ContentsAt<K, V>(es: seq<Entry<K, V>>)
    requires UniqueKeys(es)
    ensures forall i :: 0 <= i < |es| ==> es[i].key in Contents(es) && Contents(es)[es[i].key] == es[i].value
    ensures forall k :: k in Contents(es) ==> exists i :: 0 <= i < |es| && es[i].key == k
  {
  }

  /** Removal of one entry: the last entry moves into its place. */
  function SwapRemove<T>(es: seq<T>, i: nat): seq<T>
    requires i < |es|
  {
    if i == |es| - 1 then es[..i] else es[..|es| - 1][i := es[|es| - 1]]
  }

  lemma ContentsAppend<K, V>(es: seq<Entry<K, V>>, e: Entry<K, V>)
    requires UniqueKeys(es) && forall i :: 0 <= i < |es| ==> es[i].key != e.key
    ensures UniqueKeys(es + [e])
    ensures Contents(es + [e]) == Contents(es)[e.key := e.value]
    ensures e.key !in Contents(es)
  {
  }

  /** Keeping exactly the entries whose keys are not in `gone`. */
  lemma ContentsFilter<K, V>(es: seq<Entry<K, V>>, part: seq<Entry<K, V>>, gone: set<K>)
    requires UniqueKeys(es) && UniqueKeys(part)
    requires forall e :: e in part <==> e in es && e.key !in gone
    ensures Contents(part) == Contents(es) - gone
  {
  }

  lemma SwapRemoveAt<T>(es: seq<T>, i: nat)
    requires i < |es|
    ensures |SwapRemove(es, i)| == |es| - 1
    ensures forall j :: 0 <= j < |es| - 1 ==> SwapRemove(es, i)[j] == if j == i then es[|es| - 1] else es[j]
  {
  }

  lemma ContentsRemove<K, V>(es: seq<Entry<K, V>>, i: nat)
    requires UniqueKeys(es) && i < |es|
    ensures UniqueKeys(SwapRemove(es, i))
    ensures Contents(SwapRemove(es, i)) == Contents(es) - {es[i].key}
  {
    var fs := SwapRemove(es, i);
    SwapRemoveAt(es, i);
    forall e | e in es && e.key != es[i].key ensures e in fs {
      var j :| 0 <= j < |es| && es[j] == e;
      assert fs[if j == |es| - 1 then i else j] == e;
    }
    ContentsFilter(es, fs, {es[i].key});
  }

  lemma ContentsSetKeys<K, V>(es: seq<Entry<K, V>>, fs: seq<Entry<K, V>>, k: K)
    requires UniqueKeys(es) && UniqueKeys(fs) && |fs| == |es|
    requires forall j :: 0 <= j < |es| ==> es[j].key == fs[j].key
    ensures k in Contents(fs) <==> k in Contents(es)
  {
    InContents(es, k);
    InContents(fs, k);
    hide *;
    if j :| 0 <= j < |es| && es[j].key == k { assert fs[j].key == k; }
    if j :| 0 <= j < |fs| && fs[j].key == k { assert es[j].key == k; }
  }

  lemma ContentsSet<K, V>(es: seq<Entry<K, V>>, i: nat, value: V)
    requires UniqueKeys(es) && i < |es|
    ensures UniqueKeys(es[i := Entry(es[i].key, value)])
    ensures Contents(es[i := Entry(es[i].key, value)]) == Contents(es)[es[i].key := value]
  {
    hide *;
    var fs := es[i := Entry(es[i].key, value)];
    SameKeysUnique(es, fs);
    var m, n := Contents(es)[es[i].key := value], Contents(fs);
    ContentsOne(es, i);
    forall k ensures k in n <==> k in m {
      ContentsSetKeys(es, fs, k);
    }
    forall k | k in m ensures k in n && n[k] == m[k] {
      ContentsSetValue(es, i, value, k);
    }
    SameMap(m, n);
  }

  lemma SameMap<K, V>(m: map<K, V>, n: map<K, V>)
    requires (forall k :: k in n <==> k in m) && forall k :: k in m ==> n[k] == m[k]
    ensures m == n
  {
  }

  lemma ContentsSetValue<K, V>(es: seq<Entry<K, V>>, i: nat, value: V, k: K)
    requires UniqueKeys(es) && i < |es| && UniqueKeys(es[i := Entry(es[i].key, value)])
    requires k in Contents(es)
    ensures var fs := es[i := Entry(es[i].key, value)];
            k in Contents(fs) && Contents(fs)[k] == if k == es[i].key then value else Contents(es)[k]
  {
    var fs := es[i := Entry(es[i].key, value)];
    InContents(es, k);
    hide *;
    var j :| 0 <= j < |es| && es[j].key == k;
    ContentsOne(es, j);
    ContentsOne(es, i);
    ContentsOne(fs, j);
    ContentsOne(fs, i);
  }

  lemma SameKeysUnique<K, V>(es: seq<Entry<K, V>>, fs: seq<Entry<K, V>>)
    requires UniqueKeys(es) && |fs| == |es| && forall j :: 0 <= j < |es| ==> fs[j].key == es[j].key
    ensures UniqueKeys(fs)
  {
  }

  lemma InContents<K, V>(es: seq<Entry<K, V>>, k: K)
    requires UniqueKeys(es)
    ensures k in Contents(es) <==> exists j :: 0 <= j < |es| && es[j].key == k
  {
    ContentsAt(es);
  }

  lemma ContentsOne<K, V>(es: seq<Entry<K, V>>, j: nat)
    requires UniqueKeys(es) && j < |es|
    ensures es[j].key in Contents(es) && Contents(es)[es[j].key] == es[j].value
  {
  }

  lemma ContentsSize<K, V>(es: seq<Entry<K, V>>)
    requires UniqueKeys(es)
    ensures |Contents(es)| == |es|
  {
    if es == [] {
      assert Contents(es) == map[];
    } else {
      var fs := es[..|es| - 1];
      assert es == fs + [es[|es| - 1]];
      ContentsSize(fs);
      ContentsAppend(fs, es[|es| - 1]);
    }
  }

  /** The linear scan and the map agree. */
  lemma IndexOfContents<K, V>(es: seq<Entry<K, V>>, key: K)
    requires UniqueKeys(es)
    ensures IndexOf(es, key) < |es| <==> key in Contents(es)
    ensures IndexOf(es, key) < |es| ==> Contents(es)[key] == es[IndexOf(es, key)].value
  {
    ContentsAt(es);
  }

  /** Removing the entry the scan finds, if any, removes the key from the map. */
  lemma IndexOfRemove<K, V>(es: seq<Entry<K, V>>, key: K)
    requires UniqueKeys(es)
    ensures var i := IndexOf(es, key);
            var fs := if i < |es| then SwapRemove(es, i) else es;
            UniqueKeys(fs) && Contents(fs) == Contents(es) - {key}
    ensures key in Contents(es) <==> IndexOf(es, key) < |es|
  {
    IndexOfContents(es, key);
    if IndexOf(es, key) < |es| { ContentsRemove(es, IndexOf(es, key)); }
  }

  ghost predicate Agrees<K, V>(es: seq<Entry<K, V>>, e: Entry<K, V>)
    requires UniqueKeys(es)
  {
    e.key in Contents(es) && Contents(es)[e.key] == e.value
  }

  /** As many entries, each of which agrees, make the same map. */
  lemma AllAgree<K, V>(es: seq<Entry<K, V>>, fs: seq<Entry<K, V>>)
    requires UniqueKeys(es) && UniqueKeys(fs) && |es| == |fs|
    requires forall i :: 0 <= i < |fs| ==> Agrees(es, fs[i])
    ensures Contents(es) == Contents(fs)
  {
    ContentsAt(fs);
    ContentsSize(es);
    ContentsSize(fs);
    assert Contents(fs).Keys <= Contents(es).Keys;
    SameSizeSubset(Contents(fs).Keys, Contents(es).Keys);
    assert |Contents(es).Keys| == |Contents(es)| && |Contents(fs).Keys| == |Contents(fs)|;
  }

  lemma SameSizeSubset<T>(a: set<T>, b: set<T>)
    requires a <= b
    ensures |a| == |b| ==> a == b
  {
    if a != {} {
      var x :| x in a;
      SameSizeSubset(a - {x}, b - {x});
    }
  }

  // ------------------------------------------------------------ range removal

  function Reverse<T>(s: seq<T>): (r: seq<T>)
    ensures |r| == |s|
  {
    if s == [] then [] else Reverse(s[1..]) + [s[0]]
  }

  lemma {:induction false} ReverseAt<T>(s: seq<T>, k: nat)
    requires k < |s|
    ensures Reverse(s)[k] == s[|s| - 1 - k]
  {
    if k < |s| - 1 { ReverseAt(s[1..], k); }
  }

  /**
   What is left after removing the entries [first, last): the entries before, as many entries
   of the back as fit into the gap, back to front, and the entries after the gap that need
   not move.
   */
  function WithoutRange<T>(es: seq<T>, first: nat, last: nat): seq<T>
    requires first <= last <= |es|
  {
    var moved := Moved(|es|, first, last);
    es[..first] + Reverse(es[|es| - moved..]) + es[last..|es| - moved]
  }

  /** The number of entries that move: the smaller of the range and the rest behind it. */
  function Moved(n: nat, first: nat, last: nat): (m: nat)
    requires first <= last <= n
    ensures last + m <= n && first + m <= last
  {
    if last - first <= n - last then last - first else n - last
  }

  lemma {:induction false} ReverseMultiset<T>(s: seq<T>)
    ensures multiset(Reverse(s)) == multiset(s)
  {
    if s != [] {
      ReverseMultiset(s[1..]);
      assert s == [s[0]] + s[1..];
    }
  }

  /** Range removal half way: `k` entries moved from the back into the gap, `hi` entries left. */
  function HalfRemoved<T>(es: seq<T>, first: nat, k: nat, hi: nat): seq<T>
    requires first + k <= hi <= |es| && k <= |es|
  {
    es[..first] + Reverse(es[|es| - k..]) + es[first + k..hi]
  }

  /** How range removal begins and ends. */
  lemma HalfRemovedEnds<T>(es: seq<T>, first: nat, last: nat)
    requires first <= last <= |es|
    ensures HalfRemoved(es, first, 0, |es|) == es
    ensures var k := Moved(|es|, first, last);
            if first + k == last then HalfRemoved(es, first, k, |es| - k) == WithoutRange(es, first, last)
            else |es| - k == last && HalfRemoved(es, first, k, first + k) == WithoutRange(es, first, last)
  {
  }

  lemma HalfRemovedMove<T>(es: seq<T>, first: nat, k: nat)
    requires first + k < |es| - k - 1
    ensures |HalfRemoved(es, first, k, |es| - k)| == |es| - k
    ensures SwapRemove(HalfRemoved(es, first, k, |es| - k), first + k) == HalfRemoved(es, first, k + 1, |es| - k - 1)
  {
    var n := |es|;
    var before, after := HalfRemoved(es, first, k, n - k), HalfRemoved(es, first, k + 1, n - k - 1);
    SwapRemoveAt(before, first + k);
    hide SwapRemove, HalfRemoved;
    HalfRemovedSize(es, first, k, n - k);
    HalfRemovedSize(es, first, k + 1, n - k - 1);
    forall p | 0 <= p < n - k - 1
      ensures after[p] == before[if p == first + k then n - k - 1 else p]
    {
      HalfRemovedStep(es, first, k, p);
    }
  }

  lemma HalfRemovedStep<T>(es: seq<T>, first: nat, k: nat, p: nat)
    requires first + k < |es| - k - 1 && p < |es| - k - 1
    ensures var n := |es|;
            var before, after := HalfRemoved(es, first, k, n - k), HalfRemoved(es, first, k + 1, n - k - 1);
            |before| == n - k && |after| == n - k - 1
            && after[p] == before[if p == first + k then n - k - 1 else p]
  {
    hide HalfRemoved;
    HalfRemovedSize(es, first, k, |es| - k);
    HalfRemovedSize(es, first, k + 1, |es| - k - 1);
    HalfRemovedAt(es, first, k, |es| - k, if p == first + k then |es| - k - 1 else p);
    HalfRemovedAt(es, first, k + 1, |es| - k - 1, p);
  }

  lemma HalfRemovedSize<T>(es: seq<T>, first: nat, k: nat, hi: nat)
    requires first + k <= hi <= |es| && k <= |es|
    ensures |HalfRemoved(es, first, k, hi)| == hi
  {
  }

  /** Before the range and after the gap nothing moved; the gap holds the back in reverse. */
  lemma HalfRemovedAt<T>(es: seq<T>, first: nat, k: nat, hi: nat, p: nat)
    requires first + k <= hi <= |es| && k <= |es| && p < hi
    ensures p < |HalfRemoved(es, first, k, hi)|
    ensures HalfRemoved(es, first, k, hi)[p] == es[if first <= p < first + k then |es| - 1 - (p - first) else p]
  {
    if first <= p < first + k {
      ReverseAt(es[|es| - k..], p - first);
    }
  }

  lemma HalfRemovedPop<T>(es: seq<T>, first: nat, k: nat, hi: nat)
    requires first + k < hi <= |es| && k <= |es|
    ensures |HalfRemoved(es, first, k, hi)| == hi
    ensures SwapRemove(HalfRemoved(es, first, k, hi), hi - 1) == HalfRemoved(es, first, k, hi - 1)
  {
  }

  /** Range removal loses exactly the range and leaves the entries before it alone. */
  lemma WithoutRangeExact<T>(es: seq<T>, first: nat, last: nat)
    requires first <= last <= |es|
    ensures multiset(WithoutRange(es, first, last)) + multiset(es[first..last]) == multiset(es)
    ensures |WithoutRange(es, first, last)| == |es| - (last - first)
    ensures WithoutRange(es, first, last)[..first] == es[..first]
  {
    assert |WithoutRange(es, first, last)| == |es| - (last - first);
    assert WithoutRange(es, first, last)[..first] == es[..first];
    WithoutRangeMultiset(es, first, last);
  }

  lemma WithoutRangeMultiset<T>(es: seq<T>, first: nat, last: nat)
    requires first <= last <= |es|
    ensures multiset(WithoutRange(es, first, last)) + multiset(es[first..last]) == multiset(es)
  {
    var moved := Moved(|es|, first, last);
    var a, b, c, d := es[..first], es[first..last], es[last..|es| - moved], es[|es| - moved..];
    assert WithoutRange(es, first, last) == a + Reverse(d) + c;
    hide *;
    ReverseMultiset(d);
    PartsMultiset(a, b, c, d, Reverse(d));
    Quarters(es, first, last, |es| - moved);
    assert es == a + b + (c + d);
  }

  lemma Quarters<T>(es: seq<T>, i: nat, j: nat, k: nat)
    requires i <= j <= k <= |es|
    ensures es == es[..i] + es[i..j] + (es[j..k] + es[k..])
  {
  }

  lemma PartsMultiset<T>(a: seq<T>, b: seq<T>, c: seq<T>, d: seq<T>, r: seq<T>)
    requires multiset(r) == multiset(d)
    ensures multiset(a + r + c) + multiset(b) == multiset(a + b + (c + d))
  {
  }

  /** As a map, range removal drops exactly the keys of the range. */
  lemma WithoutRangeContents<K, V>(es: seq<Entry<K, V>>, first: nat, last: nat)
    requires first <= last <= |es| && UniqueKeys(es)
    ensures UniqueKeys(WithoutRange(es, first, last))
    ensures Contents(WithoutRange(es, first, last)) == Contents(es) - Keys(es[first..last])
  {
    var part, gone := WithoutRange(es, first, last), es[first..last];
    WithoutRangeExact(es, first, last);
    UniqueCount(es);
    PartUnique(es, part);
    forall e ensures e in part <==> e in es && e.key !in Keys(gone) {
      assert (e in part <==> e in multiset(part)) && (e in es <==> e in multiset(es));
      assert multiset(part)[e] + multiset(gone)[e] == multiset(es)[e] <= 1;
      if e in es && e.key in Keys(gone) {
        var f :| f in gone && f.key == e.key;
        assert f in multiset(es);
      }
    }
    ContentsFilter(es, part, Keys(gone));
  }

  /** Any part of a vector with unique keys has unique keys. */
  lemma PartUnique<K, V>(es: seq<Entry<K, V>>, part: seq<Entry<K, V>>)
    requires UniqueKeys(es) && multiset(part) <= multiset(es)
    ensures UniqueKeys(part)
  {
    UniqueCount(es);
    forall i, j | 0 <= i < j < |part| ensures part[i].key != part[j].key {
      TwiceInPart(part, i, j);
      assert part[i] in multiset(es) && part[j] in multiset(es);
    }
  }

  lemma UniqueCount<K, V>(es: seq<Entry<K, V>>)
    requires UniqueKeys(es)
    ensures forall e :: multiset(es)[e] <= 1
    ensures forall e, f :: e in multiset(es) && f in multiset(es) && e.key == f.key ==> e == f
  {
    if es != [] {
      var fs := es[..|es| - 1];
      UniqueCount(fs);
      assert es == fs + [es[|es| - 1]];
      assert es[|es| - 1] !in fs;
    }
  }

  lemma TwiceInPart<T>(s: seq<T>, i: nat, j: nat)
    requires i < j < |s|
    ensures s[i] == s[j] ==> multiset(s)[s[i]] >= 2
    ensures s[i] in multiset(s) && s[j] in multiset(s)
  {
    assert s == s[..j] + [s[j]] + s[j + 1..];
    assert s[i] == s[..j][i];
    assert s[i] in multiset(s[..j]);
  }

  // ---------------------------------------------------------- de-duplication

  /**
   Left-to-right de-duplication: an entry whose key occurs before it is replaced by the back
   entry, which is examined next in its place.
   */
  function Dedup<K(==), V>(es: seq<Entry<K, V>>, i: nat): seq<Entry<K, V>>
    requires i <= |es|
    decreases |es| - i
  {
    if i == |es| then es
    else if IndexOf(es[..i], es[i].key) < i then Dedup(SwapRemove(es, i), i)
    else Dedup(es, i + 1)
  }

  ghost function Keys<K, V>(es: seq<Entry<K, V>>): set<K> {
    set e | e in es :: e.key
  }

  /** The map has the keys of the entries, each bound as in its entry. */
  lemma ContentsEntries<K, V>(es: seq<Entry<K, V>>)
    requires UniqueKeys(es)
    ensures Contents(es).Keys == Keys(es)
    ensures forall k :: k in Contents(es) ==> Entry(k, Contents(es)[k]) in es
  {
    ContentsAt(es);
    hide Contents, UniqueKeys;
    forall k | k in Contents(es) ensures Entry(k, Contents(es)[k]) in es && k in Keys(es) {
      var i :| 0 <= i < |es| && es[i].key == k;
      assert es[i] in es && Contents(es)[k] == es[i].value;
    }
  }

  /** De-duplication ends with unique keys, loses no key and invents no entry. */
  lemma {:induction false} DedupCorrect<K, V>(es: seq<Entry<K, V>>, i: nat)
    requires i <= |es| && UniqueKeys(es[..i])
    ensures UniqueKeys(Dedup(es, i))
    ensures Keys(Dedup(es, i)) == Keys(es)
    ensures multiset(Dedup(es, i)) <= multiset(es)
    ensures i <= |Dedup(es, i)| && Dedup(es, i)[..i] == es[..i]
    decreases |es| - i
  {
    hide IndexOf, SwapRemove, Keys, UniqueKeys;
    if i == |es| {
      assert es[..i] == es;
    } else if IndexOf(es[..i], es[i].key) < i {
      SwapRemoveMultiset(es, i);
      DedupKeys(es, i, IndexOf(es[..i], es[i].key));
      SwapRemovePrefix(es, i);
      DedupCorrect(SwapRemove(es, i), i);
    } else {
      UniqueMore(es, i);
      DedupCorrect(es, i + 1);
      PrefixOfPrefix(es, Dedup(es, i + 1), i);
    }
  }

  lemma PrefixOfPrefix<T>(s: seq<T>, t: seq<T>, i: nat)
    requires i < |s| && i < |t| && s[..i + 1] == t[..i + 1]
    ensures s[..i] == t[..i]
  {
    assert s[..i] == s[..i + 1][..i] && t[..i] == t[..i + 1][..i];
  }

  lemma SwapRemovePrefix<T>(es: seq<T>, i: nat)
    requires i < |es|
    ensures |SwapRemove(es, i)| == |es| - 1 && SwapRemove(es, i)[..i] == es[..i]
  {
  }

  lemma UniqueMore<K, V>(es: seq<Entry<K, V>>, i: nat)
    requires i < |es| && UniqueKeys(es[..i]) && IndexOf(es[..i], es[i].key) >= i
    ensures UniqueKeys(es[..i + 1])
  {
    assert forall j :: 0 <= j < i ==> es[..i][j] == es[j];
  }

  /** Removing an entry whose key occurs earlier loses no key. */
  lemma DedupKeys<K, V>(es: seq<Entry<K, V>>, i: nat, j: nat)
    requires j < i < |es| && es[j].key == es[i].key
    ensures Keys(SwapRemove(es, i)) == Keys(es)
  {
  }

  lemma SwapRemoveMultiset<T>(es: seq<T>, i: nat)
    requires i < |es|
    ensures multiset(SwapRemove(es, i)) + multiset{es[i]} == multiset(es)
  {
    var n := |es| - 1;
    assert es == es[..n] + [es[n]];
    if i < n {
      assert es[..n] == es[..i] + [es[i]] + es[i + 1..n];
      assert SwapRemove(es, i) == es[..i] + [es[n]] + es[i + 1..n];
    } else {
      assert es == es[..i] + [es[i]];
    }
  }

  /** A vector without duplicates is left as it is. */
  lemma {:induction false} DedupUnique<K, V>(es: seq<Entry<K, V>>, i: nat)
    requires i <= |es| && UniqueKeys(es)
    ensures Dedup(es, i) == es
    decreases |es| - i
  {
    if i < |es| {
      DedupUnique(es, i + 1);
    }
  }

  lemma UniqueLast<K, V>(es: seq<Entry<K, V>>)
    requires es != [] && UniqueKeys(es)
    ensures UniqueKeys(es[..|es| - 1]) && IndexOf(es[..|es| - 1], es[|es| - 1].key) == |es| - 1
  {
  }

  /** Where a prefix has no duplicates, de-duplication starts behind it. */
  lemma {:induction false} DedupSkips<K, V>(es: seq<Entry<K, V>>, i: nat)
    requires i <= |es| && UniqueKeys(es[..i])
    ensures Dedup(es, 0) == Dedup(es, i)
  {
    if i > 0 {
      var fs := es[..i];
      assert es[..i - 1] == fs[..i - 1] && es[i - 1] == fs[i - 1];
      UniqueLast(fs);
      hide UniqueKeys;
      DedupSkips(es, i - 1);
    }
  }

  /**
   De-duplication keeps the entries before the first one whose key occurs before it, and removes
   that one. With DedupUnique this says what the result is, duplicate by duplicate.
   */
  lemma DedupFirstDuplicate<K, V>(es: seq<Entry<K, V>>, j: nat, i: nat)
    requires j < i < |es| && UniqueKeys(es[..i]) && es[j].key == es[i].key
    ensures Dedup(es, 0) == Dedup(SwapRemove(es, i), 0)
    ensures i <= |Dedup(es, 0)| && Dedup(es, 0)[..i] == es[..i]
  {
    var fs := SwapRemove(es, i);
    assert es[..i][j] == es[j] && fs[..i] == es[..i];
    DedupSkips(es, i);
    DedupSkips(fs, i);
    DedupCorrect(fs, i);
    hide UniqueKeys, SwapRemove;
  }
}
