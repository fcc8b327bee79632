/** Fusing several enumerators into one 64-bit value, and when that loses nothing. */
module EnumFuse {
  import opened Options
  import opened Modular
  import opened Powers

  const WORD: nat := 0x1_0000_0000_0000_0000

  /** An enumerator: its type's number of enumerators, and its index unless it is not one of them. */
  datatype Field = Field(count: nat, index: Option<nat>)

  /** Types with at least one enumerator, and few enough for the width not to reach the word size. */
  predicate Counts(cs: seq<nat>) {
    forall i :: 0 <= i < |cs| ==> 1 <= cs[i] <= 0x8000_0000_0000_0000
  }

  predicate FieldsOk(fs: seq<Field>) {
    forall i :: 0 <= i < |fs| ==>
      1 <= fs[i].count <= 0x8000_0000_0000_0000 && (fs[i].index.Some? ==> fs[i].index.value < fs[i].count)
  }

  function Log2(value: nat): nat {
    if value <= 1 then 0 else 1 + Log2(value / 2)
  }

  /** The loop that counts how often a value can be halved. */
  method ComputeLog2(value: nat) returns (ret: nat)
    ensures ret == Log2(value)
  {
    ret := 0;
    var v := value;
    while v > 1
      invariant ret + Log2(v) == Log2(value)
    {
      v := v / 2;
      ret := ret + 1;
    }
  }

  /** The bits an index is given. */
  function Width(count: nat): nat
    requires count >= 1
  {
    Log2(2 * count - 1)
  }

  /** The bits the library's static assertion reckons with. */
  function AssertedWidth(count: nat): nat {
    Log2(count + 1)
  }

  function TotalWidth(cs: seq<nat>): nat
    requires Counts(cs)
  {
    if cs == [] then 0 else Width(cs[0]) + TotalWidth(cs[1..])
  }

  function AssertedTotal(cs: seq<nat>): nat {
    if cs == [] then 0 else AssertedWidth(cs[0]) + AssertedTotal(cs[1..])
  }

  /** Bitwise or. */
  function Or(a: nat, b: nat): nat {
    if a == 0 then b
    else if b == 0 then a
    else 2 * Or(a / 2, b / 2) + (if a % 2 == 1 || b % 2 == 1 then 1 else 0)
  }

  /** Shifts what is fused so far, dropping bits beyond the word, and puts the index below it. */
  function FuseOne(hash: Option<nat>, f: Field): Option<nat>
    requires f.count >= 1
  {
    if hash.Some? && f.index.Some? then Some(Or(Pow2(Width(f.count)) * hash.value % WORD, f.index.value)) else None
  }

  /** Fuses from the last enumerator to the first. */
  function Fuse(fs: seq<Field>): Option<nat>
    requires FieldsOk(fs) && fs != []
  {
    if |fs| == 1 then FuseOne(Some(0), fs[0]) else FuseOne(Fuse(fs[1..]), fs[0])
  }

  /** The number that all indices together stand for, were there no word size. */
  function Value(cs: seq<nat>, xs: seq<nat>): nat
    requires Counts(cs) && |xs| == |cs|
  {
    if cs == [] then 0 else Pow2(Width(cs[0])) * Value(cs[1..], xs[1..]) + xs[0]
  }

  predicate Indices(cs: seq<nat>, xs: seq<nat>) {
    |xs| == |cs| && forall i :: 0 <= i < |cs| ==> xs[i] < cs[i]
  }

  function Fields(cs: seq<nat>, xs: seq<nat>): (fs: seq<Field>)
    requires Counts(cs) && Indices(cs, xs)
    ensures |fs| == |cs| && FieldsOk(fs)
    ensures forall i :: 0 <= i < |cs| ==> fs[i] == Field(cs[i], Some(xs[i]))
  {
    seq(|cs|, i requires 0 <= i < |cs| => Field(cs[i], Some(xs[i])))
  }

  // ------------------------------------------------------------------ widths

  /** A width is the least number of bits that hold every index. */
  lemma WidthFits(count: nat)
    requires count >= 1
    ensures count <= Pow2(Width(count))
    ensures Width(count) > 0 ==> Pow2(Width(count) - 1) < count
  {
    Log2Bounds(2 * count - 1);
  }

  lemma {:induction false} Log2Bounds(value: nat)
    requires value >= 1
    ensures Pow2(Log2(value)) <= value < 2 * Pow2(Log2(value))
  {
    if value > 1 { Log2Bounds(value / 2); }
  }

  lemma WidthBelowWord(count: nat)
    requires 1 <= count <= 0x8000_0000_0000_0000
    ensures Width(count) < 64
  {
    Log2Bounds(2 * count - 1);
    if Width(count) >= 64 {
      Pow2Monotone(64, Width(count));
      Pow2Values();
      assert false;
    }
  }

  // ----------------------------------------------------------- the fused value

  /** Or with a number that fits below the shift is addition. */
  lemma {:induction false} OrIsPlus(a: nat, w: nat, b: nat)
    requires b < Pow2(w)
    ensures Or(Pow2(w) * a, b) == Pow2(w) * a + b
    decreases w
  {
    if w > 0 && a > 0 && b > 0 {
      var h := Pow2(w - 1) * a;
      Associate(2, Pow2(w - 1), a);
      assert Pow2(w) * a == 2 * h;
      OrIsPlus(a, w - 1, b / 2);
      MulAtLeast(Pow2(w - 1), a);
    }
  }

  lemma WordSplits(w: nat)
    requires w <= 64
    ensures Pow2(w) * Pow2(64 - w) == WORD
  {
    Pow2Add(w, 64 - w);
    Pow2Values();
  }

  /** Fusing one index: what was cut before is cut again, and the index fits below. */
  lemma FuseStep(v: nat, w: nat, x: nat)
    requires x < Pow2(w) && w < 64
    ensures Or(Pow2(w) * (v % WORD) % WORD, x) == (Pow2(w) * v + x) % WORD
  {
    hide *;
    WordSplits(w);
    ShiftMod(v, Pow2(w), Pow2(64 - w));
    OrIsPlus(v % Pow2(64 - w), w, x);
    ShiftedSum(Pow2(w) * v, Pow2(w), Pow2(64 - w), v % Pow2(64 - w), x);
  }

  /** A shift by the bits of `p` keeps the bits below `q`, whether or not the rest was cut before. */
  lemma ShiftMod(v: nat, p: nat, q: nat)
    requires p > 0 && q > 0 && p * q == WORD
    ensures p * v % WORD == p * (v % WORD) % WORD == p * (v % q)
  {
    hide *;
    ScaleMod(v, p, q);
    ScaleMod(v % WORD, p, q);
    NestedMod(v, p, q);
  }

  /** Reducing by the word first does not change the remainder by a divisor of it. */
  lemma NestedMod(v: nat, p: nat, q: nat)
    requires p > 0 && q > 0 && p * q == WORD
    ensures v % WORD % q == v % q
  {
    hide *;
    DivMod(v, WORD);
    DivMod(v % WORD, q);
    var d, r := v / WORD, v % WORD;
    Associate(q, p, d);
    Associate(p, q, 1);
    Distribute(q, p * d, r / q);
    ModUnique(v, q, p * d + r / q, r % q);
  }

  lemma ShiftedSum(y: nat, p: nat, q: nat, r: nat, x: nat)
    requires p > 0 && q > 0 && p * q == WORD && r < q && x < p
    requires y % WORD == p * r
    ensures (y + x) % WORD == p * r + x
  {
    hide *;
    MulMonotone(p, r + 1, q);
    Distribute(p, r, 1);
    DivMod(y, WORD);
    MulMonotone(p, 0, r);
    ModUnique(y + x, WORD, y / WORD, p * r + x);
  }

  lemma FuseUnfolds(cs: seq<nat>, xs: seq<nat>)
    requires Counts(cs) && Indices(cs, xs) && cs != []
    ensures Value(cs, xs) == Pow2(Width(cs[0])) * Value(cs[1..], xs[1..]) + xs[0]
    ensures |cs| == 1 ==> Value(cs[1..], xs[1..]) == 0
    ensures
      var inner := if |cs| == 1 then Some(0) else Fuse(Fields(cs[1..], xs[1..]));
      Fuse(Fields(cs, xs)) ==
        if inner.None? then None else Some(Or(Pow2(Width(cs[0])) * inner.value % WORD, xs[0]))
  {
    hide Width, Pow2, Or;
    if |cs| > 1 {
      assert Fields(cs, xs)[1..] == Fields(cs[1..], xs[1..]);
    }
  }

  /** What fusing computes: the value of the indices, cut to the word. */
  lemma {:induction false} FuseIsValue(cs: seq<nat>, xs: seq<nat>)
    requires Counts(cs) && Indices(cs, xs) && cs != []
    ensures Fuse(Fields(cs, xs)) == Some(Value(cs, xs) % WORD)
  {
    hide Width, Pow2, Value, Fuse, Fields, Or;
    WidthFits(cs[0]);
    WidthBelowWord(cs[0]);
    FuseStep(Value(cs[1..], xs[1..]), Width(cs[0]), xs[0]);
    FuseUnfolds(cs, xs);
    if |cs| > 1 { FuseIsValue(cs[1..], xs[1..]); }
    hide *;
  }

  // -------------------------------------------------------------- injectivity

  /** The value needs no more bits than the widths add up to, and determines the indices. */
  lemma {:induction false} ValueFits(cs: seq<nat>, xs: seq<nat>)
    requires Counts(cs) && Indices(cs, xs)
    ensures Value(cs, xs) < Pow2(TotalWidth(cs))
  {
    if cs != [] {
      ValueUnfolds(cs, xs);
      hide *;
      var w, t := Width(cs[0]), TotalWidth(cs[1..]);
      ValueFits(cs[1..], xs[1..]);
      Pow2Add(w, t);
      BelowProduct(Value(cs[1..], xs[1..]), Pow2(t), Pow2(w), xs[0]);
    } else {
      assert Pow2(0) == 1;
    }
  }

  lemma ValueUnfolds(cs: seq<nat>, xs: seq<nat>)
    requires Counts(cs) && Indices(cs, xs) && cs != []
    ensures Counts(cs[1..]) && Indices(cs[1..], xs[1..]) && xs[0] < Pow2(Width(cs[0]))
    ensures Value(cs, xs) == Pow2(Width(cs[0])) * Value(cs[1..], xs[1..]) + xs[0]
    ensures TotalWidth(cs) == Width(cs[0]) + TotalWidth(cs[1..])
  {
    hide Width, Pow2;
    WidthFits(cs[0]);
  }

  lemma BelowProduct(v: nat, b: nat, p: nat, x: nat)
    requires v < b && x < p
    ensures p * v + x < p * b
  {
    MulMonotone(p, v + 1, b);
    Distribute(p, v, 1);
  }

  lemma SameQuotient(p: nat, v: nat, x: nat, u: nat, y: nat)
    requires x < p && y < p && p * v + x == p * u + y
    ensures v == u && x == y
  {
    hide *;
    QuotientUnique(p, v, x, u, y);
  }

  lemma {:induction false} ValueInjective(cs: seq<nat>, xs: seq<nat>, ys: seq<nat>)
    requires Counts(cs) && Indices(cs, xs) && Indices(cs, ys)
    requires Value(cs, xs) == Value(cs, ys)
    ensures xs == ys
  {
    if cs != [] {
      WidthFits(cs[0]);
      var p, v, u := Pow2(Width(cs[0])), Value(cs[1..], xs[1..]), Value(cs[1..], ys[1..]);
      SameQuotient(p, v, xs[0], u, ys[0]);
      hide Width, Pow2, Value;
      ValueInjective(cs[1..], xs[1..], ys[1..]);
      assert xs == [xs[0]] + xs[1..] && ys == [ys[0]] + ys[1..];
    }
  }

  function Zeros(n: nat): (s: seq<nat>)
    ensures |s| == n && forall i :: 0 <= i < n ==> s[i] == 0
  {
    seq(n, _ => 0)
  }

  lemma {:induction false} ValueOfZeros(cs: seq<nat>)
    requires Counts(cs)
    ensures Value(cs, Zeros(|cs|)) == 0
  {
    if cs != [] {
      assert Zeros(|cs|)[1..] == Zeros(|cs[1..]|);
      ValueOfZeros(cs[1..]);
    }
  }

  lemma LostBit(cs: seq<nat>, k: nat) returns (xs: seq<nat>, ys: seq<nat>)
    requires Counts(cs) && cs != [] && Pow2(k) < cs[0]
    ensures Indices(cs, xs) && Indices(cs, ys) && xs != ys
    ensures Value(cs, xs) % Pow2(k) == Value(cs, ys) % Pow2(k)
  {
    var zeros := Zeros(|cs| - 1);
    ValueOfZeros(cs[1..]);
    xs, ys := [0] + zeros, [Pow2(k)] + zeros;
    assert xs[0] != ys[0];
    assert xs[1..] == zeros && ys[1..] == zeros;
    assert Value(cs, ys) == Pow2(k) && Value(cs, xs) == 0;
    hide *;
    ModUnique(Pow2(k), Pow2(k), 1, 0);
    ModUnique(0, Pow2(k), 0, 0);
  }

  /** With fewer bits than the widths add up to, two tuples of indices share a value. */
  lemma {:induction false} Collide(cs: seq<nat>, k: nat) returns (xs: seq<nat>, ys: seq<nat>)
    requires Counts(cs) && TotalWidth(cs) > k
    ensures Indices(cs, xs) && Indices(cs, ys) && xs != ys
    ensures Value(cs, xs) % Pow2(k) == Value(cs, ys) % Pow2(k)
  {
    var w := Width(cs[0]);
    WidthFits(cs[0]);
    if k < w {
      // the index bit at position k is lost
      Pow2Monotone(k, w - 1);
      xs, ys := LostBit(cs, k);
    } else {
      var us, vs := Collide(cs[1..], k - w);
      xs, ys := [0] + us, [0] + vs;
      assert xs[1..] == us && ys[1..] == vs;
      var x, y := Value(cs[1..], us), Value(cs[1..], vs);
      assert Value(cs, xs) == Pow2(w) * x && Value(cs, ys) == Pow2(w) * y;
      Pow2Add(w, k - w);
      hide Value, Width, Pow2;
      ScaleMod(x, Pow2(w), Pow2(k - w));
      ScaleMod(y, Pow2(w), Pow2(k - w));
    }
  }

  /** Fusing enumerators of given types is injective. */
  ghost predicate FuseInjective(cs: seq<nat>)
    requires Counts(cs) && cs != []
  {
    forall xs, ys :: Indices(cs, xs) && Indices(cs, ys) && Fuse(Fields(cs, xs)) == Fuse(Fields(cs, ys)) ==> xs == ys
  }

  /** Fusing is injective if and only if the widths fit the word together. */
  lemma FuseInjectiveIff(cs: seq<nat>)
    requires Counts(cs) && cs != []
    ensures FuseInjective(cs) <==> TotalWidth(cs) <= 64
  {
    hide Counts, Indices, Fuse, Fields, TotalWidth;
    if TotalWidth(cs) <= 64 {
      forall xs, ys | Indices(cs, xs) && Indices(cs, ys) && Fuse(Fields(cs, xs)) == Fuse(Fields(cs, ys))
        ensures xs == ys
      {
        FuseDetermines(cs, xs, ys);
      }
    } else {
      var xs, ys := FuseCollides(cs);
    }
  }

  lemma FuseDetermines(cs: seq<nat>, xs: seq<nat>, ys: seq<nat>)
    requires Counts(cs) && cs != [] && TotalWidth(cs) <= 64 && Indices(cs, xs) && Indices(cs, ys)
    requires Fuse(Fields(cs, xs)) == Fuse(Fields(cs, ys))
    ensures xs == ys
  {
    hide Pow2, Fuse, Fields, Value, TotalWidth, Counts;
    FuseIsValue(cs, xs);
    FuseIsValue(cs, ys);
    ValueFits(cs, xs);
    ValueFits(cs, ys);
    Pow2Monotone(TotalWidth(cs), 64);
    Pow2Is64();
    ModUnique(Value(cs, xs), WORD, 0, Value(cs, xs));
    ModUnique(Value(cs, ys), WORD, 0, Value(cs, ys));
    ValueInjective(cs, xs, ys);
  }

  lemma FuseCollides(cs: seq<nat>) returns (xs: seq<nat>, ys: seq<nat>)
    requires Counts(cs) && cs != [] && TotalWidth(cs) > 64
    ensures Indices(cs, xs) && Indices(cs, ys) && xs != ys && Fuse(Fields(cs, xs)) == Fuse(Fields(cs, ys))
  {
    hide Pow2, Fuse, Fields, Value, TotalWidth, Counts, Indices;
    xs, ys := Collide(cs, 64);
    Pow2Is64();
    FuseIsValue(cs, xs);
    FuseIsValue(cs, ys);
  }

  lemma Pow2Is64()
    ensures Pow2(64) == WORD
  {
    Pow2Values();
  }

  /** Each index is back in the value: behind the widths of those before it, in as many bits as its own. */
  lemma {:induction false} IndexInValue(cs: seq<nat>, xs: seq<nat>, i: nat)
    requires Counts(cs) && Indices(cs, xs) && i < |cs|
    ensures Value(cs, xs) / Pow2(TotalWidth(cs[..i])) % Pow2(Width(cs[i])) == xs[i]
  {
    ValueUnfolds(cs, xs);
    PrefixWidth(cs, i);
    assert |xs| == |cs| && cs[0] >= 1;
    hide *;
    var p, v := Pow2(Width(cs[0])), Value(cs[1..], xs[1..]);
    if i == 0 {
      ShiftedDown(p, v, xs[0], 1);
    } else {
      var t := TotalWidth(cs[1..][..i - 1]);
      IndexInValue(cs[1..], xs[1..], i - 1);
      Pow2Add(Width(cs[0]), t);
      ShiftedDown(p, v, xs[0], Pow2(t));
    }
  }

  lemma ShiftedDown(p: nat, v: nat, x: nat, b: nat)
    requires x < p && b > 0
    ensures (p * v + x) / 1 % p == x
    ensures p * b > 0 && (p * v + x) / (p * b) == v / b
  {
    hide *;
    ModUnique(p * v + x, p, v, x);
    DivTwice(p * v + x, p, b);
  }

  lemma PrefixWidth(cs: seq<nat>, i: nat)
    requires Counts(cs) && i < |cs|
    ensures Counts(cs[..i]) && (i == 0 ==> Pow2(TotalWidth(cs[..i])) == 1)
    ensures i > 0 ==>
      && Counts(cs[1..][..i - 1]) && cs[1..][i - 1] == cs[i]
      && TotalWidth(cs[..i]) == Width(cs[0]) + TotalWidth(cs[1..][..i - 1])
  {
    hide Width;
    if i > 0 { assert cs[..i][1..] == cs[1..][..i - 1]; }
  }

  lemma DivTwice(n: nat, a: nat, b: nat)
    requires a > 0 && b > 0
    ensures a * b > 0 && n / (a * b) == n / a / b
  {
    hide *;
    DivMod(n, a);
    DivMod(n / a, b);
    var q, r := n / a / b, n / a % b;
    Associate(a, b, q);
    Distribute(a, b * q, r);
    BelowProduct(r, b, a, n % a);
    MulMonotone(a, 1, b);
    ModUnique(n, a * b, q, a * r + n % a);
  }

  /** Where fusing loses nothing, every index can be read from the fused word. */
  lemma IndexInFused(cs: seq<nat>, xs: seq<nat>, i: nat)
    requires Counts(cs) && cs != [] && TotalWidth(cs) <= 64 && Indices(cs, xs) && i < |cs|
    ensures Fuse(Fields(cs, xs)).Some?
    ensures Fuse(Fields(cs, xs)).value / Pow2(TotalWidth(cs[..i])) % Pow2(Width(cs[i])) == xs[i]
  {
    FuseIsValue(cs, xs);
    ValueFits(cs, xs);
    IndexInValue(cs, xs, i);
    hide *;
    Pow2Monotone(TotalWidth(cs), 64);
    Pow2Is64();
    ModUnique(Value(cs, xs), WORD, 0, Value(cs, xs));
  }

  /** The width reckoned with is the integer logarithm of one more than the number of enumerators. */
  lemma AssertedWidthIs(count: nat)
    ensures Pow2(AssertedWidth(count)) <= count + 1 < 2 * Pow2(AssertedWidth(count))
  {
    Log2Bounds(count + 1);
  }

  /**
   The static assertion admits types for which fusing is not injective: it passes for 32 enums
   of five enumerators, whose indices need three bits each and are reckoned as two.
   */
  lemma AssertionTooWeak()
    ensures var cs := seq(32, _ => 5);
            Counts(cs) && AssertedTotal(cs) <= 64 && !FuseInjective(cs)
  {
    var cs := seq(32, _ => 5);
    SameCounts(cs, 5, 2, 3);
    FuseInjectiveIff(cs);
  }

  lemma {:induction false} SameCounts(cs: seq<nat>, c: nat, asserted: nat, width: nat)
    requires Counts(cs) && c >= 1 && forall i :: 0 <= i < |cs| ==> cs[i] == c
    requires AssertedWidth(c) == asserted && Width(c) == width
    ensures AssertedTotal(cs) == |cs| * asserted && TotalWidth(cs) == |cs| * width
  {
    hide Log2, Width, AssertedWidth;
    if cs != [] {
      SameCounts(cs[1..], c, asserted, width);
      Distribute(asserted, |cs| - 1, 1);
      Distribute(width, |cs| - 1, 1);
    }
  }

  /** An enumerator outside its type's list makes the whole fuse fail, and nothing else does. */
  lemma {:induction false} FuseFailsIff(fs: seq<Field>)
    requires FieldsOk(fs) && fs != []
    ensures Fuse(fs) == None <==> exists i :: 0 <= i < |fs| && fs[i].index == None
  {
    if |fs| > 1 {
      FuseFailsIff(fs[1..]);
      if i :| 0 <= i < |fs| && fs[i].index == None && i > 0 { assert fs[1..][i - 1].index == None; }
      if i :| 0 <= i < |fs[1..]| && fs[1..][i].index == None { assert fs[i + 1].index == None; }
    }
  }
}
