/** The portable 64 by 64 bit multiplication of wyhash, and the bytes its block reads touch. */
module Wyhash {
  import opened Modular

  const WORD: nat := 0x1_0000_0000_0000_0000
  const HALF: nat := 0x1_0000_0000

  // ----------------------------------------------------------- multiplication

  /** Two halves below 2^32 have a product that fits the word. */
  lemma HalfProduct(x: nat, y: nat)
    requires x < HALF && y < HALF
    ensures 0 <= x * y <= (HALF - 1) * (HALF - 1)
  {
    MulMonotone(x, y, HALF - 1);
    MulMonotone(HALF - 1, x, HALF - 1);
    Associate(x, HALF - 1, 1);
    MulMonotone(x, 0, y);
  }

  /** A product shifted up by half a word, cut to the word. */
  function ShiftUp(x: nat): nat {
    x * HALF % WORD
  }

  lemma ShiftUpSplits(x: nat)
    ensures x * HALF == (x / HALF) * WORD + ShiftUp(x) && ShiftUp(x) < WORD
  {
  }

  /**
   Multiplies by halves. No addition into the high word overflows, and the two words are the
   whole product.
   */
  method Mum(a: nat, b: nat) returns (lo: nat, hi: nat)
    requires a < WORD && b < WORD
    ensures lo < WORD && hi < WORD && hi * WORD + lo == a * b
  {
    var ha, hb := a / HALF, b / HALF;
    var la, lb := a % HALF, b % HALF;
    HalfProduct(ha, hb);
    HalfProduct(ha, lb);
    HalfProduct(hb, la);
    HalfProduct(la, lb);
    Halves(a, b);
    lo, hi := AddUp(ha * hb, ha * lb, hb * la, la * lb, a * b);
  }

  /** Adds up the four products, with one carry from each of the two additions into the low word. */
  method AddUp(rh: nat, rm0: nat, rm1: nat, rl: nat, ghost product: nat) returns (lo: nat, hi: nat)
    requires rl < WORD && product == rh * WORD + (rm0 + rm1) * HALF + rl && product < WORD * WORD
    ensures lo < WORD && hi < WORD && hi * WORD + lo == product
  {
    hide ShiftUp;
    var t := (rl + ShiftUp(rm0)) % WORD;
    var c := if t < rl then 1 else 0;
    lo := (t + ShiftUp(rm1)) % WORD;
    c := c + if lo < t then 1 else 0;
    Carries(rh, rm0, rm1, rl, product);
    hi := (rh + rm0 / HALF + rm1 / HALF + c) % WORD;
  }

  lemma Halves(a: nat, b: nat)
    requires a < WORD && b < WORD
    ensures var ha, hb, la, lb := a / HALF, b / HALF, a % HALF, b % HALF;
            a * b == ha * hb * WORD + (ha * lb + hb * la) * HALF + la * lb
    ensures a * b < WORD * WORD
  {
  }

  /** Adding up four products whose sum is `product`: two carries, and no overflow above. */
  lemma Carries(rh: nat, rm0: nat, rm1: nat, rl: nat, product: nat)
    requires rl < WORD && product == rh * WORD + (rm0 + rm1) * HALF + rl && product < WORD * WORD
    ensures var t := (rl + ShiftUp(rm0)) % WORD;
            var lo := (t + ShiftUp(rm1)) % WORD;
            var c := (if t < rl then 1 else 0) + (if lo < t then 1 else 0);
            var hi := rh + rm0 / HALF + rm1 / HALF + c;
            lo < WORD && hi < WORD && hi * WORD + lo == product
  {
    ShiftUpSplits(rm0);
    ShiftUpSplits(rm1);
    var s0, s1 := ShiftUp(rm0), ShiftUp(rm1);
    hide ShiftUp;
    OneCarry(rl, s0);
    OneCarry((rl + s0) % WORD, s1);
  }

  lemma OneCarry(x: nat, y: nat)
    requires x < WORD && y < WORD
    ensures var t := (x + y) % WORD; x + y == t + (if t < x then WORD else 0) && t < WORD
  {
  }

  // -------------------------------------------------------------- block reads

  /** A read of `size` bytes from offset `at` of the key. */
  datatype Read = Read(at: int, size: nat)

  predicate Inside(r: Read, len: nat) {
    0 <= r.at && r.at + r.size <= len
  }

  predicate Touches(r: Read, byte: int) {
    r.at <= byte < r.at + r.size
  }

  ghost predicate Touched(trace: seq<Read>, byte: int) {
    exists k :: 0 <= k < |trace| && Touches(trace[k], byte)
  }

  ghost predicate Covers(trace: seq<Read>, from: int, end: int) {
    forall byte :: from <= byte < end ==> Touched(trace, byte)
  }

  ghost predicate AllInside(trace: seq<Read>, len: nat) {
    forall k :: 0 <= k < |trace| ==> Inside(trace[k], len)
  }

  lemma CoversMore(trace: seq<Read>, more: seq<Read>, upto: nat, from: int, end: nat)
    requires Covers(trace, 0, upto) && Covers(more, from, end) && from <= upto
    ensures Covers(trace + more, 0, end)
  {
    var all := trace + more;
    forall byte | 0 <= byte < end ensures Touched(all, byte) {
      if byte < upto {
        assert Touched(trace, byte);
        var k :| 0 <= k < |trace| && Touches(trace[k], byte);
        assert Touches(all[k], byte);
      } else {
        assert Touched(more, byte);
        var k :| 0 <= k < |more| && Touches(more[k], byte);
        assert Touches(all[|trace| + k], byte);
      }
    }
  }

  /** `n` consecutive reads of eight bytes. */
  function Words(p: nat, n: nat): (trace: seq<Read>)
    ensures |trace| == n && forall k :: 0 <= k < n ==> trace[k] == Read(p + 8 * k, 8)
  {
    seq(n, k requires 0 <= k < n => Read(p + 8 * k, 8))
  }

  lemma WordsTouch(p: nat, n: nat)
    ensures Covers(Words(p, n), p, p + 8 * n)
  {
    forall byte | p <= byte < p + 8 * n ensures Touched(Words(p, n), byte) {
      assert Touches(Words(p, n)[(byte - p) / 8], byte);
    }
  }

  /** The reads of the hash function for a key of the given length, in order. */
  method HashReads(len: nat) returns (trace: seq<Read>)
    ensures AllInside(trace, len) && Covers(trace, 0, len)
    ensures len == 0 ==> trace == []
    ensures 1 <= len <= 3 ==> |trace| == 3 && forall k :: 0 <= k < 3 ==> trace[k].size == 1
    ensures 4 <= len <= 16 ==> |trace| == 4 && forall k :: 0 <= k < 4 ==> trace[k].size == 4
    ensures len > 16 ==> trace == Words(0, 2 * ((len - 1) / 16)) + Words(len - 16, 2)
  {
    if len <= 16 {
      if len >= 4 {
        var mid := len / 8 * 4;
        trace := [Read(0, 4), Read(mid, 4), Read(len - 4, 4), Read(len - 4 - mid, 4)];
        forall byte | 0 <= byte < len ensures Touched(trace, byte) {
          assert || Touches(trace[0], byte) || Touches(trace[1], byte)
                 || Touches(trace[2], byte) || Touches(trace[3], byte);
        }
      } else if len > 0 {
        trace := [Read(0, 1), Read(len / 2, 1), Read(len - 1, 1)];
        forall byte | 0 <= byte < len ensures Touched(trace, byte) {
          assert Touches(trace[0], byte) || Touches(trace[1], byte) || Touches(trace[2], byte);
        }
      } else {
        trace := [];
      }
    } else {
      trace := LongReads(len);
      LongReadsCover(len);
    }
  }

  /** All words of eight bytes that start before the last sixteen bytes, and then those. */
  method LongReads(len: nat) returns (trace: seq<Read>)
    requires len > 16
    ensures trace == Words(0, 2 * ((len - 1) / 16)) + Words(len - 16, 2)
  {
    hide Words;
    var i, p := len, 0;
    ghost var q: nat := 0;
    trace := [];
    assert trace == Words(0, 0);
    while i > 48
      invariant p + i == len && i > 0 && p == 16 * q && trace == Words(0, 2 * q)
    {
      WordsJoin(2 * q, 6);
      trace := trace + Words(p, 6);
      p, i, q := p + 48, i - 48, q + 3;
    }
    while i > 16
      invariant p + i == len && i > 0 && p == 16 * q && trace == Words(0, 2 * q)
    {
      WordsJoin(2 * q, 2);
      trace := trace + Words(p, 2);
      p, i, q := p + 16, i - 16, q + 1;
    }
    assert q == (len - 1) / 16;
    trace := trace + Words(len - 16, 2);
  }

  lemma WordsJoin(m: nat, n: nat)
    ensures Words(0, m) + Words(8 * m, n) == Words(0, m + n)
  {
  }

  lemma LongReadsCover(len: nat)
    requires len > 16
    ensures var trace := Words(0, 2 * ((len - 1) / 16)) + Words(len - 16, 2);
            AllInside(trace, len) && Covers(trace, 0, len)
  {
    var n := 2 * ((len - 1) / 16);
    WordsTouch(0, n);
    WordsTouch(len - 16, 2);
    CoversMore(Words(0, n), Words(len - 16, 2), 8 * n, len - 16, len);
  }
}
