/** Printing a set of enum flags as names joined by a separator, and reading it back. */
module EnumFlags {
  import opened Options

  /** The declared flags of an enum type, in order. */
  datatype Flags = Flags(values: seq<bv64>, names: seq<string>)

  const SEPARATOR: char := '|'

  function Or(a: bv64, b: bv64): bv64 { a | b }

  function And(a: bv64, b: bv64): bv64 { a & b }

  predicate SingleBit(b: bv64) { b != 0 && b & (b - 1) == 0 }

  /** As many names as values, each flag a single bit. */
  ghost predicate SingleBits(f: Flags) {
    && |f.names| == |f.values|
    && forall i :: 0 <= i < |f.values| ==> SingleBit(f.values[i])
  }

  /** How two characters of names are compared. */
  type Comparison = (char, char) -> bool

  const EXACT: Comparison := (a, b) => a == b

  /** The names count as the same, character by character. */
  predicate SameName(eq: Comparison, a: string, b: string) {
    |a| == |b| && forall k :: 0 <= k < |a| ==> eq(a[k], b[k])
  }

  /** Names are not empty and free of the separator, and each is the same as itself and none before it. */
  ghost predicate ReadableNames(f: Flags, eq: Comparison) {
    && (forall i :: 0 <= i < |f.names| ==> f.names[i] != "" && SEPARATOR !in f.names[i])
    && (forall i :: 0 <= i < |f.names| ==> SameName(eq, f.names[i], f.names[i]))
    && (forall i, j :: 0 <= i < j < |f.names| ==> !SameName(eq, f.names[j], f.names[i]))
  }

  /** Compared exactly, the names have to be distinct. */
  lemma ExactlyReadable(f: Flags)
    ensures ReadableNames(f, EXACT) <==>
      && (forall i :: 0 <= i < |f.names| ==> f.names[i] != "" && SEPARATOR !in f.names[i])
      && (forall i, j :: 0 <= i < j < |f.names| ==> f.names[i] != f.names[j])
  {
    forall a, b ensures SameName(EXACT, a, b) <==> a == b {
    }
  }

  /** The bits of the flags declared from `i` on. */
  function AllBits(f: Flags, i: nat): bv64
    requires i <= |f.values|
    decreases |f.values| - i
  {
    if i == |f.values| then 0 else Or(f.values[i], AllBits(f, i + 1))
  }

  // ----------------------------------------------------------------- printing

  /** The indices, from `i` on, of the flags that share a bit with the value. */
  function Selected(f: Flags, value: bv64, i: nat): seq<nat>
    requires i <= |f.values|
    decreases |f.values| - i
  {
    if i == |f.values| then []
    else if And(value, f.values[i]) != 0 then [i] + Selected(f, value, i + 1)
    else Selected(f, value, i + 1)
  }

  /** All flags picked have names. */
  predicate Named(f: Flags, picked: seq<nat>)
    requires IndicesOf(f, picked)
  {
    forall k :: 0 <= k < |picked| ==> f.names[picked[k]] != ""
  }

  predicate IndicesOf(f: Flags, picked: seq<nat>) {
    |f.names| == |f.values| && forall k :: 0 <= k < |picked| ==> picked[k] < |f.values|
  }

  function Bits(f: Flags, picked: seq<nat>): bv64
    requires IndicesOf(f, picked)
  {
    if picked == [] then 0 else Or(f.values[picked[0]], Bits(f, picked[1..]))
  }

  function Joined(f: Flags, picked: seq<nat>, sep: char): string
    requires IndicesOf(f, picked)
  {
    if picked == [] then ""
    else if |picked| == 1 then f.names[picked[0]]
    else f.names[picked[0]] + [sep] + Joined(f, picked[1..], sep)
  }

  lemma {:induction false} SelectedInRange(f: Flags, value: bv64, i: nat)
    requires |f.names| == |f.values| && i <= |f.values|
    ensures IndicesOf(f, Selected(f, value, i))
    ensures forall k :: 0 <= k < |Selected(f, value, i)| ==> And(value, f.values[Selected(f, value, i)[k]]) != 0
    decreases |f.values| - i
  {
    hide Or, And, SingleBit;
    if i < |f.values| { SelectedInRange(f, value, i + 1); }
  }

  /** What printing means: the joined names of the selected flags, if these make up the value. */
  function Printed(f: Flags, value: bv64, sep: char): string
    requires |f.names| == |f.values|
  {
    SelectedInRange(f, value, 0);
    var picked := Selected(f, value, 0);
    if Named(f, picked) && Bits(f, picked) != 0 && Bits(f, picked) == value
    then Joined(f, picked, sep) else ""
  }

  lemma SelectedStep(f: Flags, value: bv64, i: nat)
    requires i < |f.values|
    ensures Selected(f, value, i) ==
              if And(value, f.values[i]) != 0 then [i] + Selected(f, value, i + 1) else Selected(f, value, i + 1)
  {
    hide And;
  }

  lemma NameMissing(f: Flags, value: bv64, sep: char, k: nat)
    requires |f.names| == |f.values| && k < |Selected(f, value, 0)|
    requires IndicesOf(f, Selected(f, value, 0)) && f.names[Selected(f, value, 0)[k]] == ""
    ensures Printed(f, value, sep) == ""
  {
  }

  lemma NamesPresent(f: Flags, value: bv64, sep: char)
    requires |f.names| == |f.values| && IndicesOf(f, Selected(f, value, 0))
    requires Named(f, Selected(f, value, 0))
    ensures var picked := Selected(f, value, 0);
            Printed(f, value, sep) ==
              if Bits(f, picked) != 0 && Bits(f, picked) == value then Joined(f, picked, sep) else ""
  {
  }

  lemma NamedAppend(f: Flags, picked: seq<nat>, i: nat)
    requires IndicesOf(f, picked) && Named(f, picked) && i < |f.values| && f.names[i] != ""
    ensures IndicesOf(f, picked + [i]) && Named(f, picked + [i])
  {
  }

  lemma AppendFirst(a: seq<nat>, i: nat, b: seq<nat>)
    ensures a + ([i] + b) == (a + [i]) + b
  {
  }

  lemma SelectedEnd(f: Flags, value: bv64)
    ensures Selected(f, value, |f.values|) == []
  {
  }

  /** What one more flag adds. */
  lemma OneMoreName(f: Flags, value: bv64, done: seq<nat>, i: nat, sep: char)
    requires IndicesOf(f, done) && Named(f, done) && i < |f.values| && f.names[i] != ""
    requires Selected(f, value, i) == [i] + Selected(f, value, i + 1)
    requires done != [] ==> Joined(f, done, sep) != ""
    ensures IndicesOf(f, done + [i]) && Named(f, done + [i])
    ensures done + Selected(f, value, i) == done + [i] + Selected(f, value, i + 1)
    ensures Bits(f, done + [i]) == Or(Bits(f, done), f.values[i])
    ensures Joined(f, done + [i], sep) ==
              (if Joined(f, done, sep) != "" then Joined(f, done, sep) + [sep] else Joined(f, done, sep)) + f.names[i]
  {
    hide Or, And, SingleBit, Bits, Selected, Named;
    NamedAppend(f, done, i);
    BitsAppend(f, done, i);
    JoinedAppend(f, done, i, sep);
    AppendFirst(done, i, Selected(f, value, i + 1));
    if done == [] { assert Joined(f, done, sep) == "" && "" + f.names[i] == f.names[i]; }
  }

  method EnumFlagsName(f: Flags, value: bv64, sep: char) returns (name: string)
    requires |f.names| == |f.values|
    ensures name == Printed(f, value, sep)
  {
    assert Bits(f, []) == 0 && Joined(f, [], sep) == "" && Named(f, []);
    hide Or, And, SingleBit, Bits, Joined, Selected, Printed, Named;
    name := "";
    var check: bv64 := 0;
    ghost var done: seq<nat> := [];
    SelectedInRange(f, value, 0);
    ghost var picked := Selected(f, value, 0);
    assert [] + picked == picked;
    for i := 0 to |f.values|
      invariant IndicesOf(f, done) && picked == done + Selected(f, value, i)
      invariant check == Bits(f, done) && name == Joined(f, done, sep)
      invariant Named(f, done)
      invariant done != [] ==> name != ""
    {
      var v := f.values[i];
      SelectedStep(f, value, i);
      if And(value, v) != 0 {
        var n := f.names[i];
        if n == "" {
          assert picked[|done|] == i;
          NameMissing(f, value, sep, |done|);
          return "";
        }
        OneMoreName(f, value, done, i, sep);
        check := Or(check, v);
        if name != "" { name := name + [sep]; }
        name := name + n;
        done := done + [i];
      }
    }
    SelectedEnd(f, value);
    assert done + [] == done;
    NamesPresent(f, value, sep);
    if !(check != 0 && check == value) { name := ""; }
  }

  lemma OrAssociates(a: bv64, b: bv64, c: bv64)
    ensures Or(Or(a, b), c) == Or(a, Or(b, c))
    ensures Or(a, 0) == a && Or(0, a) == a
  {
  }

  lemma {:induction false} BitsAppend(f: Flags, picked: seq<nat>, i: nat)
    requires IndicesOf(f, picked) && i < |f.values|
    ensures Bits(f, picked + [i]) == Or(Bits(f, picked), f.values[i])
  {
    hide Or, And, SingleBit;
    if picked == [] {
      assert picked + [i] == [i];
      OrAssociates(f.values[i], 0, 0);
    } else {
      assert (picked + [i])[1..] == picked[1..] + [i];
      BitsAppend(f, picked[1..], i);
      OrAssociates(f.values[picked[0]], Bits(f, picked[1..]), f.values[i]);
    }
  }

  lemma {:induction false} JoinedAppend(f: Flags, picked: seq<nat>, i: nat, sep: char)
    requires IndicesOf(f, picked) && i < |f.values|
    ensures Joined(f, picked + [i], sep) ==
              if picked == [] then f.names[i] else Joined(f, picked, sep) + [sep] + f.names[i]
  {
    hide Or, And, SingleBit;
    if picked == [] {
      assert picked + [i] == [i];
    } else {
      assert (picked + [i])[1..] == picked[1..] + [i];
      JoinedAppend(f, picked[1..], i, sep);
    }
  }

  // ------------------------------------------------------------------ reading

  /** The position of the first separator, or the length. */
  function FindSeparator(s: string): (d: nat)
    ensures d <= |s|
    ensures d < |s| ==> s[d] == SEPARATOR
    ensures SEPARATOR !in s[..d]
  {
    if s == [] || s[0] == SEPARATOR then 0 else
      var d := 1 + FindSeparator(s[1..]);
      assert s[..d] == [s[0]] + s[1..][..d - 1];
      d
  }

  /** The first flag, from `i` on, with the given name. */
  function Lookup(f: Flags, eq: Comparison, s: string, i: nat): (r: Option<nat>)
    requires |f.names| == |f.values| && i <= |f.names|
    ensures r.Some? ==> r.value < |f.values| && SameName(eq, s, f.names[r.value])
    decreases |f.names| - i
  {
    if i == |f.names| then None else if SameName(eq, s, f.names[i]) then Some(i) else Lookup(f, eq, s, i + 1)
  }

  method CmpEqual(lhs: string, rhs: string, eq: Comparison) returns (same: bool)
    ensures same <==> SameName(eq, lhs, rhs)
  {
    if |lhs| != |rhs| { return false; }
    for i := 0 to |lhs|
      invariant forall k :: 0 <= k < i ==> eq(lhs[k], rhs[k])
    {
      if !eq(lhs[i], rhs[i]) { return false; }
    }
    return true;
  }

  function Tail(s: string): string {
    var d := FindSeparator(s);
    if d == |s| then [] else s[d + 1..]
  }

  /** What reading means: the bits of all parts together; every part must name a flag. */
  function Read(f: Flags, eq: Comparison, s: string, bits: bv64): Option<bv64>
    requires |f.names| == |f.values|
    decreases |s|
  {
    if s == [] then (if bits != 0 then Some(bits) else None)
    else
      var i := Lookup(f, eq, s[..FindSeparator(s)], 0);
      if i.None? || f.values[i.value] == 0 then None else Read(f, eq, Tail(s), Or(bits, f.values[i.value]))
  }

  method EnumFlagsCast(f: Flags, text: string, eq: Comparison) returns (r: Option<bv64>)
    requires |f.names| == |f.values|
    ensures r == if f.values == [] then None else Read(f, eq, text, 0)
  {
    hide Or, And, SingleBit;
    if f.values == [] { return None; }
    var value, result: bv64 := text, 0;
    while value != []
      invariant Read(f, eq, value, result) == Read(f, eq, text, 0)
      decreases |value|
    {
      var d := FindSeparator(value);
      var s := value[..d];
      var bits: bv64 := 0;
      var i := 0;
      while i < |f.values|
        invariant i <= |f.values| && Lookup(f, eq, s, 0) == Lookup(f, eq, s, i)
      {
        var same := CmpEqual(s, f.names[i], eq);
        if same { break; }
        i := i + 1;
      }
      if i < |f.values| {
        bits := f.values[i];
      }
      if bits == 0 { return None; }
      result := Or(result, bits);
      value := if d == |value| then [] else value[d + 1..];
    }
    return if result != 0 then Some(result) else None;
  }

  // ------------------------------------------------------ what texts are read

  /** The text between bars, from first to last. */
  ghost function Parts(s: string): (ps: seq<string>)
    ensures ps != []
  {
    if s == "" then [""]
    else
      var ps := Parts(s[1..]);
      if s[0] == '|' then [""] + ps else [[s[0]] + ps[0]] + ps[1..]
  }

  ghost function WithBars(ps: seq<string>): string
    requires ps != []
  {
    if |ps| == 1 then ps[0] else ps[0] + "|" + WithBars(ps[1..])
  }

  /** The parts are free of bars, and with bars between them make up the text. */
  lemma {:induction false} PartsMakeUp(s: string)
    ensures WithBars(Parts(s)) == s
    ensures forall k :: 0 <= k < |Parts(s)| ==> '|' !in Parts(s)[k]
  {
    if s != "" {
      PartsMakeUp(s[1..]);
      var ps := Parts(s[1..]);
      assert s == [s[0]] + s[1..];
      if s[0] == '|' {
        assert ([""] + ps)[1..] == ps;
      } else {
        var qs := [[s[0]] + ps[0]] + ps[1..];
        assert qs[1..] == ps[1..];
        if |ps| > 1 { assert WithBars(qs) == [s[0]] + (ps[0] + "|" + WithBars(ps[1..])); }
      }
    }
  }

  /** The parts of a text that count: a bar at the end of the text starts none. */
  ghost function Listed(s: string): seq<string> {
    DropEmptyLast(Parts(s))
  }

  function DropEmptyLast(ps: seq<string>): seq<string>
    requires ps != []
  {
    if ps[|ps| - 1] == "" then ps[..|ps| - 1] else ps
  }

  /** The first flag of that name has bits. */
  ghost predicate NamesFlag(f: Flags, eq: Comparison, part: string)
    requires |f.names| == |f.values|
  {
    exists i :: 0 <= i < |f.names| && IsNamed(f, eq, part, i) && f.values[i] != 0
  }

  ghost predicate IsNamed(f: Flags, eq: Comparison, part: string, i: nat)
    requires i < |f.names|
  {
    SameName(eq, part, f.names[i]) && forall j :: 0 <= j < i ==> !SameName(eq, part, f.names[j])
  }

  lemma {:induction false} LookupIsFirst(f: Flags, eq: Comparison, part: string, i: nat)
    requires |f.names| == |f.values| && i <= |f.names|
    requires forall j :: 0 <= j < i ==> !SameName(eq, part, f.names[j])
    ensures var r := Lookup(f, eq, part, i);
            if r.Some? then IsNamed(f, eq, part, r.value)
            else forall j :: 0 <= j < |f.names| ==> !SameName(eq, part, f.names[j])
    decreases |f.names| - i
  {
    hide SameName;
    if i < |f.names| && !SameName(eq, part, f.names[i]) { LookupIsFirst(f, eq, part, i + 1); }
  }

  lemma NamesFlagIff(f: Flags, eq: Comparison, part: string)
    requires |f.names| == |f.values|
    ensures NamesFlag(f, eq, part) <==> FlagBits(f, eq, part) != 0
  {
    LookupIsFirst(f, eq, part, 0);
    hide SameName;
    var r := Lookup(f, eq, part, 0);
    if i :| 0 <= i < |f.names| && IsNamed(f, eq, part, i) && f.values[i] != 0 {
      assert r.Some?;
      assert r.value == i;
    }
  }

  /** The bits of the first flag of that name, and none if there is no such flag. */
  function FlagBits(f: Flags, eq: Comparison, part: string): bv64
    requires |f.names| == |f.values|
  {
    var i := Lookup(f, eq, part, 0);
    if i.None? then 0 else f.values[i.value]
  }

  function PartBits(f: Flags, eq: Comparison, ps: seq<string>): bv64
    requires |f.names| == |f.values|
  {
    if ps == [] then 0 else Or(FlagBits(f, eq, ps[0]), PartBits(f, eq, ps[1..]))
  }

  lemma {:induction false} PartsAtSeparator(s: string)
    ensures var d := FindSeparator(s);
            Parts(s) == if d == |s| then [s] else [s[..d]] + Parts(s[d + 1..])
  {
    if s != "" && s[0] != '|' {
      PartsAtSeparator(s[1..]);
      var d := FindSeparator(s);
      assert s == [s[0]] + s[1..] && s[..d] == [s[0]] + s[1..][..d - 1];
      if d < |s| { assert s[1..][d..] == s[d + 1..]; }
    }
  }

  lemma ListedAtSeparator(s: string)
    requires s != ""
    ensures Listed(s) == [s[..FindSeparator(s)]] + Listed(Tail(s))
  {
    PartsAtSeparator(s);
    NothingListed();
    hide Parts, FindSeparator, DropEmptyLast;
    var d := FindSeparator(s);
    if d == |s| {
      OnlyPart(s);
    } else {
      DropBehind(s[..d], Parts(s[d + 1..]));
    }
  }

  lemma OnlyPart(p: string)
    requires p != ""
    ensures DropEmptyLast([p]) == [p[..|p|]]
  {
    assert p[..|p|] == p;
  }

  lemma NothingListed()
    ensures Listed("") == []
  {
  }

  lemma DropBehind(p: string, ps: seq<string>)
    requires ps != []
    ensures DropEmptyLast([p] + ps) == [p] + DropEmptyLast(ps)
  {
  }

  /** All parts that count name flags with bits. */
  ghost predicate AllFlags(f: Flags, eq: Comparison, ps: seq<string>)
    requires |f.names| == |f.values|
  {
    forall k :: 0 <= k < |ps| ==> NamesFlag(f, eq, ps[k])
  }

  /**
   A text is read exactly if it is not empty and every part between bars names a flag with bits;
   then the result is the bits of all of them.
   */
  lemma ReadIff(f: Flags, eq: Comparison, s: string)
    requires |f.names| == |f.values|
    ensures Read(f, eq, s, 0) ==
      if s != "" && AllFlags(f, eq, Listed(s)) then Some(PartBits(f, eq, Listed(s))) else None
  {
    hide Or, Read, Listed, AllFlags;
    ReadFrom(f, eq, s, 0);
    OrAssociates(PartBits(f, eq, Listed(s)), 0, 0);
  }

  lemma {:induction false} ReadFrom(f: Flags, eq: Comparison, s: string, bits: bv64)
    requires |f.names| == |f.values|
    ensures var r := Or(bits, PartBits(f, eq, Listed(s)));
            Read(f, eq, s, bits) ==
              if AllFlags(f, eq, Listed(s)) && (bits != 0 || s != "") then Some(r) else None
    decreases |s|
  {
    hide Or, Parts, NamesFlag, FindSeparator;
    if s == "" {
      NothingListed();
      hide Listed;
      OrAssociates(bits, 0, 0);
    } else {
      hide Listed, Tail;
      ListedAtSeparator(s);
      var part, tail := s[..FindSeparator(s)], Tail(s);
      NamesFlagIff(f, eq, part);
      FirstOfAll(f, eq, part, Listed(tail));
      assert ([part] + Listed(tail))[1..] == Listed(tail);
      var here := FlagBits(f, eq, part);
      if here != 0 {
        OrNotZero(bits, here);
        OrAssociates(bits, here, PartBits(f, eq, Listed(tail)));
        ReadFrom(f, eq, tail, Or(bits, here));
      }
    }
  }

  lemma FirstOfAll(f: Flags, eq: Comparison, part: string, ps: seq<string>)
    requires |f.names| == |f.values|
    ensures AllFlags(f, eq, [part] + ps) <==> NamesFlag(f, eq, part) && AllFlags(f, eq, ps)
  {
    hide NamesFlag;
    var qs := [part] + ps;
    assert forall k :: 0 <= k < |ps| ==> qs[k + 1] == ps[k];
    if AllFlags(f, eq, qs) {
      assert NamesFlag(f, eq, qs[0]);
      forall k | 0 <= k < |ps| ensures NamesFlag(f, eq, ps[k]) { assert NamesFlag(f, eq, qs[k + 1]); }
    }
  }

  lemma OrNotZero(a: bv64, b: bv64)
    ensures b != 0 ==> Or(a, b) != 0
  {
  }

  // --------------------------------------------------------------- round trip

  lemma {:induction false} LookupFinds(f: Flags, eq: Comparison, i: nat, k: nat)
    requires |f.names| == |f.values| && ReadableNames(f, eq) && k <= i < |f.names|
    ensures Lookup(f, eq, f.names[i], k) == Some(i)
    decreases i - k
  {
    if k < i { LookupFinds(f, eq, i, k + 1); }
  }

  lemma {:induction false} SeparatorAfter(a: string, b: string)
    requires SEPARATOR !in a
    ensures FindSeparator(a + [SEPARATOR] + b) == |a|
    ensures FindSeparator(a) == |a|
  {
    if a != [] {
      assert (a + [SEPARATOR] + b)[1..] == a[1..] + [SEPARATOR] + b;
      SeparatorAfter(a[1..], b);
    }
  }

  /** Reading joined names collects exactly the bits of their flags. */
  lemma {:induction false} ReadJoined(f: Flags, eq: Comparison, picked: seq<nat>, bits: bv64)
    requires IndicesOf(f, picked) && ReadableNames(f, eq)
    requires forall k :: 0 <= k < |picked| ==> f.values[picked[k]] != 0
    ensures Read(f, eq, Joined(f, picked, SEPARATOR), bits) == Read(f, eq, [], Or(bits, Bits(f, picked)))
  {
    hide Or, And, SingleBit;
    if picked == [] {
      OrAssociates(bits, 0, 0);
    } else {
      var i, rest := picked[0], picked[1..];
      var s := Joined(f, picked, SEPARATOR);
      LookupFinds(f, eq, i, 0);
      SeparatorAfter(f.names[i], Joined(f, rest, SEPARATOR));
      ReadJoined(f, eq, rest, Or(bits, f.values[i]));
      OrAssociates(bits, f.values[i], Bits(f, rest));
      assert s[..FindSeparator(s)] == f.names[i];
      assert Tail(s) == Joined(f, rest, SEPARATOR);
    }
  }

  lemma JoinedNotEmpty(f: Flags, eq: Comparison, picked: seq<nat>)
    requires IndicesOf(f, picked) && ReadableNames(f, eq) && picked != []
    ensures Joined(f, picked, SEPARATOR) != ""
  {
    hide Or, And, SingleBit;
  }

  /** Whatever prints as something is read back as itself. */
  lemma PrintedReadsBack(f: Flags, eq: Comparison, value: bv64)
    requires |f.names| == |f.values| && ReadableNames(f, eq) && Printed(f, value, SEPARATOR) != ""
    ensures Read(f, eq, Printed(f, value, SEPARATOR), 0) == Some(value)
  {
    hide Or, And, SingleBit;
    var picked := Selected(f, value, 0);
    SelectedInRange(f, value, 0);
    forall k | 0 <= k < |picked| ensures f.values[picked[k]] != 0 {
      AndNotZero(value, f.values[picked[k]]);
    }
    ReadJoined(f, eq, picked, 0);
    OrAssociates(value, 0, 0);
  }

  lemma AndNotZero(a: bv64, b: bv64)
    ensures And(a, b) != 0 ==> b != 0
  {
  }

  /** A single bit is either not shared with a value or lies in it. */
  lemma SingleBitIn(v: bv64, b: bv64)
    requires SingleBit(b)
    ensures And(v, b) == 0 || And(v, b) == b
  {
  }

  lemma TakeBit(v: bv64, a: bv64, b: bv64)
    ensures And(v, b) == b ==> And(v, Or(b, a)) == Or(b, And(v, a))
  {
  }

  lemma LeaveBit(v: bv64, a: bv64, b: bv64)
    ensures And(v, b) == 0 ==> And(v, Or(b, a)) == And(v, a)
  {
  }

  lemma NoBits(v: bv64)
    ensures And(v, 0) == 0
  {
  }

  /** The selected flags make up the declared part of the value. */
  lemma SelectedBits(f: Flags, value: bv64, i: nat)
    requires SingleBits(f) && i <= |f.values|
    ensures IndicesOf(f, Selected(f, value, i))
    ensures Bits(f, Selected(f, value, i)) == And(value, AllBits(f, i))
  {
    hide Or, And, SingleBit;
    forall j | 0 <= j < |f.values| ensures Whole(f, value, j) { SingleBitIn(value, f.values[j]); }
    WholeBits(f, value, i);
  }

  /**
   Printing and reading back gives the value exactly if it is not zero and has declared bits
   only; every other value prints as the empty text, which reads as no value.
   */
  lemma RoundTripIff(f: Flags, eq: Comparison, value: bv64)
    requires SingleBits(f) && ReadableNames(f, eq)
    ensures Printed(f, value, SEPARATOR) != "" <==> value != 0 && And(value, AllBits(f, 0)) == value
    ensures Read(f, eq, Printed(f, value, SEPARATOR), 0) ==
              if value != 0 && And(value, AllBits(f, 0)) == value then Some(value) else None
  {
    hide Or, And, SingleBit;
    var picked := Selected(f, value, 0);
    SelectedInRange(f, value, 0);
    SelectedBits(f, value, 0);
    if picked != [] { JoinedNotEmpty(f, eq, picked); }
    if Printed(f, value, SEPARATOR) != "" { PrintedReadsBack(f, eq, value); }
  }

  // --------------------------------------------------- which values are printed

  /** All bits of the value are declared, and every flag that shares a bit with it has a name and lies in it. */
  ghost predicate Expressible(f: Flags, value: bv64)
    requires |f.names| == |f.values|
  {
    && value != 0 && And(value, AllBits(f, 0)) == value
    && forall i :: 0 <= i < |f.values| ==> Whole(f, value, i) && (And(value, f.values[i]) != 0 ==> f.names[i] != "")
  }

  predicate Whole(f: Flags, value: bv64, i: nat)
    requires i < |f.values|
  {
    And(value, f.values[i]) == 0 || And(value, f.values[i]) == f.values[i]
  }

  /** Flags of one bit or of several: exactly the expressible values are printed. */
  lemma PrintedIff(f: Flags, value: bv64, sep: char)
    requires |f.names| == |f.values|
    ensures Printed(f, value, sep) != "" <==> Expressible(f, value)
  {
    hide Or, And;
    SelectedInRange(f, value, 0);
    SelectedAll(f, value, 0);
    var picked := Selected(f, value, 0);
    if Named(f, picked) && picked != [] { NamedJoined(f, picked, sep); }
    if forall i :: 0 <= i < |f.values| ==> Whole(f, value, i) { WholeBits(f, value, 0); }
    if Printed(f, value, sep) != "" {
      forall i | 0 <= i < |f.values| ensures Whole(f, value, i) && (And(value, f.values[i]) != 0 ==> f.names[i] != "") {
        if And(value, f.values[i]) != 0 {
          var k :| 0 <= k < |picked| && picked[k] == i;
          BitsContain(f, picked, k);
          AndCommutes(value, f.values[i]);
        }
      }
    }
  }

  /** The flags selected are all that share a bit with the value. */
  lemma {:induction false} SelectedAll(f: Flags, value: bv64, i: nat)
    requires i <= |f.values|
    ensures forall j :: i <= j < |f.values| && And(value, f.values[j]) != 0 ==> j in Selected(f, value, i)
    decreases |f.values| - i
  {
    hide And;
    if i < |f.values| { SelectedAll(f, value, i + 1); }
  }

  lemma NamedJoined(f: Flags, picked: seq<nat>, sep: char)
    requires IndicesOf(f, picked) && Named(f, picked) && picked != []
    ensures Joined(f, picked, sep) != ""
  {
  }

  lemma {:induction false} WholeBits(f: Flags, value: bv64, i: nat)
    requires |f.names| == |f.values| && i <= |f.values|
    requires forall j :: 0 <= j < |f.values| ==> Whole(f, value, j)
    ensures IndicesOf(f, Selected(f, value, i)) && Bits(f, Selected(f, value, i)) == And(value, AllBits(f, i))
    decreases |f.values| - i
  {
    hide Or, And;
    SelectedInRange(f, value, i);
    if i < |f.values| {
      WholeBits(f, value, i + 1);
      assert Whole(f, value, i);
      TakeBit(value, AllBits(f, i + 1), f.values[i]);
      LeaveBit(value, AllBits(f, i + 1), f.values[i]);
      var rest := Selected(f, value, i + 1);
      assert ([i] + rest)[1..] == rest;
    } else {
      NoBits(value);
    }
  }

  lemma {:induction false} BitsContain(f: Flags, picked: seq<nat>, k: nat)
    requires IndicesOf(f, picked) && k < |picked|
    ensures And(f.values[picked[k]], Bits(f, picked)) == f.values[picked[k]]
  {
    hide Or, And;
    var first, rest := f.values[picked[0]], Bits(f, picked[1..]);
    InOr(first, rest, first);
    if k > 0 {
      BitsContain(f, picked[1..], k - 1);
      InOr(first, rest, f.values[picked[k]]);
    }
  }

  lemma InOr(a: bv64, b: bv64, c: bv64)
    ensures And(c, b) == c || c == a ==> And(c, Or(a, b)) == c
  {
  }

  // --------------------------------------------------------- other separators

  lemma {:induction false} SelectedIncreasing(f: Flags, value: bv64, i: nat)
    requires i <= |f.values|
    ensures forall k :: 0 <= k < |Selected(f, value, i)| ==> Selected(f, value, i)[k] >= i
    ensures |Selected(f, value, i)| >= 2 ==> Selected(f, value, i)[0] < Selected(f, value, i)[1]
    decreases |f.values| - i
  {
    hide And;
    if i < |f.values| { SelectedIncreasing(f, value, i + 1); }
  }

  lemma {:induction false} JoinedWithout(f: Flags, picked: seq<nat>, sep: char)
    requires IndicesOf(f, picked) && ReadableNames(f, EXACT) && sep != SEPARATOR
    ensures SEPARATOR !in Joined(f, picked, sep)
  {
    hide Or, And, SingleBit, SameName;
    if picked != [] { JoinedWithout(f, picked[1..], sep); }
  }

  /** Two single bits that share a bit are the same. */
  lemma SameBit(v: bv64, a: bv64)
    requires SingleBit(v) && SingleBit(a) && And(v, a) != 0
    ensures v == a
  {
    SingleBitIn(v, a);
    SingleBitIn(a, v);
    AndCommutes(v, a);
    hide *;
  }

  lemma AndCommutes(a: bv64, b: bv64)
    ensures And(a, b) == And(b, a)
  {
  }

  /** Text without a separator is read as one name. */
  lemma OneName(f: Flags, text: string)
    requires SingleBits(f) && SEPARATOR !in text && text != ""
    ensures var i := Lookup(f, EXACT, text, 0);
            Read(f, EXACT, text, 0) == if i.None? then None else Some(f.values[i.value])
  {
    hide Or, And, SingleBit, SameName;
    SeparatorAfter(text, "");
    assert text[..|text|] == text;
    var i := Lookup(f, EXACT, text, 0);
    if i.Some? {
      BitNotZero(f.values[i.value]);
      OrAssociates(f.values[i.value], 0, 0);
    }
  }

  lemma BitNotZero(v: bv64)
    requires SingleBit(v)
    ensures v != 0
  {
  }

  /** A value printed with another separator is read back exactly if it is made of one flag. */
  lemma OtherSeparatorIff(f: Flags, value: bv64, sep: char)
    requires SingleBits(f) && ReadableNames(f, EXACT) && sep != SEPARATOR && Printed(f, value, sep) != ""
    requires forall i, j :: 0 <= i < j < |f.values| ==> f.values[i] != f.values[j]
    ensures Read(f, EXACT, Printed(f, value, sep), 0) == Some(value) <==> |Selected(f, value, 0)| == 1
  {
    hide Or, And, SingleBit, SameName;
    var picked := Selected(f, value, 0);
    SelectedInRange(f, value, 0);
    if |picked| == 1 {
      assert Printed(f, value, sep) == Printed(f, value, SEPARATOR);
      PrintedReadsBack(f, EXACT, value);
    } else {
      var text := Joined(f, picked, sep);
      JoinedWithout(f, picked, sep);
      OneName(f, text);
      SelectedIncreasing(f, value, 0);
      if Lookup(f, EXACT, text, 0).Some? && f.values[Lookup(f, EXACT, text, 0).value] == value {
        SameBit(value, f.values[picked[0]]);
        SameBit(value, f.values[picked[1]]);
      }
    }
  }

  /** Two flags, to show how another separator fails. */
  const TWO_FLAGS: Flags := Flags([1, 2], ["A", "B"])

  /** Two flags printed with another separator are read as one name, which there is none of. */
  lemma OtherSeparatorFails(sep: char)
    requires sep != SEPARATOR
    ensures SingleBits(TWO_FLAGS) && ReadableNames(TWO_FLAGS, EXACT)
    ensures Printed(TWO_FLAGS, 3, sep) == "A" + [sep] + "B"
    ensures Read(TWO_FLAGS, EXACT, Printed(TWO_FLAGS, 3, sep), 0) == None
  {
    TwoFlagsReadable();
    TwoFlagsSelected(sep);
    hide Printed, SingleBits, ReadableNames, Selected, SingleBit, Or, And;
    OneName(TWO_FLAGS, "A" + [sep] + "B");
  }

  lemma TwoFlagsReadable()
    ensures SingleBits(TWO_FLAGS) && ReadableNames(TWO_FLAGS, EXACT)
  {
    ExactlyReadable(TWO_FLAGS);
    hide ReadableNames;
  }

  lemma TwoFlagsSelected(sep: char)
    ensures Selected(TWO_FLAGS, 3, 0) == [0, 1]
    ensures Printed(TWO_FLAGS, 3, sep) == "A" + [sep] + "B"
  {
    SelectedStep(TWO_FLAGS, 3, 0);
    SelectedStep(TWO_FLAGS, 3, 1);
    assert Selected(TWO_FLAGS, 3, 2) == [];
    assert [0, 1][1..] == [1] && [1][1..] == [];
    assert Bits(TWO_FLAGS, [1]) == 2;
    assert Bits(TWO_FLAGS, [0, 1]) == 3;
    assert Joined(TWO_FLAGS, [1], sep) == "B";
    assert Joined(TWO_FLAGS, [0, 1], sep) == "A" + [sep] + "B";
  }
}
