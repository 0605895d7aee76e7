/** The cpuset list parser of util/cpu: "0,3-4,7" and the like. */
module CpuList {
  import opened Basics
  import opened Searching

  const MAX_INT := 0x7FFF_FFFF_FFFF_FFFF

  // ---------- strings.Split and strconv.Atoi ----------

  function Split(s: string, c: char): (parts: seq<string>)
    ensures parts != []
    decreases |s|
  {
    var i := Find(s, c);
    if i == |s| then [s] else [s[..i]] + Split(s[i + 1..], c)
  }

  function Join(parts: seq<string>, c: char): string
    requires parts != []
  {
    if |parts| == 1 then parts[0] else parts[0] + [c] + Join(parts[1..], c)
  }

  predicate AllDigits(s: string) { forall i :: 0 <= i < |s| ==> '0' <= s[i] <= '9' }

  function Decimal(s: string): nat
    requires AllDigits(s)
  {
    if s == "" then 0 else 10 * Decimal(s[..|s| - 1]) + (s[|s| - 1] - '0') as nat
  }

  /** A sign is optional; no digits, other characters and values outside 64 bits are errors. */
  function Atoi(s: string): Option<int> {
    var signed := s != "" && (s[0] == '+' || s[0] == '-');
    var digits := if signed then s[1..] else s;
    if digits == "" || !AllDigits(digits) then None
    else
      var v := Decimal(digits);
      if signed && s[0] == '-' then (if v <= MAX_INT + 1 then Some(-(v as int)) else None)
      else if v <= MAX_INT then Some(v) else None
  }

  // ---------- what a list denotes ----------

  /** The range that one part denotes, if it is well formed. */
  function Denotes(part: string): Option<(int, int)> {
    var k := Find(part, '-');
    if k == |part| then
      match Atoi(part)
      case Some(v) => Some((v, v))
      case None => None
    else
      match (Atoi(part[..k]), Atoi(part[k + 1..]))
      case (Some(min), Some(max)) => if max < min then None else Some((min, max))
      case _ => None
  }

  predicate InRange(part: string, x: int) {
    Denotes(part).Some? && Denotes(part).value.0 <= x <= Denotes(part).value.1
  }

  ghost predicate Covers(parts: seq<string>, x: int) {
    exists i :: 0 <= i < |parts| && InRange(parts[i], x)
  }

  ghost predicate WellFormed(parts: seq<string>) {
    forall i :: 0 <= i < |parts| ==> Denotes(parts[i]).Some?
  }

  ghost function Covered(parts: seq<string>): set<int> {
    set x | 0 <= x <= MAX_INT && Covers(parts, x)
  }

  ghost function Parsed(val: string): Option<set<int>> {
    if val == "" then Some({})
    else if WellFormed(Split(val, ',')) then Some(Covered(Split(val, ','))) else None
  }

  /** A range up to the largest integer: counting past its end wraps around and never ends. */
  ghost predicate Endless(part: string) {
    '-' in part && Denotes(part).Some? && Denotes(part).value.1 == MAX_INT
  }

  /** The loop ends if every endless range comes after a part that is refused. */
  ghost predicate Ends(parts: seq<string>) {
    forall i :: 0 <= i < |parts| && Endless(parts[i]) ==> exists j :: 0 <= j < i && Denotes(parts[j]).None?
  }

  /** No part ever denotes a negative number. */
  lemma DenotesNatural(part: string)
    ensures Denotes(part).Some? ==> 0 <= Denotes(part).value.0 <= Denotes(part).value.1 <= MAX_INT
  {
  }

  /** Go's i++ on a 64-bit int. */
  function Increment(i: int): int { if i == MAX_INT then -MAX_INT - 1 else i + 1 }

  /** The loop variable after `n` rounds. */
  function Counted(i: int, n: nat): int {
    if n == 0 then i else Increment(Counted(i, n - 1))
  }

  lemma {:induction false} CountedFits(i: int, n: nat)
    requires -MAX_INT - 1 <= i <= MAX_INT
    ensures -MAX_INT - 1 <= Counted(i, n) <= MAX_INT
  {
    if n == 0 {
    } else {
      CountedFits(i, n - 1);
    }
  }

  lemma {:induction false} CountedPlain(i: int, n: nat)
    requires i + n <= MAX_INT
    ensures Counted(i, n) == i + n
  {
    if n == 0 {
    } else {
      CountedPlain(i, n - 1);
    }
  }

  /** The loop over the range of a part ends: after some number of rounds its guard fails. */
  ghost predicate LoopEnds(part: string) {
    '-' in part && Denotes(part).Some? ==> exists n: nat :: Counted(Denotes(part).value.0, n) > Denotes(part).value.1
  }

  lemma LoopEndsIff(part: string)
    ensures LoopEnds(part) <==> !Endless(part)
  {
    DenotesNatural(part);
    hide Denotes;
    if '-' in part && Denotes(part).Some? {
      var min, max := Denotes(part).value.0, Denotes(part).value.1;
      if max == MAX_INT {
        forall n: nat
          ensures Counted(min, n) <= max
        {
          CountedFits(min, n);
        }
      } else {
        CountedPlain(min, max + 1 - min);
      }
    }
  }

  /** No part before the one at `i` is refused. */
  ghost predicate Reached(parts: seq<string>, i: nat)
    requires i < |parts|
  {
    forall j :: 0 <= j < i ==> Denotes(parts[j]).Some?
  }

  /** The condition on the list is exact: it holds if and only if the loop over every part
      that is reached ends. */
  lemma EndsIff(parts: seq<string>)
    ensures Ends(parts) <==> forall i :: 0 <= i < |parts| && Reached(parts, i) ==> LoopEnds(parts[i])
  {
    hide Denotes, Endless, LoopEnds;
    forall i | 0 <= i < |parts|
      ensures LoopEnds(parts[i]) <==> !Endless(parts[i])
    {
      LoopEndsIff(parts[i]);
    }
  }

  // ---------- writing numbers ----------

  function Numeral(n: nat): (s: string)
    ensures s != "" && AllDigits(s)
  {
    (if n < 10 then "" else Numeral(n / 10)) + ['0' + (n % 10) as char]
  }

  lemma {:induction false} DecimalNumeral(n: nat)
    ensures Decimal(Numeral(n)) == n
  {
    var s := Numeral(n);
    if n < 10 {
      assert s[..|s| - 1] == "";
    } else {
      assert s[..|s| - 1] == Numeral(n / 10);
      DecimalNumeral(n / 10);
    }
  }

  lemma AtoiNumeral(n: nat)
    requires n <= MAX_INT
    ensures Atoi(Numeral(n)) == Some(n) && '-' !in Numeral(n) && ',' !in Numeral(n)
  {
    DecimalNumeral(n);
    hide Numeral;
  }

  lemma DashedDenotes(a: string, b: string)
    requires '-' !in a && Atoi(a).Some? && Atoi(b).Some? && Atoi(a).value <= Atoi(b).value
    ensures Denotes(a + "-" + b) == Some((Atoi(a).value, Atoi(b).value))
  {
    hide Atoi;
    var part := a + "-" + b;
    assert part[..|a|] == a && part[|a|] == '-' && part[|a| + 1..] == b;
    FindUnique(part, '-', |a|);
    hide Find;
  }

  lemma OnePart(part: string)
    requires ',' !in part
    ensures Split(part, ',') == [part]
  {
    FindUnique(part, ',', |part|);
  }

  lemma EndsAlone(part: string)
    requires '-' in part && Denotes(part).Some?
    ensures Ends([part]) <==> Denotes(part).value.1 != MAX_INT
  {
    hide Denotes;
    assert [part][0] == part;
  }

  lemma DashedParts(a: string, b: string)
    requires ',' !in a && ',' !in b
    ensures ',' !in a + "-" + b && '-' in a + "-" + b
  {
    assert (a + "-" + b)[|a|] == '-';
  }

  /** A written range denotes itself, and the parser ends on it exactly when it stays below
      the largest integer. */
  lemma WrittenRange(min: nat, max: nat)
    requires min <= max <= MAX_INT
    ensures var part := Numeral(min) + "-" + Numeral(max);
            && Denotes(part) == Some((min, max))
            && Split(part, ',') == [part]
            && (Ends([part]) <==> max < MAX_INT)
  {
    AtoiNumeral(min);
    AtoiNumeral(max);
    var a, b := Numeral(min), Numeral(max);
    hide *;
    DashedDenotes(a, b);
    DashedParts(a, b);
    OnePart(a + "-" + b);
    EndsAlone(a + "-" + b);
  }

  function Interval(a: int, b: int): (r: set<int>)
    ensures forall x :: x in r <==> a <= x <= b
    decreases b - a
  {
    if b < a then {} else Interval(a, b - 1) + {b}
  }

  lemma CoveredStep(parts: seq<string>, part: string)
    requires Denotes(part).Some?
    ensures Covered(parts + [part]) == Covered(parts) + Interval(Denotes(part).value.0, Denotes(part).value.1)
  {
    var all := parts + [part];
    DenotesNatural(part);
    hide Denotes;
    forall x
      ensures Covers(all, x) <==> Covers(parts, x) || Denotes(part).value.0 <= x <= Denotes(part).value.1
    {
      if Covers(parts, x) {
        var i :| 0 <= i < |parts| && InRange(parts[i], x);
        assert all[i] == parts[i];
      }
      assert all[|parts|] == part;
    }
  }

  /** The rounds that the loop over the range of a part takes, if it ends. */
  function RoundsOf(part: string): nat {
    DenotesNatural(part);
    if '-' in part && Denotes(part).Some? then Denotes(part).value.1 - Denotes(part).value.0 + 1 else 0
  }

  /** The rounds that all loops take until the list is done or a part is refused. */
  function TotalRounds(parts: seq<string>): nat {
    if parts == [] || Denotes(parts[0]).None? then 0 else RoundsOf(parts[0]) + TotalRounds(parts[1..])
  }

  /** The first `rounds` rounds of `for i := min; i <= max; i++`; `done` tells whether the
      loop has ended, and `left` how many rounds it did not need. */
  method AddRange(availableInts: set<int>, min: int, max: int, rounds: nat)
    returns (done: bool, ints: set<int>, left: nat)
    requires 0 <= min <= max <= MAX_INT
    ensures done <==> max < MAX_INT && max - min + 1 <= rounds
    ensures done ==> ints == availableInts + Interval(min, max) && left == rounds - (max - min + 1)
  {
    ints, left := availableInts, rounds;
    var i := min;
    while i <= max && left > 0
      invariant left <= rounds && i <= MAX_INT
      invariant max < MAX_INT ==> i == min + (rounds - left) <= max + 1 && ints == availableInts + Interval(min, i - 1)
      decreases left
    {
      ints := ints + {i};
      i := Increment(i);
      left := left - 1;
    }
    done := i > max;
  }

  /** One round of the loop over the parts, as far as `rounds` rounds of the inner loop go. */
  method AddPart(availableInts: set<int>, part: string, rounds: nat)
    returns (done: bool, ok: bool, ints: set<int>, left: nat)
    ensures done <==> !Endless(part) && RoundsOf(part) <= rounds
    ensures done ==> left == rounds - RoundsOf(part) && (ok <==> Denotes(part).Some?)
    ensures done && ok ==> ints == availableInts + Interval(Denotes(part).value.0, Denotes(part).value.1)
  {
    hide Atoi;
    done, ok, ints, left := true, true, availableInts, rounds;
    var k := Find(part, '-');
    DashAt(part);
    if k == |part| {
      var v := Atoi(part);
      if v.None? {
        return true, false, {}, rounds;
      }
      ints := ints + {v.value};
    } else {
      var min, max := Atoi(part[..k]), Atoi(part[k + 1..]);
      if min.None? || max.None? || max.value < min.value {
        return true, false, {}, rounds;
      }
      DenotesNatural(part);
      done, ints, left := AddRange(ints, min.value, max.value, rounds);
    }
  }

  lemma DashAt(part: string)
    ensures '-' in part <==> Find(part, '-') < |part|
  {
    hide Find;
  }

  /** The parser, as far as `rounds` rounds of its inner loops go. It is done for some number
      of rounds exactly when the list does not make it run for ever; then it refuses a
      non-empty list exactly when a part is malformed. */
  method ParseUintList(val: string, rounds: nat) returns (done: bool, r: Option<set<int>>)
    ensures done <==> val == "" || (Ends(Split(val, ',')) && TotalRounds(Split(val, ',')) <= rounds)
    ensures done ==> r == Parsed(val)
    ensures done && r.Some? ==> forall x :: x in r.value ==> 0 <= x <= MAX_INT
  {
    hide Denotes, Split, Covered, Endless, Ends, WellFormed, RoundsOf, TotalRounds;
    if val == "" {
      return true, Some({});
    }
    var availableInts: set<int>, left: nat := {}, rounds;
    var split := Split(val, ',');
    NothingCovered();
    assert split[..0] == [] && split[0..] == split;
    for n := 0 to |split|
      invariant WellFormed(split[..n])
      invariant availableInts == Covered(split[..n])
      invariant Ends(split) <==> Ends(split[n..])
      invariant left + TotalRounds(split) == rounds + TotalRounds(split[n..])
    {
      PartStep(split, n);
      RestStep(split, n);
      var partDone, ok, ints, more := AddPart(availableInts, split[n], left);
      if !partDone {
        return false, None;
      }
      if !ok {
        return true, None;
      }
      CoveredStep(split[..n], split[n]);
      availableInts, left := ints, more;
    }
    assert split[..|split|] == split && split[|split|..] == [];
    NothingLeft();
    CoveredNatural(split);
    return true, Some(availableInts);
  }

  lemma NothingLeft()
    ensures Ends([]) && TotalRounds([]) == 0
  {
  }

  /** The rest of the list with and without its first part. */
  lemma RestStep(split: seq<string>, n: nat)
    requires n < |split|
    ensures var rest := split[n..];
            && (Endless(split[n]) ==> Denotes(split[n]).Some? && !Ends(rest))
            && (Denotes(split[n]).None? ==> Ends(rest) && TotalRounds(rest) == RoundsOf(split[n]) == 0)
            && (Denotes(split[n]).Some? && !Endless(split[n]) ==> (Ends(rest) <==> Ends(split[n + 1..])))
            && (Denotes(split[n]).Some? ==> TotalRounds(rest) == RoundsOf(split[n]) + TotalRounds(split[n + 1..]))
  {
    var rest, more := split[n..], split[n + 1..];
    assert rest[0] == split[n] && rest[1..] == more;
    assert Endless(split[n]) ==> Denotes(split[n]).Some?;
    assert Denotes(split[n]).None? ==> RoundsOf(split[n]) == 0;
    hide Denotes, Endless, RoundsOf;
    assert forall i :: 0 <= i < |more| ==> more[i] == rest[i + 1];
    if Denotes(split[n]).Some? && !Endless(split[n]) {
      EndsRest(rest);
    }
  }

  lemma EndsRest(parts: seq<string>)
    requires parts != [] && Denotes(parts[0]).Some? && !Endless(parts[0])
    ensures Ends(parts) <==> Ends(parts[1..])
  {
    hide Denotes, Endless;
    var more := parts[1..];
    if Ends(parts) {
      forall i | 0 <= i < |more| && Endless(more[i])
        ensures exists j :: 0 <= j < i && Denotes(more[j]).None?
      {
        assert Endless(parts[i + 1]);
        var j :| 0 <= j < i + 1 && Denotes(parts[j]).None?;
        assert more[j - 1] == parts[j];
      }
    }
    if Ends(more) {
      forall i | 0 <= i < |parts| && Endless(parts[i])
        ensures exists j :: 0 <= j < i && Denotes(parts[j]).None?
      {
        assert Endless(more[i - 1]);
        var j :| 0 <= j < i - 1 && Denotes(more[j]).None?;
        assert parts[j + 1] == more[j];
      }
    }
  }

  /** The next part: an earlier refusal would have ended the loop. */
  lemma PartStep(split: seq<string>, n: nat)
    requires n < |split| && WellFormed(split[..n])
    ensures split[..n + 1] == split[..n] + [split[n]]
    ensures Ends(split) ==> !Endless(split[n])
    ensures WellFormed(split[..n + 1]) <==> Denotes(split[n]).Some?
    ensures Denotes(split[n]).None? ==> !WellFormed(split)
  {
    hide Denotes, Endless;
    assert forall j :: 0 <= j < n ==> split[..n][j] == split[j];
    assert split[..n + 1][n] == split[n];
  }

  lemma NothingCovered()
    ensures Covered([]) == {} && WellFormed([])
  {
  }

  lemma CoveredNatural(parts: seq<string>)
    ensures forall x :: x in Covered(parts) ==> 0 <= x <= MAX_INT
  {
  }

  // ---------- the accepted language ----------

  /** Digits, with an optional plus sign, whose value fits. */
  predicate Number(s: string) {
    var digits := if s != "" && s[0] == '+' then s[1..] else s;
    digits != "" && AllDigits(digits) && Decimal(digits) <= MAX_INT
  }

  function NumberValue(s: string): nat
    requires Number(s)
  {
    Decimal(if s[0] == '+' then s[1..] else s)
  }

  /** The one signed form that gets past the order test: minus zero. */
  predicate MinusZero(s: string) {
    |s| > 1 && s[0] == '-' && AllDigits(s[1..]) && Decimal(s[1..]) == 0
  }

  /** "min-max" with min <= max, or "0--0" with any number of zeros. */
  predicate RangeAt(part: string, k: nat) {
    && k < |part| && part[k] == '-' && Number(part[..k])
    && (if MinusZero(part[k + 1..]) then NumberValue(part[..k]) == 0
        else Number(part[k + 1..]) && NumberValue(part[..k]) <= NumberValue(part[k + 1..]))
  }

  lemma AtoiNumber(s: string)
    requires '-' !in s
    ensures Atoi(s).Some? <==> Number(s)
    ensures Number(s) ==> Atoi(s) == Some(NumberValue(s))
  {
    if s != "" { assert s[0] in s; }
  }

  lemma NumberHasNoMinus(s: string)
    requires Number(s)
    ensures '-' !in s
  {
    var digits := if s[0] == '+' then s[1..] else s;
    forall i | 0 <= i < |s|
      ensures s[i] != '-'
    {
      if s[0] == '+' && i > 0 {
        assert digits[i - 1] == s[i];
      }
    }
  }

  /** The second number of a range. */
  lemma AtoiMax(s: string)
    ensures Atoi(s).Some? && Atoi(s).value >= 0 <==> Number(s) || MinusZero(s)
    ensures Number(s) ==> Atoi(s) == Some(NumberValue(s))
    ensures MinusZero(s) ==> Atoi(s) == Some(0)
  {
  }

  /** A part is accepted exactly when it is a number or an ascending range of two numbers
      (or the odd "0--0"), and denotes just that. */
  lemma PartGrammar(part: string)
    ensures Denotes(part).Some? <==> Number(part) || exists k: nat :: RangeAt(part, k)
    ensures Number(part) ==> Denotes(part) == Some((NumberValue(part), NumberValue(part)))
    ensures forall k: nat :: RangeAt(part, k) ==>
              Number(part[..k]) && Denotes(part).Some? && Denotes(part).value.0 == NumberValue(part[..k])
              && (Number(part[k + 1..]) ==> Denotes(part).value.1 == NumberValue(part[k + 1..]))
  {
    hide Denotes, Number, RangeAt;
    var k := Find(part, '-');
    if k == |part| {
      DenotesNumber(part);
    } else {
      DenotesRange(part);
    }
    forall j: nat | RangeAt(part, j)
      ensures j == k < |part|
    {
      RangeUnique(part, j);
    }
    if Number(part) {
      NumberHasNoMinus(part);
    }
  }

  lemma DenotesNumber(part: string)
    requires Find(part, '-') == |part|
    ensures Denotes(part).Some? <==> Number(part)
    ensures Number(part) ==> Denotes(part) == Some((NumberValue(part), NumberValue(part)))
  {
    hide Atoi, Number;
    AtoiNumber(part);
  }

  lemma DenotesRange(part: string)
    requires Find(part, '-') < |part|
    ensures var k := Find(part, '-');
            && (Denotes(part).Some? <==> RangeAt(part, k))
            && (RangeAt(part, k) ==>
                  && Number(part[..k]) && Denotes(part).value.0 == NumberValue(part[..k])
                  && (Number(part[k + 1..]) ==> Denotes(part).value.1 == NumberValue(part[k + 1..])))
  {
    hide Atoi, Number, MinusZero, Find, NumberValue;
    var k := Find(part, '-');
    assert '-' !in part[..k];
    AtoiNumber(part[..k]);
    AtoiMax(part[k + 1..]);
    NotBoth(part[k + 1..]);
  }

  lemma NotBoth(s: string)
    ensures !(Number(s) && MinusZero(s))
  {
    if Number(s) { NumberHasNoMinus(s); }
  }

  /** Only the first minus sign can separate two numbers. */
  lemma RangeUnique(part: string, j: nat)
    requires RangeAt(part, j)
    ensures j == Find(part, '-') < |part| && Number(part[..j])
  {
    NumberHasNoMinus(part[..j]);
    hide Number, MinusZero;
    assert forall i :: 0 <= i < j ==> part[i] == part[..j][i];
    FindUnique(part, '-', j);
  }

  // ---------- splitting ----------

  lemma SplitHead(p: string, rest: string, c: char)
    requires c !in p
    ensures Split(p + [c] + rest, c) == [p] + Split(rest, c)
  {
    var s := p + [c] + rest;
    FindUnique(s, c, |p|);
    hide Find;
    assert s[..|p|] == p && s[|p| + 1..] == rest;
  }

  /** Splitting undoes joining, and joining undoes splitting. */
  lemma {:induction false} SplitJoin(parts: seq<string>, c: char)
    requires parts != [] && forall i :: 0 <= i < |parts| ==> c !in parts[i]
    ensures Split(Join(parts, c), c) == parts
    decreases |parts|
  {
    if |parts| == 1 {
      FindUnique(parts[0], c, |parts[0]|);
    } else {
      hide Find, Split;
      SplitJoin(parts[1..], c);
      SplitHead(parts[0], Join(parts[1..], c), c);
    }
  }

  lemma {:induction false} JoinSplit(s: string, c: char)
    ensures Join(Split(s, c), c) == s
    ensures forall i :: 0 <= i < |Split(s, c)| ==> c !in Split(s, c)[i]
    decreases |s|
  {
    var i := Find(s, c);
    if i == |s| {
    } else {
      JoinSplit(s[i + 1..], c);
      assert s == s[..i] + [c] + s[i + 1..];
      assert Split(s, c)[1..] == Split(s[i + 1..], c);
    }
  }

  /** The order of the parts and repeated parts do not matter. */
  lemma OrderAndDuplicates(val: string, val': string)
    requires val != "" && val' != ""
    requires forall p :: p in Split(val, ',') <==> p in Split(val', ',')
    ensures Parsed(val) == Parsed(val')
  {
    var a, b := Split(val, ','), Split(val', ',');
    hide Denotes, Split;
    Included(a, b);
    Included(b, a);
    assert Covered(a) == Covered(b);
  }

  lemma Included(a: seq<string>, b: seq<string>)
    requires forall p :: p in a ==> p in b
    ensures WellFormed(b) ==> WellFormed(a)
    ensures forall x :: Covers(a, x) ==> Covers(b, x)
  {
    hide Denotes;
    forall i | 0 <= i < |a|
      ensures exists j :: 0 <= j < |b| && b[j] == a[i]
    {
      assert a[i] in a;
    }
  }
}
