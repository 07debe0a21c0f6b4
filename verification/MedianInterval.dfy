/**
 Two values of a sample between which its true median lies, whatever the sample is drawn
 from, unless the sample is more lopsided than all but a given part of samples. Numbers are
 exact here.
 */
module MedianInterval {
  import Finite
  import opened Ir

  // ----- counting sign patterns -----

  /** `math.comb(n, i)`. */
  function Choose(n: nat, i: nat): nat {
    if i == 0 then 1 else if n == 0 then 0 else Choose(n - 1, i - 1) + Choose(n - 1, i)
  }

  function Pow2(n: nat): (p: nat)
    ensures p > 0
  {
    if n == 0 then 1 else 2 * Pow2(n - 1)
  }

  /** How many ways there are to choose fewer than `k` out of `n`. */
  function Tail(n: nat, k: nat): nat {
    if k == 0 then 0 else Tail(n, k - 1) + Choose(n, k - 1)
  }

  /** For each value, whether it stands below the true median. */
  type Signs = seq<bool>

  function Trues(p: Signs): (c: nat)
    ensures c <= |p|
  {
    if p == [] then 0 else Trues(p[1..]) + if p[0] then 1 else 0
  }

  function Flipped(p: Signs): (q: Signs)
    ensures |q| == |p|
  {
    seq(|p|, i requires 0 <= i < |p| => !p[i])
  }

  ghost function Prepend(b: bool, s: set<Signs>): set<Signs> {
    set p | p in s :: [b] + p
  }

  /** The patterns over `n` values with `i` of them below. */
  ghost function With(n: nat, i: nat): set<Signs> {
    if n == 0 then (if i == 0 then {[]} else {})
    else Prepend(false, With(n - 1, i)) + if i == 0 then {} else Prepend(true, With(n - 1, i - 1))
  }

  ghost function All(n: nat): set<Signs> {
    if n == 0 then {[]} else Prepend(false, All(n - 1)) + Prepend(true, All(n - 1))
  }

  /** The patterns with fewer than `k` below. */
  ghost function Few(n: nat, k: nat): set<Signs> {
    if k == 0 then {} else Few(n, k - 1) + With(n, k - 1)
  }

  ghost function FlipAll(s: set<Signs>): set<Signs> {
    set p | p in s :: Flipped(p)
  }

  /** The patterns with fewer than `k` values on one side. */
  ghost function Lopsided(n: nat, k: nat): set<Signs> {
    Few(n, k) + FlipAll(Few(n, k))
  }

  lemma InPrepend(b: bool, s: set<Signs>, p: Signs)
    ensures p in Prepend(b, s) <==> p != [] && p[0] == b && p[1..] in s
  {
    if p != [] && p[0] == b && p[1..] in s {
      assert p == [b] + p[1..];
    }
    if p in Prepend(b, s) {
      var q :| q in s && p == [b] + q;
      assert p[1..] == q;
    }
  }

  lemma {:induction false} PrependCount(b: bool, s: set<Signs>)
    ensures |Prepend(b, s)| == |s|
    decreases |s|
  {
    if s != {} {
      var p :| p in s;
      PrependCount(b, s - {p});
      InPrepend(b, s - {p}, [b] + p);
      assert ([b] + p)[1..] == p;
      assert Prepend(b, s) == Prepend(b, s - {p}) + {[b] + p};
    }
  }

  lemma {:induction false} FlipCount(s: set<Signs>)
    ensures |FlipAll(s)| == |s|
    decreases |s|
  {
    if s != {} {
      var p :| p in s;
      FlipCount(s - {p});
      assert forall q :: q in s - {p} ==> Flipped(q) != Flipped(p) by {
        forall q | q in s - {p} ensures Flipped(q) != Flipped(p) { FlipTwice(q); FlipTwice(p); }
      }
      assert FlipAll(s) == FlipAll(s - {p}) + {Flipped(p)};
    }
  }

  lemma FlipTwice(p: Signs)
    ensures Flipped(Flipped(p)) == p
  {
  }

  lemma {:induction false} FlipTrues(p: Signs)
    ensures Trues(Flipped(p)) == |p| - Trues(p)
  {
    if p != [] {
      FlipTrues(p[1..]);
      assert Flipped(p)[1..] == Flipped(p[1..]);
    }
  }

  lemma {:induction false} InWith(n: nat, i: nat, p: Signs)
    ensures p in With(n, i) <==> |p| == n && Trues(p) == i
  {
    if n > 0 {
      InPrepend(false, With(n - 1, i), p);
      if p != [] {
        InWith(n - 1, i, p[1..]);
      }
      if i > 0 {
        InPrepend(true, With(n - 1, i - 1), p);
        if p != [] { InWith(n - 1, i - 1, p[1..]); }
      }
    }
  }

  lemma {:induction false} InAll(n: nat, p: Signs)
    ensures p in All(n) <==> |p| == n
  {
    if n > 0 {
      InPrepend(false, All(n - 1), p);
      InPrepend(true, All(n - 1), p);
      if p != [] { InAll(n - 1, p[1..]); }
    }
  }

  lemma {:induction false} InFew(n: nat, k: nat, p: Signs)
    ensures p in Few(n, k) <==> |p| == n && Trues(p) < k
  {
    if k > 0 {
      InFew(n, k - 1, p);
      InWith(n, k - 1, p);
    }
  }

  lemma InLopsided(n: nat, k: nat, p: Signs)
    ensures p in Lopsided(n, k) <==> |p| == n && (Trues(p) < k || n - Trues(p) < k)
  {
    InFew(n, k, p);
    InFew(n, k, Flipped(p));
    FlipTrues(p);
    FlipTwice(p);
    if p in FlipAll(Few(n, k)) {
      var q :| q in Few(n, k) && p == Flipped(q);
      FlipTwice(q);
    }
  }

  // ----- how many there are -----

  lemma TwoHalves(s: set<Signs>, t: set<Signs>)
    ensures |Prepend(false, s) + Prepend(true, t)| == |s| + |t|
  {
    hide Prepend;
    PrependCount(false, s);
    PrependCount(true, t);
    PrependApart(s, t);
  }

  lemma WithStep(n: nat, i: nat)
    requires n > 0
    ensures |With(n, i)| == |With(n - 1, i)| + if i == 0 then 0 else |With(n - 1, i - 1)|
  {
    hide Prepend;
    var with := Prepend(false, With(n - 1, i)) + if i == 0 then {} else Prepend(true, With(n - 1, i - 1));
    assert With(n, i) == with;
    if i == 0 {
      assert with == Prepend(false, With(n - 1, i));
      PrependCount(false, With(n - 1, i));
    } else {
      TwoHalves(With(n - 1, i), With(n - 1, i - 1));
    }
  }

  lemma WithNone(i: nat)
    ensures |With(0, i)| == Choose(0, i)
  {
  }

  lemma {:induction false} WithCount(n: nat, i: nat)
    ensures |With(n, i)| == Choose(n, i)
  {
    hide With;
    if n == 0 {
      WithNone(i);
    } else {
      WithStep(n, i);
      WithCount(n - 1, i);
      if i > 0 { WithCount(n - 1, i - 1); }
    }
  }

  lemma PrependApart(s: set<Signs>, t: set<Signs>)
    ensures Prepend(false, s) !! Prepend(true, t)
  {
    forall p | p in Prepend(false, s)
      ensures p !in Prepend(true, t)
    {
      InPrepend(false, s, p);
      InPrepend(true, t, p);
    }
  }

  lemma {:induction false} AllCount(n: nat)
    ensures |All(n)| == Pow2(n)
  {
    if n > 0 {
      AllCount(n - 1);
      TwoHalves(All(n - 1), All(n - 1));
    }
  }

  lemma FewApart(n: nat, k: nat)
    ensures Few(n, k) !! With(n, k)
  {
    hide Few, With, Trues;
    if x :| x in Few(n, k) && x in With(n, k) {
      InFew(n, k, x);
      InWith(n, k, x);
      assert false;
    }
  }

  lemma {:induction false} FewCount(n: nat, k: nat)
    ensures |Few(n, k)| == Tail(n, k)
  {
    hide With;
    if k > 0 {
      FewCount(n, k - 1);
      WithCount(n, k - 1);
      FewApart(n, k - 1);
      var a, b := Few(n, k - 1), With(n, k - 1);
      assert Few(n, k) == a + b && a !! b;
    }
  }

  /** At most two tails' worth of patterns are lopsided. */
  lemma LopsidedCount(n: nat, k: nat)
    ensures |Lopsided(n, k)| <= 2 * Tail(n, k)
  {
    FewCount(n, k);
    FlipCount(Few(n, k));
  }

  /** Past the middle, every pattern is lopsided. */
  lemma TailPastMiddle(n: nat, k: nat)
    requires 2 * k > n
    ensures 2 * Tail(n, k) >= Pow2(n)
  {
    forall p | p in All(n)
      ensures p in Lopsided(n, k)
    {
      InAll(n, p);
      InLopsided(n, k, p);
    }
    Finite.Subset(All(n), Lopsided(n, k));
    AllCount(n);
    LopsidedCount(n, k);
  }

  // ----- order statistics -----

  ghost predicate InOrder(s: seq<real>) {
    forall i, j :: 0 <= i <= j < |s| ==> s[i] <= s[j]
  }

  function Insert(x: real, s: seq<real>): (r: seq<real>)
    ensures |r| == |s| + 1
  {
    if s == [] || x <= s[0] then [x] + s else [s[0]] + Insert(x, s[1..])
  }

  /** `sorted(values)`. */
  function Sorted(values: seq<real>): (ordered: seq<real>)
    ensures |ordered| == |values|
  {
    if values == [] then [] else Insert(values[0], Sorted(values[1..]))
  }

  lemma {:induction false} InsertHolds(x: real, s: seq<real>)
    ensures multiset(Insert(x, s)) == multiset(s) + multiset{x}
  {
    if s != [] && x > s[0] {
      InsertHolds(x, s[1..]);
      assert s == [s[0]] + s[1..];
    }
  }

  lemma {:induction false} InsertInOrder(x: real, s: seq<real>)
    requires InOrder(s)
    ensures InOrder(Insert(x, s))
  {
    if s != [] && x > s[0] {
      InsertInOrder(x, s[1..]);
      InsertHolds(x, s[1..]);
      var rest := Insert(x, s[1..]);
      forall i | 0 <= i < |rest|
        ensures s[0] <= rest[i]
      {
        assert rest[i] in multiset(rest);
      }
    }
  }

  lemma {:induction false} SortedInOrder(values: seq<real>)
    ensures InOrder(Sorted(values)) && multiset(Sorted(values)) == multiset(values)
  {
    hide Insert;
    if values != [] {
      SortedInOrder(values[1..]);
      InsertInOrder(values[0], Sorted(values[1..]));
      InsertHolds(values[0], Sorted(values[1..]));
      assert values == [values[0]] + values[1..];
    }
  }

  function AtMost(s: seq<real>, m: real): (c: nat)
    ensures c <= |s|
  {
    if s == [] then 0 else AtMost(s[1..], m) + if s[0] <= m then 1 else 0
  }

  function AtLeast(s: seq<real>, m: real): (c: nat)
    ensures c <= |s|
  {
    if s == [] then 0 else AtLeast(s[1..], m) + if s[0] >= m then 1 else 0
  }

  lemma {:induction false} InsertCounts(x: real, s: seq<real>, m: real)
    ensures AtMost(Insert(x, s), m) == AtMost(s, m) + if x <= m then 1 else 0
    ensures AtLeast(Insert(x, s), m) == AtLeast(s, m) + if x >= m then 1 else 0
  {
    if s == [] || x <= s[0] {
      assert ([x] + s)[1..] == s;
    } else {
      InsertCounts(x, s[1..], m);
      assert Insert(x, s)[1..] == Insert(x, s[1..]);
    }
  }

  lemma {:induction false} SortedCounts(values: seq<real>, m: real)
    ensures AtMost(Sorted(values), m) == AtMost(values, m) && AtLeast(Sorted(values), m) == AtLeast(values, m)
  {
    if values != [] {
      SortedCounts(values[1..], m);
      InsertCounts(values[0], Sorted(values[1..]), m);
    }
  }

  /** The `k`-th smallest is above `m` just when fewer than `k` values are at most `m`. */
  lemma {:induction false} FromBelow(s: seq<real>, k: nat, m: real)
    requires InOrder(s) && 0 < k <= |s|
    ensures s[k - 1] > m <==> AtMost(s, m) < k
  {
    if s[0] > m {
      NoneAtMost(s, m);
    } else if k > 1 {
      FromBelow(s[1..], k - 1, m);
    }
  }

  lemma {:induction false} NoneAtMost(s: seq<real>, m: real)
    requires forall i :: 0 <= i < |s| ==> s[i] > m
    ensures AtMost(s, m) == 0
  {
    if s != [] { NoneAtMost(s[1..], m); }
  }

  lemma {:induction false} AllAtLeast(s: seq<real>, m: real)
    requires forall i :: 0 <= i < |s| ==> s[i] >= m
    ensures AtLeast(s, m) == |s|
  {
    if s != [] { AllAtLeast(s[1..], m); }
  }

  /** The `k`-th largest is below `m` just when fewer than `k` values are at least `m`. */
  lemma {:induction false} FromAbove(s: seq<real>, k: nat, m: real)
    requires InOrder(s) && 0 < k <= |s|
    ensures s[|s| - k] < m <==> AtLeast(s, m) < k
  {
    if s[0] >= m {
      AllAtLeast(s, m);
    } else if k < |s| {
      FromAbove(s[1..], k, m);
    } else {
      assert AtLeast(s[1..], m) <= |s| - 1;
    }
  }

  // ----- the cut -----

  /** Two tails of `k` weigh at most `alpha`. */
  predicate Fits(n: nat, alpha: real, k: nat) {
    2.0 * (Tail(n, k) as real) <= alpha * (Pow2(n) as real)
  }

  /** `k` is the furthest in the tails can be cut: no further tail fits. */
  ghost predicate IsCut(n: nat, alpha: real, k: nat) {
    && k <= n + 1 && (k > 0 ==> Fits(n, alpha, k))
    && (k <= n ==> !Fits(n, alpha, k + 1))
  }

  lemma Scale(x: real, y: real, d: real)
    requires d > 0.0
    ensures x < y <==> x * d < y * d
  {
  }

  lemma Weigh(t: real, d: real, alpha: real)
    requires d > 0.0
    ensures t / d > alpha / 2.0 <==> 2.0 * t > alpha * d
  {
    Scale(alpha / 2.0, t / d, d);
    assert (t / d) * d == t;
  }

  lemma AddOver(a: real, b: real, d: real)
    requires d > 0.0
    ensures a / d + b / d == (a + b) / d
  {
  }

  /** How many order statistics to leave out at each end. */
  method Cut(n: nat, alpha: real) returns (k: nat)
    ensures IsCut(n, alpha, k)
  {
    hide Choose, Pow2;
    var cumulative := 0.0;
    k := 0;
    ghost var d := Pow2(n) as real;
    for i := 0 to n + 1
      invariant k == i && cumulative == (Tail(n, i) as real) / d
      invariant i > 0 ==> Fits(n, alpha, i)
    {
      var p := (Choose(n, i) as real) / (Pow2(n) as real);
      AddOver(Tail(n, i) as real, Choose(n, i) as real, d);
      Weigh(Tail(n, i + 1) as real, d, alpha);
      assert Tail(n, i + 1) as real == Tail(n, i) as real + Choose(n, i) as real;
      if cumulative + p > alpha / 2.0 {
        return;
      }
      cumulative := cumulative + p;
      k := i + 1;
    }
  }

  /** The interval, or nothing where there is no value to answer with. */
  ghost predicate IsInterval(values: seq<real>, alpha: real, k: nat, interval: Option<(real, real)>) {
    var ordered, n := Sorted(values), |values|;
    if n == 0 then interval == None
    else if n < 6 then interval == Some((ordered[0], ordered[n - 1]))
    else
      && IsCut(n, alpha, k)
      && interval == if k == 0 then Some((ordered[0], ordered[n - 1]))
                     else if k <= n then Some((ordered[k - 1], ordered[n - k]))
                     else None
  }

  method FindInterval(values: seq<real>, alpha: real) returns (interval: Option<(real, real)>, ghost k: nat)
    ensures IsInterval(values, alpha, k, interval)
  {
    hide IsCut, Sorted;
    k := 0;
    var ordered := Sorted(values);
    var n := |ordered|;
    if n == 0 {
      return None, 0;
    }
    if n < 6 {
      return Some((ordered[0], ordered[n - 1])), 0;
    }
    var cut := Cut(n, alpha);
    CutInRange(n, alpha, cut);
    k := cut;
    if cut == 0 {
      return Some((ordered[0], ordered[n - 1])), k;
    }
    if cut > n {
      return None, k;
    }
    interval := Some((ordered[cut - 1], ordered[n - cut]));
  }

  lemma CutInRange(n: nat, alpha: real, k: nat)
    requires IsCut(n, alpha, k)
    ensures k <= n + 1
  {
  }

  // ----- what the interval is worth -----

  /** A cut that fits a proper level leaves the middle in. */
  lemma CutBeforeMiddle(n: nat, alpha: real, k: nat)
    requires 0.0 < alpha < 1.0 && (k > 0 ==> Fits(n, alpha, k))
    ensures 2 * k <= n
  {
    hide Tail, Pow2;
    if 2 * k > n {
      TailPastMiddle(n, k);
      TooHeavy(Tail(n, k), Pow2(n), alpha);
      assert false;
    }
  }

  lemma TooHeavy(t: nat, d: nat, alpha: real)
    requires d > 0 && 2 * t >= d && alpha < 1.0
    ensures 2.0 * (t as real) > alpha * (d as real)
  {
    Scale(alpha, 1.0, d as real);
    assert (2 * t) as real >= d as real;
  }

  function Median(ordered: seq<real>): real
    requires ordered != []
  {
    var n := |ordered|;
    if n % 2 == 1 then ordered[n / 2] else (ordered[n / 2 - 1] + ordered[n / 2]) / 2.0
  }

  /** The interval holds the sample's own median. */
  lemma HoldsMedian(values: seq<real>, alpha: real, k: nat, interval: Option<(real, real)>)
    requires values != [] && 0.0 < alpha < 1.0 && IsInterval(values, alpha, k, interval)
    ensures interval.Some? && interval.value.0 <= Median(Sorted(values)) <= interval.value.1
  {
    hide Sorted, Fits;
    SortedInOrder(values);
    if |values| >= 6 {
      CutBeforeMiddle(|values|, alpha, k);
    }
  }

  /** A pattern says of each value which side of `m` it is on; a value at `m` may be either. */
  ghost predicate Describes(p: Signs, values: seq<real>, m: real) {
    && |p| == |values|
    && forall i :: 0 <= i < |p| ==> (values[i] < m ==> p[i]) && (values[i] > m ==> !p[i])
  }

  lemma {:induction false} DescribesCounts(p: Signs, values: seq<real>, m: real)
    requires Describes(p, values, m)
    ensures Trues(p) <= AtMost(values, m) && |p| - Trues(p) <= AtLeast(values, m)
    ensures m !in values ==> Trues(p) == AtMost(values, m) && |p| - Trues(p) == AtLeast(values, m)
  {
    if p != [] {
      DescribesCounts(p[1..], values[1..], m);
    }
  }

  /** How many values are cut from each end, counting the one that bounds the interval. */
  function CutUsed(n: nat, k: nat): nat {
    if n < 6 || k == 0 then 1 else k
  }

  lemma IntervalIs(values: seq<real>, alpha: real, k: nat, interval: Option<(real, real)>)
    requires values != [] && 0.0 < alpha < 1.0 && IsInterval(values, alpha, k, interval)
    ensures var n, e := |values|, CutUsed(|values|, k);
            0 < e <= n && n >= 2 * e - 1 && interval == Some((Sorted(values)[e - 1], Sorted(values)[n - e]))
  {
    hide Sorted, Fits;
    if |values| >= 6 && k > 0 { CutBeforeMiddle(|values|, alpha, k); }
  }

  /**
   The interval misses `m` only under a lopsided pattern, and under each of them where no
   value is at `m` itself.
   */
  lemma MissesWhenLopsided(values: seq<real>, alpha: real, k: nat, interval: Option<(real, real)>, m: real, p: Signs)
    requires values != [] && 0.0 < alpha < 1.0 && IsInterval(values, alpha, k, interval)
    requires Describes(p, values, m)
    ensures interval.Some?
    ensures !(interval.value.0 <= m <= interval.value.1) ==> p in Lopsided(|values|, CutUsed(|values|, k))
    ensures m !in values && p in Lopsided(|values|, CutUsed(|values|, k)) ==> !(interval.value.0 <= m <= interval.value.1)
  {
    hide Sorted, Lopsided, Trues, AtMost, AtLeast, IsInterval, CutUsed;
    IntervalIs(values, alpha, k, interval);
    var ordered, n, e := Sorted(values), |values|, CutUsed(|values|, k);
    SortedInOrder(values);
    SortedCounts(values, m);
    FromBelow(ordered, e, m);
    FromAbove(ordered, e, m);
    DescribesCounts(p, values, m);
    InLopsided(n, e, p);
  }

  /** The lopsided patterns are at most an `alpha` part of all just when the tail fits. */
  lemma LopsidedIsRare(n: nat, alpha: real, k: nat)
    requires n >= 2 * k - 1
    ensures |Lopsided(n, k)| == 2 * Tail(n, k) && Lopsided(n, k) <= All(n)
    ensures |Lopsided(n, k)| as real <= alpha * (|All(n)| as real) <==> Fits(n, alpha, k)
  {
    hide Few, All, Tail, Pow2, Trues, FlipAll;
    FewCount(n, k);
    FlipCount(Few(n, k));
    forall p | p in Few(n, k)
      ensures p !in FlipAll(Few(n, k))
    {
      FewIsNotFlipped(n, k, p);
    }
    AllCount(n);
    forall p | p in Lopsided(n, k)
      ensures p in All(n)
    {
      InLopsided(n, k, p);
      InAll(n, p);
    }
    assert |Lopsided(n, k)| == |Few(n, k)| + |FlipAll(Few(n, k))|;
    assert |Lopsided(n, k)| as real == 2.0 * (Tail(n, k) as real);
  }

  /** No pattern has too few below and too few above at once. */
  lemma FewIsNotFlipped(n: nat, k: nat, p: Signs)
    requires n >= 2 * k - 1 && p in Few(n, k)
    ensures p !in FlipAll(Few(n, k))
  {
    hide Few, Trues;
    InFew(n, k, p);
    if p in FlipAll(Few(n, k)) {
      var q :| q in Few(n, k) && p == Flipped(q);
      InFew(n, k, q);
      FlipTrues(q);
    }
  }

  /** Some sample that lies about `m` as `p` says has an interval that misses `m`. */
  ghost predicate MissedUnder(p: Signs, alpha: real, k: nat, m: real) {
    exists values, interval: Option<(real, real)> ::
      && Describes(p, values, m) && IsInterval(values, alpha, k, interval)
      && !(interval.Some? && interval.value.0 <= m <= interval.value.1)
  }

  /** A sample one to either side of `m`, as `p` says. */
  function Around(p: Signs, m: real): (values: seq<real>)
    ensures |values| == |p| && forall i :: 0 <= i < |p| ==> values[i] == if p[i] then m - 1.0 else m + 1.0
  {
    seq(|p|, i requires 0 <= i < |p| => if p[i] then m - 1.0 else m + 1.0)
  }

  lemma LopsidedMisses(p: Signs, alpha: real, k: nat, m: real)
    requires p != [] && 0.0 < alpha < 1.0 && (|p| >= 6 ==> IsCut(|p|, alpha, k)) && p in Lopsided(|p|, CutUsed(|p|, k))
    ensures MissedUnder(p, alpha, k, m)
  {
    hide Sorted, Fits, Lopsided;
    var values := Around(p, m);
    if |p| >= 6 && k > 0 { CutBeforeMiddle(|p|, alpha, k); }
    var e := CutUsed(|p|, k);
    var interval := Some((Sorted(values)[e - 1], Sorted(values)[|p| - e]));
    assert Describes(p, values, m) && m !in values;
    assert IsInterval(values, alpha, k, interval);
    MissesWhenLopsided(values, alpha, k, interval, m, p);
  }

  lemma MissedIsLopsided(p: Signs, alpha: real, k: nat, m: real)
    requires p != [] && 0.0 < alpha < 1.0 && MissedUnder(p, alpha, k, m)
    ensures p in Lopsided(|p|, CutUsed(|p|, k))
  {
    hide IsInterval, Lopsided;
    var values, interval: Option<(real, real)> :|
      && Describes(p, values, m) && IsInterval(values, alpha, k, interval)
      && !(interval.Some? && interval.value.0 <= m <= interval.value.1);
    MissesWhenLopsided(values, alpha, k, interval, m, p);
  }

  /**
   Of the two to the `n` ways a sample can lie about the true median `m`, those under which
   the interval can miss it are exactly the lopsided ones. They are at most an `alpha` part
   of all where a cut was found; where the extremes are returned, just when two are.
   */
  lemma Coverage(n: nat, alpha: real, k: nat, m: real)
    requires n > 0 && 0.0 < alpha < 1.0 && (n >= 6 ==> IsCut(n, alpha, k))
    ensures var missed := set p | p in All(n) && MissedUnder(p, alpha, k, m);
            && missed == Lopsided(n, CutUsed(n, k))
            && (|missed| as real <= alpha * (Pow2(n) as real) <==>
                if n >= 6 then k > 0 else 2.0 <= alpha * (Pow2(n) as real))
  {
    hide All, Lopsided, Fits, Tail, Pow2, IsCut, IsInterval, Describes;
    var e := CutUsed(n, k);
    CutFits(n, alpha, k);
    LopsidedIsRare(n, alpha, e);
    AllCount(n);
    forall p | p in All(n)
      ensures MissedUnder(p, alpha, k, m) <==> p in Lopsided(n, e)
    {
      InAll(n, p);
      if p in Lopsided(n, e) {
        LopsidedMisses(p, alpha, k, m);
      }
      if MissedUnder(p, alpha, k, m) {
        MissedIsLopsided(p, alpha, k, m);
      }
    }
    assert (set p | p in All(n) && MissedUnder(p, alpha, k, m)) == Lopsided(n, e);
  }

  /** The tail of the cut that is used fits where the search found it, and that of the extremes where two do. */
  lemma CutFits(n: nat, alpha: real, k: nat)
    requires n > 0 && 0.0 < alpha < 1.0 && (n >= 6 ==> IsCut(n, alpha, k))
    ensures n >= 2 * CutUsed(n, k) - 1
    ensures Fits(n, alpha, CutUsed(n, k)) <==> if n >= 6 then k > 0 else 2.0 <= alpha * (Pow2(n) as real)
  {
    if n >= 6 && k > 0 { CutBeforeMiddle(n, alpha, k); }
    assert Tail(n, 1) == Choose(n, 0) == 1;
  }

  /** The median stands between the two middle values, as far above the one as below the other. */
  lemma MedianMeans(ordered: seq<real>)
    requires ordered != []
    ensures var low, high := ordered[(|ordered| - 1) / 2], ordered[|ordered| / 2];
            Median(ordered) - low == high - Median(ordered)
  {
  }
}
