/**
 Get_CalibrationValue: ten samples, bubble-sorted in place, and the rounded mean of the middle six.
 */
module AdcCalibration {

  const WRAP := 0x1_0000

  predicate Sorted(s: seq<int>) {
    forall i, j :: 0 <= i < j < |s| ==> s[i] <= s[j]
  }

  predicate Permutation(s: seq<int>, t: seq<int>) {
    multiset(s) == multiset(t)
  }

  /** How many samples lie in [lo, hi]. */
  function Count(s: seq<int>, lo: int, hi: int): nat {
    if s == [] then 0 else (if lo <= s[0] <= hi then 1 else 0) + Count(s[1..], lo, hi)
  }

  /** The sum of all samples. */
  function Total(s: seq<int>): int {
    if s == [] then 0 else s[0] + Total(s[1..])
  }

  function MiddleSum(s: seq<int>): int
    requires |s| == 10
  {
    s[2] + s[3] + s[4] + s[5] + s[6] + s[7]
  }

  /** The integer nearest to t / 6, the greater of the two where two are as near. */
  predicate IsNearestSixth(m: int, t: int) {
    6 * m - 3 <= t < 6 * m + 3
  }

  // ----- Facts about permutations

  lemma CountConcat(s: seq<int>, t: seq<int>, lo: int, hi: int)
    ensures Count(s + t, lo, hi) == Count(s, lo, hi) + Count(t, lo, hi)
  {
    if s == [] {
      assert s + t == t;
    } else {
      CountConcat(s[1..], t, lo, hi);
      assert (s + t)[1..] == s[1..] + t;
    }
  }

  /** A permutation of a nonempty sequence with the first element of the other taken out of both. */
  lemma TakeOut(s: seq<int>, t: seq<int>) returns (k: nat)
    requires s != [] && Permutation(s, t)
    ensures k < |t| && t[k] == s[0] && Permutation(s[1..], t[..k] + t[k + 1..])
  {
    assert s == [s[0]] + s[1..];
    assert s[0] in multiset(t);
    k :| 0 <= k < |t| && t[k] == s[0];
    assert t == t[..k] + [t[k]] + t[k + 1..];
    assert multiset(s) == multiset{s[0]} + multiset(s[1..]);
    assert multiset(t) == multiset(t[..k] + t[k + 1..]) + multiset{s[0]};
    assert multiset(s[1..]) == multiset(s) - multiset{s[0]};
  }

  lemma {:induction false} CountPermutation(s: seq<int>, t: seq<int>, lo: int, hi: int)
    requires Permutation(s, t)
    ensures Count(s, lo, hi) == Count(t, lo, hi)
    decreases |s|
  {
    if s == [] {
      assert |multiset(t)| == |t|;
    } else {
      var k := TakeOut(s, t);
      CountPermutation(s[1..], t[..k] + t[k + 1..], lo, hi);
      CountConcat(t[..k], t[k + 1..], lo, hi);
      CountConcat(t[..k], [t[k]] + t[k + 1..], lo, hi);
      assert t == t[..k] + ([t[k]] + t[k + 1..]);
      assert ([t[k]] + t[k + 1..])[1..] == t[k + 1..];
    }
  }

  /** The places where a sample lies in [lo, hi]. */
  function Places(s: seq<int>, lo: int, hi: int): set<int> {
    set k | 0 <= k < |s| && lo <= s[k] <= hi
  }

  /** Count counts them. */
  lemma {:induction false} CountIsSize(s: seq<int>, lo: int, hi: int)
    ensures Count(s, lo, hi) == |Places(s, lo, hi)|
  {
    if s != [] {
      var n := |s| - 1;
      assert s == s[..n] + [s[n]];
      CountConcat(s[..n], [s[n]], lo, hi);
      CountIsSize(s[..n], lo, hi);
      assert Places(s, lo, hi) == Places(s[..n], lo, hi) + if lo <= s[n] <= hi then {n} else {};
    }
  }

  lemma TotalConcat(s: seq<int>, t: seq<int>)
    ensures Total(s + t) == Total(s) + Total(t)
  {
    if s == [] {
      assert s + t == t;
    } else {
      TotalConcat(s[1..], t);
      assert (s + t)[1..] == s[1..] + t;
    }
  }

  lemma {:induction false} TotalPermutation(s: seq<int>, t: seq<int>)
    requires Permutation(s, t)
    ensures Total(s) == Total(t)
    decreases |s|
  {
    if s == [] {
      assert |multiset(t)| == |t|;
    } else {
      var k := TakeOut(s, t);
      TotalPermutation(s[1..], t[..k] + t[k + 1..]);
      TotalConcat(t[..k], t[k + 1..]);
      TotalConcat(t[..k], [t[k]] + t[k + 1..]);
      assert t == t[..k] + ([t[k]] + t[k + 1..]);
      assert ([t[k]] + t[k + 1..])[1..] == t[k + 1..];
    }
  }

  lemma LeastIsFirst(s: seq<int>, t: seq<int>)
    requires s != [] && Sorted(s) && Permutation(s, t)
    ensures t != [] && s[0] <= t[0]
  {
    var k := TakeOut(s, t);
    assert t[0] in multiset(s);
  }

  lemma SameTails(s: seq<int>, t: seq<int>)
    requires s != [] && t != [] && s[0] == t[0] && Permutation(s, t)
    ensures Permutation(s[1..], t[1..])
  {
    assert s == [s[0]] + s[1..] && t == [t[0]] + t[1..];
    assert multiset(s[1..]) == multiset(s) - multiset{s[0]};
    assert multiset(t[1..]) == multiset(t) - multiset{t[0]};
  }

  /** Only one sorted sequence holds given samples. */
  lemma {:induction false} SortedUnique(s: seq<int>, t: seq<int>)
    requires Sorted(s) && Sorted(t) && Permutation(s, t)
    ensures s == t
    decreases |s|
  {
    if s == [] {
      assert |multiset(t)| == |t|;
    } else {
      LeastIsFirst(s, t);
      LeastIsFirst(t, s);
      SameTails(s, t);
      SortedUnique(s[1..], t[1..]);
      assert s == [s[0]] + s[1..] && t == [t[0]] + t[1..];
    }
  }

  // ----- The sort

  /** The samples after two neighbours have been compared and perhaps exchanged. */
  function Compared(s: seq<int>, j: int): (r: seq<int>)
    requires 0 <= j < |s| - 1
    ensures Permutation(s, r) && |r| == |s|
  {
    if s[j] > s[j + 1] then s[j := s[j + 1]][j + 1 := s[j]] else s
  }

  /** The last `i` places hold their final samples. */
  predicate Settled(s: seq<int>, i: int) {
    forall a, b :: 0 <= a < b < |s| && |s| - i <= b ==> s[a] <= s[b]
  }

  /** Where the pass that settles place |s| - 1 - i has compared the places before `j`: sample `j` is the greatest so
      far. */
  predicate Passing(s: seq<int>, i: int, j: int) {
    && 0 <= j < |s|
    && Settled(s, i)
    && (forall a :: 0 <= a < j ==> s[a] <= s[j])
    && (|s| - 1 - i <= j ==> Settled(s, i + 1))
  }

  lemma PassingStep(s: seq<int>, i: int, j: int)
    requires 0 <= i < |s| && 0 <= j < |s| - 1 && Passing(s, i, j)
    ensures Passing(Compared(s, j), i, j + 1)
  {
  }

  method CompareAt(buf: array<int>, j: int)
    requires 0 <= j < buf.Length - 1
    modifies buf
    ensures buf[..] == Compared(old(buf[..]), j)
  {
    if buf[j] > buf[j + 1] {
      var t := buf[j];
      buf[j] := buf[j + 1];
      buf[j + 1] := t;
    }
  }

  /** One pass of the inner loop. */
  method Pass(buf: array<int>, i: int)
    requires 0 <= i < buf.Length && Settled(buf[..], i)
    modifies buf
    ensures Settled(buf[..], i + 1) && Permutation(old(buf[..]), buf[..])
  {
    var j := 0;
    while j < buf.Length - 1
      invariant Passing(buf[..], i, j) && Permutation(old(buf[..]), buf[..])
    {
      PassingStep(buf[..], i, j);
      CompareAt(buf, j);
      j := j + 1;
    }
  }

  /** The two loops, which sort a buffer of any size. */
  method Sort(buf: array<int>)
    modifies buf
    ensures Sorted(buf[..]) && Permutation(old(buf[..]), buf[..])
  {
    var i := 0;
    while i < buf.Length
      invariant 0 <= i <= buf.Length && Settled(buf[..], i) && Permutation(old(buf[..]), buf[..])
    {
      Pass(buf, i);
      i := i + 1;
    }
  }

  // ----- The value

  function Distance(a: int, b: int): nat {
    if a <= b then b - a else a - b
  }

  /** No other integer is nearer to a sixth of `t`, and no greater one as near. */
  lemma NearestExactly(m: int, t: int)
    ensures IsNearestSixth(m, t) <==>
      forall n: int | n != m :: Distance(6 * m, t) < Distance(6 * n, t) + if n < m then 1 else 0
  {
    if !IsNearestSixth(m, t) {
      assert Distance(6 * (m - 1), t) < Distance(6 * m, t) || Distance(6 * (m + 1), t) <= Distance(6 * m, t);
    }
  }

  lemma RoundedIsNearest(t: nat)
    ensures IsNearestSixth(t / 6 + (t % 6) / 3, t)
  {
  }

  /** The offset for samples that sort to `s`: 2048 minus the rounded mean of the middle six, whose sum wraps at 16
      bits. */
  predicate IsOffset(value: int, s: seq<int>)
    requires |s| == 10
  {
    IsNearestSixth(2048 - value, MiddleSum(s) % WRAP)
  }

  /** The loop that adds up the middle six. */
  method AddMiddle(buf: array<int>) returns (t: int)
    requires buf.Length == 10
    ensures t == MiddleSum(buf[..]) % WRAP
  {
    t := 0;
    ghost var sum := [0, buf[2], buf[2] + buf[3], buf[2] + buf[3] + buf[4], buf[2] + buf[3] + buf[4] + buf[5],
                      buf[2] + buf[3] + buf[4] + buf[5] + buf[6], MiddleSum(buf[..])];
    var i := 0;
    while i < 6
      invariant 0 <= i <= 6 && t == sum[i] % WRAP
    {
      assert sum[i + 1] == sum[i] + buf[i + 2];
      t := (t + buf[i + 2]) % WRAP;
      i := i + 1;
    }
  }

  /** The samples in order. */
  ghost predicate SortedForm(samples: seq<int>, s: seq<int>) {
    |s| == 10 && Sorted(s) && Permutation(samples, s)
  }

  ghost predicate IsCalibration(value: int, samples: seq<int>) {
    exists s :: SortedForm(samples, s) && IsOffset(value, s)
  }

  /** Get_CalibrationValue on the ten values the converter delivers. */
  method CalibrationValue(samples: seq<int>) returns (value: int)
    requires |samples| == 10 && forall i :: 0 <= i < 10 ==> 0 <= samples[i] < WRAP
    ensures IsCalibration(value, samples)
  {
    var buf := new int[10];
    var i := 0;
    while i < 10
      invariant 0 <= i <= 10 && buf[..i] == samples[..i]
    {
      buf[i] := samples[i];
      i := i + 1;
    }
    assert buf[..] == samples;
    Sort(buf);
    var t := AddMiddle(buf);
    RoundedIsNearest(t);
    t := t / 6 + (t % 6) / 3;
    value := 2048 - t;
    assert SortedForm(samples, buf[..]) && IsOffset(value, buf[..]);
  }

  /** Every order of the same samples gives the same value. */
  lemma OrderIndependent(samples: seq<int>, others: seq<int>, v: int, w: int)
    requires Permutation(samples, others) && IsCalibration(v, samples) && IsCalibration(w, others)
    ensures v == w
  {
    var s :| SortedForm(samples, s) && IsOffset(v, s);
    var o :| SortedForm(others, o) && IsOffset(w, o);
    SortedUnique(s, o);
  }

  /** The mean is right exactly when the sum fits in 16 bits. */
  lemma RightUnlessWrapped(s: seq<int>, value: int)
    requires |s| == 10 && IsOffset(value, s) && 0 <= MiddleSum(s)
    ensures IsNearestSixth(2048 - value, MiddleSum(s)) <==> MiddleSum(s) < 0x1_0000
  {
  }

  lemma BelowUncounted(s: seq<int>, lo: int, hi: int, n: nat)
    requires n <= |s| && forall i :: 0 <= i < n ==> s[i] < lo || hi < s[i]
    ensures Count(s, lo, hi) <= |s| - n
  {
    if s != [] {
      BelowUncounted(s[1..], lo, hi, if n == 0 then 0 else n - 1);
    }
  }

  lemma AboveUncounted(s: seq<int>, lo: int, hi: int, n: nat)
    requires n <= |s| && forall i :: n <= i < |s| ==> s[i] < lo || hi < s[i]
    ensures Count(s, lo, hi) <= n
  {
    if s != [] {
      if n == 0 {
        AboveUncounted(s[1..], lo, hi, 0);
      } else {
        AboveUncounted(s[1..], lo, hi, n - 1);
      }
    }
  }

  lemma MiddleWithin(samples: seq<int>, s: seq<int>, lo: int, hi: int)
    requires |samples| == 10 && SortedForm(samples, s) && Count(samples, lo, hi) >= 8
    ensures lo <= s[2] <= s[3] <= s[4] <= s[5] <= s[6] <= s[7] <= hi
  {
    CountPermutation(samples, s, lo, hi);
    if s[2] < lo {
      BelowUncounted(s, lo, hi, 3);
    }
    if s[7] > hi {
      AboveUncounted(s, lo, hi, 7);
    }
  }

  lemma TwelveBits(samples: seq<int>, s: seq<int>)
    requires SortedForm(samples, s) && forall i :: 0 <= i < |samples| ==> 0 <= samples[i] < 4096
    ensures 0 <= MiddleSum(s) < WRAP
  {
    forall i | 0 <= i < 10
      ensures 0 <= s[i] < 4096
    {
      assert s[i] in multiset(s);
      assert s[i] in multiset(samples);
    }
  }

  lemma OffsetWithin(samples: seq<int>, s: seq<int>, value: int, lo: int, hi: int)
    requires |samples| == 10 && SortedForm(samples, s) && IsOffset(value, s) && Count(samples, lo, hi) >= 8
    requires forall i :: 0 <= i < 10 ==> 0 <= samples[i] < 4096
    ensures lo <= 2048 - value <= hi && IsNearestSixth(2048 - value, MiddleSum(s))
  {
    MiddleWithin(samples, s, lo, hi);
    TwelveBits(samples, s);
  }

  lemma TotalFrom(s: seq<int>, k: nat)
    requires k < |s|
    ensures Total(s[k..]) == s[k] + Total(s[k + 1..])
  {
    assert s[k..][1..] == s[k + 1..];
  }

  lemma TotalOfTen(s: seq<int>)
    requires |s| == 10
    ensures Total(s) == s[0] + s[1] + MiddleSum(s) + s[8] + s[9]
  {
    TotalFrom(s, 9);
    TotalFrom(s, 8);
    TotalFrom(s, 7);
    TotalFrom(s, 6);
    TotalFrom(s, 5);
    TotalFrom(s, 4);
    TotalFrom(s, 3);
    TotalFrom(s, 2);
    TotalFrom(s, 1);
    TotalFrom(s, 0);
    assert s[0..] == s;
  }

  /** For 12-bit samples: the mean is that of the sum of all ten less the two least and the two greatest. */
  lemma MeanOfMiddle(samples: seq<int>, value: int, s: seq<int>)
    requires |samples| == 10 && IsCalibration(value, samples) && SortedForm(samples, s)
    requires forall i :: 0 <= i < 10 ==> 0 <= samples[i] < 4096
    ensures IsNearestSixth(2048 - value, Total(samples) - s[0] - s[1] - s[8] - s[9])
  {
    MeanOfSorted(samples, value, s);
    MiddleOfTotal(samples, s);
  }

  lemma MeanOfSorted(samples: seq<int>, value: int, s: seq<int>)
    requires IsCalibration(value, samples) && SortedForm(samples, s)
    requires forall i :: 0 <= i < |samples| ==> 0 <= samples[i] < 4096
    ensures IsNearestSixth(2048 - value, MiddleSum(s))
  {
    var o :| SortedForm(samples, o) && IsOffset(value, o);
    SortedUnique(s, o);
    TwelveBits(samples, s);
    RightUnlessWrapped(s, value);
  }

  lemma MiddleOfTotal(samples: seq<int>, s: seq<int>)
    requires SortedForm(samples, s)
    ensures MiddleSum(s) == Total(samples) - s[0] - s[1] - s[8] - s[9]
  {
    TotalPermutation(samples, s);
    TotalOfTen(s);
  }

  /** Two wild samples do no harm: if at least eight of ten 12-bit samples lie in [lo, hi], then nothing wraps, the
      value is that of the true mean, and that lies in [lo, hi] too. */
  lemma OutlierProof(samples: seq<int>, value: int, lo: int, hi: int)
    requires |samples| == 10 && IsCalibration(value, samples) && Count(samples, lo, hi) >= 8
    requires forall i :: 0 <= i < 10 ==> 0 <= samples[i] < 4096
    ensures lo <= 2048 - value <= hi
    ensures forall s :: SortedForm(samples, s) ==> IsNearestSixth(2048 - value, MiddleSum(s))
  {
    var s :| SortedForm(samples, s) && IsOffset(value, s);
    OffsetWithin(samples, s, value, lo, hi);
    forall o | SortedForm(samples, o)
      ensures IsNearestSixth(2048 - value, MiddleSum(o))
    {
      SortedUnique(s, o);
    }
  }
}
