/** Lists of block runs, and what makes one the maximal ascending enumeration of a set of blocks. */
module Runs {
  import opened Results
  import opened Bytes

  datatype Run = Run(first: nat, len: nat) {
    predicate Has(b: int) {
      first <= b < first + len
    }
    function End(): nat {
      first + len
    }
  }

  function Init(runs: seq<Run>): seq<Run>
    requires runs != []
  {
    runs[..|runs| - 1]
  }

  function Last(runs: seq<Run>): Run
    requires runs != []
  {
    runs[|runs| - 1]
  }

  /** Block b is in one of the runs. */
  predicate InRuns(runs: seq<Run>, b: int)
    decreases |runs|
  {
    runs != [] && (Last(runs).Has(b) || InRuns(Init(runs), b))
  }

  /** Every run ends at or below the bound, for a list in ascending order. */
  predicate EndsBy(runs: seq<Run>, bound: nat) {
    runs == [] || Last(runs).End() <= bound
  }

  /** Non-empty runs, ascending, and with a gap between neighbours: so disjoint, and no two could be merged. */
  predicate Maximal(runs: seq<Run>)
    decreases |runs|
  {
    runs == [] || (Last(runs).len > 0 && Maximal(Init(runs)) && (Init(runs) == [] || Last(Init(runs)).End() < Last(runs).first))
  }

  function TotalLen(runs: seq<Run>): nat
    decreases |runs|
  {
    if runs == [] then 0 else TotalLen(Init(runs)) + Last(runs).len
  }

  lemma {:induction false} Snoc(runs: seq<Run>, r: Run)
    ensures Init(runs + [r]) == runs && Last(runs + [r]) == r
  {
  }

  lemma {:induction false} InBelow(runs: seq<Run>, bound: nat, b: int)
    requires Maximal(runs) && EndsBy(runs, bound) && InRuns(runs, b)
    ensures 0 <= b < bound
    decreases |runs|
  {
    if !Last(runs).Has(b) {
      InBelow(Init(runs), Last(runs).first, b);
    }
  }

  // ---------- the definitions say what they should ----------

  /** Membership and maximality, position by position. */
  lemma {:induction false} InByPosition(runs: seq<Run>, b: int)
    ensures InRuns(runs, b) <==> exists i :: 0 <= i < |runs| && runs[i].Has(b)
    decreases |runs|
  {
    if runs != [] {
      InByPosition(Init(runs), b);
      if InRuns(Init(runs), b) {
        var i :| 0 <= i < |Init(runs)| && Init(runs)[i].Has(b);
        assert runs[i].Has(b);
      }
      forall i | 0 <= i < |runs| - 1 && runs[i].Has(b) ensures InRuns(runs, b) {
        assert Init(runs)[i].Has(b);
      }
    }
  }

  lemma {:induction false} MaximalByPosition(runs: seq<Run>, i: nat, j: nat)
    requires Maximal(runs) && i < j < |runs|
    ensures runs[i].len > 0 && runs[j].len > 0 && runs[i].End() < runs[j].first
    decreases |runs|
  {
    if j < |runs| - 1 {
      MaximalByPosition(Init(runs), i, j);
    } else if i < j - 1 {
      MaximalByPosition(Init(runs), i, j - 1);
    }
  }

  /** The blocks of a run list below a bound. */
  ghost function Blocks(runs: seq<Run>, bound: nat): set<int> {
    set b: int | 0 <= b < bound && InRuns(runs, b)
  }

  ghost function Interval(lo: nat, hi: nat): (s: set<int>)
    requires lo <= hi
    ensures forall b: int :: b in s <==> lo <= b < hi
    ensures |s| == hi - lo
    decreases hi - lo
  {
    if lo == hi then {} else Interval(lo, hi - 1) + {hi - 1}
  }

  /** The lengths of a maximal run list add up to the number of blocks in it. */
  lemma {:induction false} LengthsCount(runs: seq<Run>, bound: nat)
    requires Maximal(runs) && EndsBy(runs, bound)
    ensures TotalLen(runs) == |Blocks(runs, bound)|
    decreases |runs|
  {
    if runs == [] {
      assert Blocks(runs, bound) == {};
    } else {
      var r := Last(runs);
      LengthsCount(Init(runs), r.first);
      var a, c := Blocks(Init(runs), r.first), Interval(r.first, r.End());
      assert Blocks(runs, bound) == a + c by {
        forall b: int ensures b in Blocks(runs, bound) <==> b in a + c {
          if InRuns(Init(runs), b) {
            InBelow(Init(runs), r.first, b);
          }
        }
      }
    }
  }

  /** There is only one maximal run list for a set of blocks. */
  lemma {:induction false} MaximalUnique(a: seq<Run>, b: seq<Run>)
    requires Maximal(a) && Maximal(b) && forall x :: InRuns(a, x) <==> InRuns(b, x)
    ensures a == b
    decreases |a|
  {
    if a != [] && b != [] {
      LastNotBelow(a, b);
      LastNotBelow(b, a);
      LastNotLonger(a, b);
      LastNotLonger(b, a);
      forall x ensures InRuns(Init(a), x) <==> InRuns(Init(b), x) {
        InitBefore(a, x);
        InitBefore(b, x);
      }
      MaximalUnique(Init(a), Init(b));
      assert a == Init(a) + [Last(a)] && b == Init(b) + [Last(b)];
    } else if a != [] {
      assert InRuns(a, Last(a).first);
    } else if b != [] {
      assert InRuns(b, Last(b).first);
    }
  }

  lemma {:induction false} InitBefore(a: seq<Run>, x: int)
    requires a != [] && Maximal(a)
    ensures InRuns(Init(a), x) <==> InRuns(a, x) && x < Last(a).first
  {
    if InRuns(Init(a), x) {
      InBelow(Init(a), Last(a).first, x);
    }
  }

  lemma {:induction false} LastNotBelow(a: seq<Run>, b: seq<Run>)
    requires a != [] && b != [] && Maximal(a) && Maximal(b) && forall x :: InRuns(a, x) <==> InRuns(b, x)
    ensures Last(a).End() <= Last(b).End()
  {
    var x := Last(a).End() - 1;
    assert InRuns(a, x);
    InBelow(b, Last(b).End(), x);
  }

  lemma {:induction false} LastNotLonger(a: seq<Run>, b: seq<Run>)
    requires a != [] && b != [] && Maximal(a) && Maximal(b) && forall x :: InRuns(a, x) <==> InRuns(b, x)
    requires Last(a).End() == Last(b).End()
    ensures Last(a).first >= Last(b).first
  {
    var x := Last(b).first - 1;
    assert !InRuns(b, x) by {
      InitBefore(b, x);
      if InRuns(b, x) {
        InBelow(Init(b), Last(Init(b)).End(), x);
      }
    }
    assert !Last(a).Has(x);
  }

  // ---------- scanning for runs ----------

  /** One position further: open a run, close it, or carry on. */
  function ScanRuns(free: nat -> bool, i: nat, runs: seq<Run>, start: Option<nat>): seq<Run>
    requires start.Some? ==> start.value <= i
  {
    if !free(i) && start.Some? then runs + [Run(start.value, i - start.value)] else runs
  }

  function ScanStart(free: nat -> bool, i: nat, start: Option<nat>): Option<nat> {
    if !free(i) then None else if start.Some? then start else Some(i)
  }

  /** The runs of positions satisfying `free` among i..n-1, after those already found. */
  function Scan(free: nat -> bool, n: nat, i: nat, runs: seq<Run>, start: Option<nat>): seq<Run>
    requires i <= n && (start.Some? ==> start.value <= i)
    decreases n - i
  {
    if i == n then (if start.Some? then runs + [Run(start.value, n - start.value)] else runs)
    else Scan(free, n, i + 1, ScanRuns(free, i, runs, start), ScanStart(free, i, start))
  }

  /** The state of a scan at i: closed runs strictly before the open one, together exactly the free positions so far. */
  ghost predicate Scanned(free: nat -> bool, i: nat, runs: seq<Run>, start: Option<nat>) {
    && Maximal(runs) && EndsBy(runs, i)
    && (start.Some? ==> start.value < i && (runs == [] || Last(runs).End() < start.value))
    && (start.None? ==> runs == [] || Last(runs).End() < i)
    && forall b :: 0 <= b < i ==> (free(b) <==> InRuns(runs, b) || (start.Some? && start.value <= b))
  }

  lemma {:induction false} ScanStep(free: nat -> bool, i: nat, runs: seq<Run>, start: Option<nat>)
    requires Scanned(free, i, runs, start)
    ensures Scanned(free, i + 1, ScanRuns(free, i, runs, start), ScanStart(free, i, start))
  {
    var runs', start' := ScanRuns(free, i, runs, start), ScanStart(free, i, start);
    if !free(i) && start.Some? {
      Snoc(runs, Run(start.value, i - start.value));
    }
    if InRuns(runs, i) {
      InBelow(runs, i, i);
    }
  }

  lemma {:induction false} ScanExact(free: nat -> bool, n: nat, i: nat, runs: seq<Run>, start: Option<nat>)
    requires i <= n && Scanned(free, i, runs, start)
    ensures var out := Scan(free, n, i, runs, start);
            Maximal(out) && EndsBy(out, n) && forall b :: 0 <= b < n ==> (InRuns(out, b) <==> free(b))
    decreases n - i
  {
    if i == n {
      if start.Some? {
        Snoc(runs, Run(start.value, n - start.value));
      }
    } else {
      ScanStep(free, i, runs, start);
      ScanExact(free, n, i + 1, ScanRuns(free, i, runs, start), ScanStart(free, i, start));
    }
  }

  // ---------- appending with coalescing ----------

  /** `push_free_run`: append, or extend the last run when physically contiguous. */
  function Push(runs: seq<Run>, first: nat, len: nat): seq<Run> {
    if len == 0 then runs
    else if runs != [] && Saturated(Last(runs).End()) == first then Init(runs) + [Run(Last(runs).first, Saturated(Last(runs).len + len))]
    else runs + [Run(first, len)]
  }

  /** Pushing a run at or after the end keeps the list maximal. */
  lemma {:induction false} PushMaximal(runs: seq<Run>, first: nat, len: nat)
    requires Maximal(runs) && EndsBy(runs, first) && first + len < U64
    ensures Maximal(Push(runs, first, len)) && EndsBy(Push(runs, first, len), first + len)
  {
    if len > 0 {
      if runs != [] && Last(runs).End() == first {
        Snoc(Init(runs), Run(Last(runs).first, Last(runs).len + len));
      } else {
        Snoc(runs, Run(first, len));
      }
    }
  }

  /** Wherever the run lies, pushing adds exactly its blocks. */
  lemma {:induction false} PushHas(runs: seq<Run>, first: nat, len: nat, b: int)
    requires EndsBy(runs, U64 - 1) && first + len < U64
    ensures InRuns(Push(runs, first, len), b) <==> InRuns(runs, b) || first <= b < first + len
  {
    if len > 0 {
      if runs != [] && Last(runs).End() == first {
        Snoc(Init(runs), Run(Last(runs).first, Last(runs).len + len));
      } else {
        Snoc(runs, Run(first, len));
      }
    }
  }

  lemma {:induction false} PushEnds(runs: seq<Run>, first: nat, len: nat)
    requires EndsBy(runs, U64 - 1) && first + len < U64
    ensures EndsBy(Push(runs, first, len), U64 - 1)
  {
  }

  /** Push every run of `more`, shifted by `base`. */
  function PushAll(runs: seq<Run>, base: nat, more: seq<Run>): seq<Run>
    decreases |more|
  {
    if more == [] then runs else Push(PushAll(runs, base, Init(more)), base + Last(more).first, Last(more).len)
  }

  /** What the last of a maximal list leaves before it. */
  lemma {:induction false} BeforeLast(more: seq<Run>, size: nat)
    requires more != [] && Maximal(more) && EndsBy(more, size)
    ensures Maximal(Init(more)) && EndsBy(Init(more), Last(more).first) && Last(more).End() <= size
  {
  }

  lemma {:induction false} EndsLater(runs: seq<Run>, bound: nat, later: nat)
    requires EndsBy(runs, bound) && bound <= later
    ensures EndsBy(runs, later)
  {
  }

  lemma {:induction false} PushAllMaximal(runs: seq<Run>, base: nat, more: seq<Run>, size: nat)
    requires Maximal(runs) && EndsBy(runs, base) && Maximal(more) && EndsBy(more, size) && base + size < U64
    ensures Maximal(PushAll(runs, base, more)) && EndsBy(PushAll(runs, base, more), base + size)
    decreases |more|
  {
    if more == [] {
      EndsLater(runs, base, base + size);
    } else {
      BeforeLast(more, size);
      var r, before := Last(more), PushAll(runs, base, Init(more));
      PushAllMaximal(runs, base, Init(more), r.first);
      PushMaximal(before, base + r.first, r.len);
      EndsLater(Push(before, base + r.first, r.len), base + r.first + r.len, base + size);
    }
  }

  lemma {:induction false} PushAllHas(runs: seq<Run>, base: nat, more: seq<Run>, size: nat, b: int)
    requires EndsBy(runs, U64 - 1) && Maximal(more) && EndsBy(more, size) && base + size < U64
    ensures InRuns(PushAll(runs, base, more), b) <==> InRuns(runs, b) || InRuns(more, b - base)
    ensures EndsBy(PushAll(runs, base, more), U64 - 1)
    decreases |more|
  {
    if more != [] {
      BeforeLast(more, size);
      var r, before := Last(more), PushAll(runs, base, Init(more));
      PushAllHas(runs, base, Init(more), r.first, b);
      PushHas(before, base + r.first, r.len, b);
      PushEnds(before, base + r.first, r.len);
      InLast(more, b - base);
    }
  }

  lemma {:induction false} InLast(runs: seq<Run>, b: int)
    requires runs != []
    ensures InRuns(runs, b) <==> InRuns(Init(runs), b) || Last(runs).first <= b < Last(runs).End()
  {
  }
}
