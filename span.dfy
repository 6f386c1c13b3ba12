/**
 * `largestSpan`: the scan over adjacent records of one project's bucket, the
 * eleven date checks that set `duration`, the strict running maximum, the
 * years/weeks/days split; and `longestWorkingEmployeePair`, which applies the
 * scan to every bucket.
 *
 * Dates are epoch-day numbers (see module Employees). The report sentence is
 * not modelled: the scan returns its numbers.
 */
module Span {
  import opened JavaInt
  import opened Employees

  /** A Java reference that may be `null`. */
  datatype Option<T> = None | Some(value: T)

  /** `Duration.between(x.atStartOfDay(), y.atStartOfDay()).toDays()`. */
  function DaysBetween(x: int, y: int): int
  {
    y - x
  }

  function Min(x: int, y: int): int { if x <= y then x else y }
  function Max(x: int, y: int): int { if x <= y then y else x }

  // ---------------------------------------------------------------------------
  // The eleven checks, in the order the source applies them. Each names the
  // relation of the first interval to the second: how its start compares with
  // the second's start, then how its end compares with the second's end.

  datatype Check =
    | Disjoint                // Employee.java:153
    | Touching                // Employee.java:159
    | StartsBeforeEndsBefore  // Employee.java:165
    | StartsAfterEndsAfter    // Employee.java:171
    | StartsBeforeEndsAfter   // Employee.java:177
    | SameStartSameEnd        // Employee.java:183
    | SameStartEndsBefore     // Employee.java:189
    | StartsBeforeSameEnd     // Employee.java:195
    | StartsAfterEndsBefore   // Employee.java:201
    | StartsAfterSameEnd      // Employee.java:207
    | SameStartEndsAfter      // Employee.java:213

  /** -1, 0 or 1 as `x` is below, equal to or above `y`. */
  function Compare(x: int, y: int): int
  {
    if x < y then -1 else if x == y then 0 else 1
  }

  /** For a relation check, how its name says the first start compares with the second start. */
  function StartOrder(c: Check): int
  {
    match c
    case StartsBeforeEndsBefore | StartsBeforeEndsAfter | StartsBeforeSameEnd => -1
    case SameStartSameEnd | SameStartEndsBefore | SameStartEndsAfter => 0
    case _ => 1
  }

  /** For a relation check, how its name says the first end compares with the second end. */
  function EndOrder(c: Check): int
  {
    match c
    case StartsBeforeEndsBefore | SameStartEndsBefore | StartsAfterEndsBefore => -1
    case SameStartSameEnd | StartsBeforeSameEnd | StartsAfterSameEnd => 0
    case _ => 1
  }

  /**
   * The condition of check `c` for first record `a` and second record `b`.
   * A relation check fires exactly on the start and end comparison its name
   * gives; the disjoint and touching checks fire only on intervals that share
   * at most an end point.
   */
  predicate Fires(c: Check, a: Employee, b: Employee)
    ensures c in RelationChecks ==>
      (Fires(c, a, b) <==> StartOrder(c) == Compare(a.dateFrom, b.dateFrom) && EndOrder(c) == Compare(a.dateTo, b.dateTo))
    ensures c in EdgeChecks && Fires(c, a, b) ==> a.dateTo <= b.dateFrom || b.dateTo <= a.dateFrom
  {
    match c
    case Disjoint => a.dateTo < b.dateFrom || b.dateTo < a.dateFrom
    case Touching => a.dateTo == b.dateFrom || b.dateTo == a.dateFrom
    case StartsBeforeEndsBefore => a.dateFrom < b.dateFrom && a.dateTo < b.dateTo
    case StartsAfterEndsAfter => a.dateFrom > b.dateFrom && a.dateTo > b.dateTo
    case StartsBeforeEndsAfter => a.dateFrom < b.dateFrom && a.dateTo > b.dateTo
    case SameStartSameEnd => a.dateFrom == b.dateFrom && a.dateTo == b.dateTo
    case SameStartEndsBefore => a.dateFrom == b.dateFrom && a.dateTo < b.dateTo
    case StartsBeforeSameEnd => a.dateFrom < b.dateFrom && a.dateTo == b.dateTo
    case StartsAfterEndsBefore => a.dateFrom > b.dateFrom && a.dateTo < b.dateTo
    case StartsAfterSameEnd => a.dateFrom > b.dateFrom && a.dateTo == b.dateTo
    case SameStartEndsAfter => a.dateFrom == b.dateFrom && a.dateTo > b.dateTo
  }

  /**
   * The duration check `c` assigns when it fires, as each branch measures it.
   * Every branch measures from one of the two starts to one of the two ends;
   * a relation check that fires measures from the later start to the earlier
   * end, except the containment check, which measures from the first start.
   */
  function Measure(c: Check, a: Employee, b: Employee): (r: int)
    ensures r in {a.dateTo - a.dateFrom, a.dateTo - b.dateFrom, b.dateTo - a.dateFrom, b.dateTo - b.dateFrom}
    ensures c in RelationChecks && Fires(c, a, b) ==>
      r == if c == StartsBeforeEndsAfter then b.dateTo - a.dateFrom
           else Min(a.dateTo, b.dateTo) - Max(a.dateFrom, b.dateFrom)
  {
    match c
    case Disjoint => DaysBetween(a.dateFrom, b.dateTo)
    case Touching => DaysBetween(a.dateFrom, b.dateTo)
    case StartsBeforeEndsBefore => DaysBetween(b.dateFrom, a.dateTo)
    case StartsAfterEndsAfter => DaysBetween(a.dateFrom, b.dateTo)
    case StartsBeforeEndsAfter => DaysBetween(a.dateFrom, b.dateTo)
    case SameStartSameEnd => DaysBetween(a.dateFrom, a.dateTo)
    case SameStartEndsBefore => DaysBetween(a.dateFrom, a.dateTo)
    case StartsBeforeSameEnd => DaysBetween(b.dateFrom, b.dateTo)
    case StartsAfterEndsBefore => DaysBetween(a.dateFrom, a.dateTo)
    case StartsAfterSameEnd => DaysBetween(a.dateFrom, a.dateTo)
    case SameStartEndsAfter => DaysBetween(a.dateFrom, b.dateTo)
  }

  /** The two checks on disjoint and touching intervals. */
  const EdgeChecks: seq<Check> := [Disjoint, Touching]

  /** The nine checks on (start vs start) x (end vs end). */
  const RelationChecks: seq<Check> :=
    [StartsBeforeEndsBefore, StartsAfterEndsAfter, StartsBeforeEndsAfter,
     SameStartSameEnd, SameStartEndsBefore, StartsBeforeSameEnd,
     StartsAfterEndsBefore, StartsAfterSameEnd, SameStartEndsAfter]

  /** All eleven, in source order. */
  const Checks: seq<Check> := EdgeChecks + RelationChecks

  /**
   * A run of independent `if`s over the shared `duration`: every check that
   * fires overwrites it, one that does not leaves it as it was, so the last
   * check that fires decides the result.
   */
  function Run(cs: seq<Check>, duration: Option<int>, a: Employee, b: Employee): (r: Option<int>)
    ensures r == duration || exists i :: 0 <= i < |cs| && Fires(cs[i], a, b) && r == Some(Measure(cs[i], a, b))
    ensures (exists i :: 0 <= i < |cs| && Fires(cs[i], a, b)) ==> r.Some?
    decreases |cs|
  {
    if cs == [] then duration
    else
      var next := if Fires(cs[0], a, b) then Some(Measure(cs[0], a, b)) else duration;
      Run(cs[1..], next, a, b)
  }

  lemma {:induction false} RunAppend(p: seq<Check>, s: seq<Check>, d: Option<int>, a: Employee, b: Employee)
    ensures Run(p + s, d, a, b) == Run(s, Run(p, d, a, b), a, b)
    decreases |p|
  {
    if p == [] {
      assert p + s == s;
    } else {
      assert (p + s)[1..] == p[1..] + s;
      var next := if Fires(p[0], a, b) then Some(Measure(p[0], a, b)) else d;
      RunAppend(p[1..], s, next, a, b);
    }
  }

  /** The last check of a run that fires decides the result, whatever fired before it or came in. */
  lemma {:induction false} RunLastFiringWins(cs: seq<Check>, i: nat, d: Option<int>, a: Employee, b: Employee)
    requires i < |cs| && Fires(cs[i], a, b)
    requires forall j :: i < j < |cs| ==> !Fires(cs[j], a, b)
    ensures Run(cs, d, a, b) == Some(Measure(cs[i], a, b))
    decreases |cs|
  {
    var next := if Fires(cs[0], a, b) then Some(Measure(cs[0], a, b)) else d;
    if i == 0 {
      RunNoneFiring(cs[1..], next, a, b);
    } else {
      RunLastFiringWins(cs[1..], i - 1, next, a, b);
    }
  }

  /** When exactly one check of a run fires, the run ends with that check's value, whatever came before. */
  lemma {:induction false} RunSingleFiring(cs: seq<Check>, i: nat, d: Option<int>, a: Employee, b: Employee)
    requires i < |cs| && Fires(cs[i], a, b)
    requires forall j :: 0 <= j < |cs| && j != i ==> !Fires(cs[j], a, b)
    ensures Run(cs, d, a, b) == Some(Measure(cs[i], a, b))
    decreases |cs|
  {
    var next := if Fires(cs[0], a, b) then Some(Measure(cs[0], a, b)) else d;
    if i == 0 {
      RunNoneFiring(cs[1..], next, a, b);
    } else {
      RunSingleFiring(cs[1..], i - 1, next, a, b);
    }
  }

  /** A run in which nothing fires leaves `duration` untouched. */
  lemma {:induction false} RunNoneFiring(cs: seq<Check>, d: Option<int>, a: Employee, b: Employee)
    requires forall j :: 0 <= j < |cs| ==> !Fires(cs[j], a, b)
    ensures Run(cs, d, a, b) == d
    decreases |cs|
  {
    if cs != [] {
      RunNoneFiring(cs[1..], d, a, b);
    }
  }

  /** Which of the nine relation checks describes the pair. */
  function Classify(a: Employee, b: Employee): (c: Check)
    ensures c in RelationChecks && Fires(c, a, b)
  {
    if a.dateFrom < b.dateFrom then
      if a.dateTo < b.dateTo then StartsBeforeEndsBefore
      else if a.dateTo == b.dateTo then StartsBeforeSameEnd
      else StartsBeforeEndsAfter
    else if a.dateFrom == b.dateFrom then
      if a.dateTo < b.dateTo then SameStartEndsBefore
      else if a.dateTo == b.dateTo then SameStartSameEnd
      else SameStartEndsAfter
    else
      if a.dateTo < b.dateTo then StartsAfterEndsBefore
      else if a.dateTo == b.dateTo then StartsAfterSameEnd
      else StartsAfterEndsAfter
  }

  /** For any two records exactly one of the nine relation checks fires. */
  lemma ExactlyOneRelation(a: Employee, b: Employee)
    ensures forall j :: 0 <= j < |RelationChecks| ==> (Fires(RelationChecks[j], a, b) <==> RelationChecks[j] == Classify(a, b))
  {
  }

  /**
   * What the eleven checks leave in `duration`: the days from the later start
   * to the earlier end, except when the first interval strictly contains the
   * second, where the code measures from the first start to the second end.
   */
  function PairDuration(a: Employee, b: Employee): (r: int)
    ensures r == if a.dateFrom < b.dateFrom && a.dateTo > b.dateTo
                 then b.dateTo - a.dateFrom
                 else Min(a.dateTo, b.dateTo) - Max(a.dateFrom, b.dateFrom)
  {
    Measure(Classify(a, b), a, b)
  }

  /** The nine relation checks always assign, and always the same value, whatever `duration` held. */
  lemma RelationChecksDecide(d: Option<int>, a: Employee, b: Employee)
    ensures Run(RelationChecks, d, a, b) == Some(PairDuration(a, b))
  {
    var c := Classify(a, b);
    var i :| 0 <= i < |RelationChecks| && RelationChecks[i] == c;
    ExactlyOneRelation(a, b);
    RunSingleFiring(RelationChecks, i, d, a, b);
  }

  /** All eleven checks: `duration` is never left `null` or stale after them. */
  lemma ChecksAlwaysAssign(d: Option<int>, a: Employee, b: Employee)
    ensures Run(Checks, d, a, b) == Some(PairDuration(a, b))
  {
    RunAppend(EdgeChecks, RelationChecks, d, a, b);
    RelationChecksDecide(Run(EdgeChecks, d, a, b), a, b);
  }

  /**
   * Whatever the disjoint and touching checks assign is overwritten: the
   * eleven checks end as the nine relation checks alone do, from any value.
   */
  lemma EdgeChecksOverwritten(d: Option<int>, d': Option<int>, a: Employee, b: Employee)
    ensures Run(Checks, d, a, b) == Run(RelationChecks, d', a, b)
  {
    ChecksAlwaysAssign(d, a, b);
    RelationChecksDecide(d', a, b);
  }

  /** Disjoint well-formed intervals give a negative duration. */
  lemma DisjointIsNegative(a: Employee, b: Employee)
    requires WellFormed(a) && WellFormed(b)
    requires Fires(Disjoint, a, b)
    ensures PairDuration(a, b) < 0
  {
  }

  /** Touching well-formed intervals give a duration of zero. */
  lemma TouchingIsZero(a: Employee, b: Employee)
    requires WellFormed(a) && WellFormed(b)
    requires Fires(Touching, a, b)
    ensures PairDuration(a, b) == 0
  {
  }

  // ---------------------------------------------------------------------------
  // The scan.

  /** `(int) duration.toDays()`: the pair's day count as the loop reads it. */
  function PairDays(a: Employee, b: Employee): (r: int)
    ensures IsInt32(r)
    ensures IsInt32(PairDuration(a, b)) ==> r == PairDuration(a, b)
  {
    ToInt32(PairDuration(a, b))
  }

  /** Dates close enough together that every day difference fits a Java `int`. */
  predicate InIntRange(e: Employee)
  {
    -0x4000_0000 <= e.dateFrom < 0x4000_0000 && -0x4000_0000 <= e.dateTo < 0x4000_0000
  }

  /** The pair recorded so far and its day count. */
  datatype SpanResult = SpanResult(firstId: int, secondId: int, maxDays: int)

  /** Before any pair: both ids 0 and a maximum of 0. */
  const Initial: SpanResult := SpanResult(0, 0, 0)

  /**
   * One iteration on the pair (a, b): the maximum becomes the larger of the
   * old maximum and the pair's count (a same-person pair counts for nothing),
   * and the recorded pair changes only when the maximum strictly grows.
   */
  function Step(r: SpanResult, a: Employee, b: Employee): (r': SpanResult)
    ensures r'.maxDays == if a.empId == b.empId then r.maxDays else Max(r.maxDays, PairDays(a, b))
    ensures r'.maxDays == r.maxDays ==> r' == r
    ensures r'.maxDays > r.maxDays ==> r'.firstId == a.empId && r'.secondId == b.empId
  {
    if a.empId == b.empId then r
    else if PairDays(a, b) > r.maxDays then SpanResult(a.empId, b.empId, PairDays(a, b))
    else r
  }

  /** How many adjacent pairs (k, k + 1) the loop visits. */
  function NumPairs(es: seq<Employee>): nat
  {
    if |es| < 2 then 0 else |es| - 1
  }

  /** The state after the loop has visited the pairs (0, 1), ..., (k - 1, k). */
  function ScanUpTo(es: seq<Employee>, k: nat): (r: SpanResult)
    requires k <= NumPairs(es)
    ensures r.maxDays >= 0
    ensures r.maxDays == 0 ==> r == Initial
  {
    if k == 0 then Initial else Step(ScanUpTo(es, k - 1), es[k - 1], es[k])
  }

  /**
   * The adjacent pairs of a bucket in index order: one fewer than there are
   * records (none for fewer than two), and pair k is (es[k], es[k + 1]).
   */
  function AdjacentPairs(es: seq<Employee>): seq<(Employee, Employee)>
  {
    if |es| < 2 then [] else seq(|es| - 1, k requires 0 <= k < |es| - 1 => (es[k], es[k + 1]))
  }

  /** `Step` applied to the pairs of `ps` from first to last. */
  function StepAll(r: SpanResult, ps: seq<(Employee, Employee)>): SpanResult
  {
    if ps == [] then r
    else
      var last := ps[|ps| - 1];
      Step(StepAll(r, ps[..|ps| - 1]), last.0, last.1)
  }

  /** The loop evaluates exactly the adjacent pairs, each once, in index order. */
  lemma {:induction false} ScanVisitsAdjacentPairs(es: seq<Employee>, k: nat)
    requires k <= NumPairs(es)
    ensures k <= |AdjacentPairs(es)|
    ensures ScanUpTo(es, k) == StepAll(Initial, AdjacentPairs(es)[..k])
  {
    var ps := AdjacentPairs(es);
    if k > 0 {
      ScanVisitsAdjacentPairs(es, k - 1);
      assert ps[..k][..k - 1] == ps[..k - 1];
      assert ps[..k][k - 1] == (es[k - 1], es[k]);
    }
  }

  /** The whole scan is `Step` folded over exactly the adjacent pairs. */
  lemma ScanIsStepAll(es: seq<Employee>)
    ensures ScanUpTo(es, NumPairs(es)) == StepAll(Initial, AdjacentPairs(es))
  {
    ScanVisitsAdjacentPairs(es, NumPairs(es));
    assert AdjacentPairs(es)[..NumPairs(es)] == AdjacentPairs(es);
  }

  /** The pair at index `j` is evaluated, i.e. not skipped as the same person. */
  predicate Counted(es: seq<Employee>, j: nat)
    requires j + 1 < |es|
  {
    es[j].empId != es[j + 1].empId
  }

  /** The day count the loop reads for pair j, that is (es[j], es[j + 1]). */
  function DaysAt(es: seq<Employee>, j: nat): int
    requires j + 1 < |es|
  {
    PairDays(es[j], es[j + 1])
  }

  /**
   * `r` is the outcome the source promises after `n` pairs: the maximum of 0
   * and every evaluated pair's day count; when positive it belongs to the first
   * pair that reaches it, whose ids are recorded; when 0, the ids are still 0.
   */
  ghost predicate IsLongestSpan(es: seq<Employee>, n: nat, r: SpanResult)
    requires n <= NumPairs(es)
  {
    && r.maxDays >= 0
    && (forall j :: 0 <= j < n && Counted(es, j) ==> DaysAt(es, j) <= r.maxDays)
    && (r.maxDays == 0 ==> r == Initial)
    && (r.maxDays > 0 ==> exists j :: FirstMaximumAt(es, n, j, r))
  }

  /** Pair `j` is the first of the first `n` pairs to reach `r.maxDays`, and `r` names its ids. */
  ghost predicate FirstMaximumAt(es: seq<Employee>, n: nat, j: nat, r: SpanResult)
    requires n <= NumPairs(es)
  {
    && j < n
    && Counted(es, j)
    && DaysAt(es, j) == r.maxDays
    && r.firstId == es[j].empId && r.secondId == es[j + 1].empId
    && forall i :: 0 <= i < j && Counted(es, i) ==> DaysAt(es, i) < r.maxDays
  }

  /** The scan computes the longest span after every prefix of pairs. */
  lemma {:induction false} ScanIsLongestSpan(es: seq<Employee>, k: nat)
    requires k <= NumPairs(es)
    ensures IsLongestSpan(es, k, ScanUpTo(es, k))
  {
    if k > 0 {
      var prev := ScanUpTo(es, k - 1);
      var r := ScanUpTo(es, k);
      ScanIsLongestSpan(es, k - 1);
      if r != prev {
        assert FirstMaximumAt(es, k, k - 1, r);
      } else if r.maxDays > 0 {
        var j :| FirstMaximumAt(es, k - 1, j, prev);
        assert FirstMaximumAt(es, k, j, r);
      }
    }
  }

  /** `IsLongestSpan` leaves no choice: two outcomes that both meet it are equal. */
  lemma LongestSpanIsUnique(es: seq<Employee>, n: nat, r: SpanResult, r': SpanResult)
    requires n <= NumPairs(es)
    requires IsLongestSpan(es, n, r) && IsLongestSpan(es, n, r')
    ensures r == r'
  {
    if r.maxDays > 0 || r'.maxDays > 0 {
      var j :| FirstMaximumAt(es, n, j, r) || FirstMaximumAt(es, n, j, r');
      assert r.maxDays == r'.maxDays;
      var i :| FirstMaximumAt(es, n, i, r);
      var i' :| FirstMaximumAt(es, n, i', r');
      assert i == i';
    }
  }

  /** A pair of records with the same employee id leaves the outcome as it was. */
  lemma SamePersonSkipped(es: seq<Employee>, k: nat)
    requires k < NumPairs(es) && !Counted(es, k)
    ensures ScanUpTo(es, k + 1) == ScanUpTo(es, k)
  {
  }

  /** A disjoint or touching pair of well-formed records never changes the outcome. */
  lemma EdgePairNeverUpdates(r: SpanResult, a: Employee, b: Employee)
    requires WellFormed(a) && WellFormed(b) && InIntRange(a) && InIntRange(b)
    requires r.maxDays >= 0
    requires Fires(Disjoint, a, b) || Fires(Touching, a, b)
    ensures Step(r, a, b) == r
  {
    if Fires(Disjoint, a, b) {
      DisjointIsNegative(a, b);
    } else {
      TouchingIsZero(a, b);
    }
  }

  /** The result of `largestSpan`: the recorded pair and the years/weeks/days split of its day count. */
  datatype Breakdown = Breakdown(years: int, weeks: int, days: int)

  /** `maxDiffDays / 365`, `(maxDiffDays % 365) / 7` and `(maxDiffDays % 365) % 7`, with Java's `/` and `%`. */
  function Decompose(n: int): (r: Breakdown)
    ensures 365 * r.years + 7 * r.weeks + r.days == n
    ensures n >= 0 ==> r.years >= 0 && 0 <= r.weeks <= 52 && 0 <= r.days < 7 && 7 * r.weeks + r.days < 365
  {
    Breakdown(Div(n, 365), Div(Rem(n, 365), 7), Rem(Rem(n, 365), 7))
  }

  /** For a non-negative count the split is the only one with days < 7 and weeks and days under a year. */
  lemma DecomposeIsUnique(n: int, b: Breakdown)
    requires n >= 0 && b.years >= 0 && 0 <= b.days < 7 && 0 <= 7 * b.weeks + b.days < 365
    requires 365 * b.years + 7 * b.weeks + b.days == n
    ensures Decompose(n) == b
  {
    var r := Decompose(n);
    var rest, rest' := 7 * r.weeks + r.days, 7 * b.weeks + b.days;
    assert 365 * (r.years - b.years) == rest' - rest;
    assert r.years == b.years;
    assert 7 * (r.weeks - b.weeks) == b.days - r.days;
    assert r.weeks == b.weeks;
  }

  /**
   * The eleven checks of lines 151-215 on one pair: `duration` comes out
   * non-null, and line 218 reads the pair's day count from it.
   */
  method RunChecks(duration: Option<int>, a: Employee, b: Employee) returns (d: Option<int>)
    ensures d.Some? && d.value == PairDuration(a, b)
  {
    ChecksAlwaysAssign(duration, a, b);
    d := Run(Checks, duration, a, b);
  }

  /** `largestSpan` on one bucket. */
  method LargestSpan(employees: seq<Employee>) returns (r: SpanResult, split: Breakdown)
    ensures r == ScanUpTo(employees, NumPairs(employees))
    ensures IsLongestSpan(employees, NumPairs(employees), r)
    ensures split == Decompose(r.maxDays)
  {
    var maxDiffDays := 0;
    var duration: Option<int> := None;
    var firstEmployeeId, secondEmployeeId := 0, 0;
    var mostTimeSpendFirstEmployee, mostTimeSpendSecondEmployee := 0, 0;
    var i, j := 0, 1;
    while i < |employees| && j < |employees|
      invariant j == i + 1 && i <= NumPairs(employees)
      invariant SpanResult(mostTimeSpendFirstEmployee, mostTimeSpendSecondEmployee, maxDiffDays) == ScanUpTo(employees, i)
    {
      ghost var before := ScanUpTo(employees, i);
      var first, second := employees[i], employees[i + 1];
      firstEmployeeId := first.empId;
      secondEmployeeId := second.empId;
      // the `continue` of the same-person case still runs the update `i = j++`
      if firstEmployeeId != secondEmployeeId {
        duration := RunChecks(duration, first, second);
        var diffDays := ToInt32(duration.value);
        if diffDays > maxDiffDays {
          maxDiffDays := diffDays;
          mostTimeSpendFirstEmployee := first.empId;
          mostTimeSpendSecondEmployee := second.empId;
        }
      }
      assert ScanUpTo(employees, i + 1) == Step(before, first, second);
      assert SpanResult(mostTimeSpendFirstEmployee, mostTimeSpendSecondEmployee, maxDiffDays) == Step(before, first, second);
      i, j := j, j + 1;
    }
    r := SpanResult(mostTimeSpendFirstEmployee, mostTimeSpendSecondEmployee, maxDiffDays);
    ScanIsLongestSpan(employees, NumPairs(employees));
    split := Decompose(maxDiffDays);
  }

  /** A bucket with fewer than two records yields the sentinel outcome. */
  lemma ShortBucketYieldsInitial(es: seq<Employee>)
    requires |es| < 2
    ensures ScanUpTo(es, NumPairs(es)) == Initial
  {
  }

  /** `longestWorkingEmployeePair`: the scan's outcome and split for every project bucket. */
  method LongestWorkingEmployeePair(groups: map<int, seq<Employee>>) returns (results: map<int, (SpanResult, Breakdown)>)
    ensures results.Keys == groups.Keys
    ensures forall p :: p in groups ==> results[p].0 == ScanUpTo(groups[p], NumPairs(groups[p]))
    ensures forall p :: p in groups ==> results[p].1 == Decompose(results[p].0.maxDays)
  {
    results := map[];
    var remaining := groups.Keys;
    while remaining != {}
      invariant remaining <= groups.Keys
      invariant results.Keys == groups.Keys - remaining
      invariant forall p :: p in results ==> results[p].0 == ScanUpTo(groups[p], NumPairs(groups[p]))
      invariant forall p :: p in results ==> results[p].1 == Decompose(results[p].0.maxDays)
      decreases remaining
    {
      // the map's entry order is unspecified: take any remaining key
      NonEmptyHasKey(remaining);
      var p :| p in remaining;
      var r, split := LargestSpan(groups[p]);
      results := results[p := (r, split)];
      remaining := remaining - {p};
    }
  }

  /** What `main` reports for project `p` is the scan of the input's records on `p`. */
  lemma ProjectOutcomeFromInput(es: seq<Employee>, p: int)
    requires p in GroupByProjectId(es)
    ensures var bucket := GroupByProjectId(es)[p];
      ScanUpTo(bucket, NumPairs(bucket)) == ScanUpTo(OnProject(es, p), NumPairs(OnProject(es, p)))
  {
    GroupBucket(es, p);
  }

  // ---------------------------------------------------------------------------
  // Worked examples (2020-01-01 is epoch day 18262).

  /**
   * Employees 1 and 2 on 2020-01-01..2020-01-10 and 2020-02-01..2020-02-10:
   * the disjoint check measures 40 days, a later check overwrites that with
   * -22, so nothing is recorded.
   */
  lemma DisjointExample()
    ensures var a, b := Employee(1, 10, 18262, 18271), Employee(2, 10, 18293, 18302);
      Fires(Disjoint, a, b) && Measure(Disjoint, a, b) == 40
    ensures PairDuration(Employee(1, 10, 18262, 18271), Employee(2, 10, 18293, 18302)) == -22
    ensures var es := [Employee(1, 10, 18262, 18271), Employee(2, 10, 18293, 18302)];
      ScanUpTo(es, NumPairs(es)) == Initial
  {
  }

  /** Employees 3 and 4 both on 2020-01-01..2020-01-11: 10 days, recorded for the pair (3, 4). */
  lemma IdenticalExample()
    ensures var es := [Employee(3, 10, 18262, 18272), Employee(4, 10, 18262, 18272)];
      ScanUpTo(es, NumPairs(es)) == SpanResult(3, 4, 10)
  {
  }

  /** Two records of the same employee: skipped, so the outcome is the sentinel. */
  lemma SameEmployeeExample()
    ensures var es := [Employee(5, 10, 18262, 18272), Employee(5, 10, 18262, 18302)];
      ScanUpTo(es, NumPairs(es)) == Initial
  {
  }

  /** 400 days are 1 year, 5 weeks and 0 days. */
  lemma DecomposeExample()
    ensures Decompose(400) == Breakdown(1, 5, 0)
  {
  }
}
