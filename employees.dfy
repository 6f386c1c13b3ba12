/**
 * The `Employee` record and `groupEmployeesByProjectId`.
 *
 * A calendar date is an epoch-day number, so `isBefore`, `isAfter` and
 * `isEqual` are `<`, `>` and `==`.
 */
module Employees {

  /** One project assignment: who, on which project, from which day to which day. */
  datatype Employee = Employee(empId: int, projectId: int, dateFrom: int, dateTo: int)

  /** A record whose interval is not reversed; the constructor does not check this. */
  predicate WellFormed(e: Employee)
  {
    e.dateFrom <= e.dateTo
  }

  /** The records of `es` on project `p`, in their original order. */
  function OnProject(es: seq<Employee>, p: int): seq<Employee>
  {
    if es == [] then []
    else
      var last := es[|es| - 1];
      OnProject(es[..|es| - 1], p) + (if last.projectId == p then [last] else [])
  }

  /** The project ids that occur in `es`. */
  function ProjectIds(es: seq<Employee>): set<int>
  {
    set e | e in es :: e.projectId
  }

  /**
   * `Collectors.groupingBy(Employee::getProjectId)`: one pass over the list,
   * appending each record to the bucket of its project, creating the bucket
   * on first use.
   */
  function GroupByProjectId(es: seq<Employee>): (r: map<int, seq<Employee>>)
    ensures forall p :: p in r ==> r[p] != []
  {
    if es == [] then map[]
    else
      var m := GroupByProjectId(es[..|es| - 1]);
      var last := es[|es| - 1];
      var bucket := if last.projectId in m then m[last.projectId] else [];
      m[last.projectId := bucket + [last]]
  }

  /** The buckets are keyed by exactly the project ids that occur in the input. */
  lemma {:induction false} GroupKeys(es: seq<Employee>)
    ensures GroupByProjectId(es).Keys == ProjectIds(es)
  {
    if es != [] {
      var init, last := es[..|es| - 1], es[|es| - 1];
      GroupKeys(init);
      assert es == init + [last];
      assert ProjectIds(es) == ProjectIds(init) + {last.projectId};
    }
  }

  /** The bucket of project `p` is the input filtered by `p`, in encounter order. */
  lemma {:induction false} GroupBucket(es: seq<Employee>, p: int)
    requires p in GroupByProjectId(es)
    ensures GroupByProjectId(es)[p] == OnProject(es, p)
  {
    var init, last := es[..|es| - 1], es[|es| - 1];
    var m := GroupByProjectId(init);
    if p != last.projectId {
      GroupBucket(init, p);
    } else if p in m {
      GroupBucket(init, p);
    } else {
      GroupKeys(init);
      OnProjectNone(init, p);
    }
  }

  /** Filtering by a project that does not occur gives nothing. */
  lemma {:induction false} OnProjectNone(es: seq<Employee>, p: int)
    requires p !in ProjectIds(es)
    ensures OnProject(es, p) == []
  {
    if es != [] {
      var init := es[..|es| - 1];
      assert es == init + [es[|es| - 1]];
      assert ProjectIds(init) <= ProjectIds(es);
      OnProjectNone(init, p);
    }
  }

  /** The sum of the bucket sizes of `m` over the keys `ks`. */
  ghost function SizeOver(m: map<int, seq<Employee>>, ks: set<int>): nat
    requires ks <= m.Keys
    decreases ks
  {
    if ks == {} then 0
    else
      NonEmptyHasKey(ks);
      var k :| k in ks;
      |m[k]| + SizeOver(m, ks - {k})
  }

  /** A non-empty set has an element, so `:|` may pick one. */
  lemma NonEmptyHasKey(ks: set<int>)
    requires ks != {}
    ensures exists k :: k in ks
  {
    if forall k :: k !in ks {
      assert false;
    }
  }

  /** The sum of all bucket sizes of `m`. */
  ghost function TotalSize(m: map<int, seq<Employee>>): nat
  {
    SizeOver(m, m.Keys)
  }

  /** `SizeOver` does not depend on which key it takes first. */
  lemma {:induction false} SizeOverPick(m: map<int, seq<Employee>>, ks: set<int>, k: int)
    requires ks <= m.Keys && k in ks
    ensures SizeOver(m, ks) == |m[k]| + SizeOver(m, ks - {k})
    decreases ks
  {
    var j :| j in ks && SizeOver(m, ks) == |m[j]| + SizeOver(m, ks - {j});
    if j != k {
      SizeOverPick(m, ks - {j}, k);
      SizeOverPick(m, ks - {k}, j);
      assert ks - {j} - {k} == ks - {k} - {j};
    }
  }

  /** `SizeOver` only looks at the buckets of the keys it is given. */
  lemma {:induction false} SizeOverAgree(m: map<int, seq<Employee>>, m': map<int, seq<Employee>>, ks: set<int>)
    requires ks <= m.Keys && ks <= m'.Keys
    requires forall k :: k in ks ==> m[k] == m'[k]
    ensures SizeOver(m, ks) == SizeOver(m', ks)
    decreases ks
  {
    if ks != {} {
      NonEmptyHasKey(ks);
      var k :| k in ks;
      SizeOverPick(m, ks, k);
      SizeOverPick(m', ks, k);
      SizeOverAgree(m, m', ks - {k});
    }
  }

  /** Grouping loses and duplicates nothing: the bucket sizes add up to the input length. */
  lemma {:induction false} GroupSizesSum(es: seq<Employee>)
    ensures TotalSize(GroupByProjectId(es)) == |es|
  {
    if es != [] {
      var init, last := es[..|es| - 1], es[|es| - 1];
      var m := GroupByProjectId(init);
      var p := last.projectId;
      var m' := GroupByProjectId(es);
      GroupSizesSum(init);
      assert m' == m[p := (if p in m then m[p] else []) + [last]];
      SizeOverPick(m', m'.Keys, p);
      SizeOverAgree(m', m, m'.Keys - {p});
      if p in m {
        SizeOverPick(m, m.Keys, p);
        assert m'.Keys - {p} == m.Keys - {p};
      } else {
        assert m'.Keys - {p} == m.Keys;
      }
    }
  }

  /** Every record lands in exactly one bucket: the one of its own project. */
  lemma GroupPartitions(es: seq<Employee>, e: Employee, p: int)
    requires e in es
    ensures p in GroupByProjectId(es) && e in GroupByProjectId(es)[p] <==> p == e.projectId
  {
    GroupKeys(es);
    if p in GroupByProjectId(es) {
      GroupBucket(es, p);
    }
    OnProjectMember(es, p, e);
  }

  /** A record is in the filtered list exactly when it is in the input and on that project. */
  lemma {:induction false} OnProjectMember(es: seq<Employee>, p: int, e: Employee)
    ensures e in OnProject(es, p) <==> e in es && e.projectId == p
  {
    if es != [] {
      var init := es[..|es| - 1];
      assert es == init + [es[|es| - 1]];
      OnProjectMember(init, p, e);
    }
  }
}
