# TeamLongestPeriod core in Dafny

This project models the logic of `src/employees/Employee.java` in
TeamLongestPeriod. The program reads project-assignment records
`Employee(empId, projectId, dateFrom, dateTo)`. It groups them by project id.
Then, for each project, it looks for the pair of adjacent records whose
"time together" is the longest.

- `java_int.dfy`, module `JavaInt`: Java's narrowing cast `(int)` from
  `long`, and Java's truncating `/` and `%`.
- `employees.dfy`, module `Employees`: the record, and
  `groupEmployeesByProjectId` (a `groupingBy` over the list). It is modelled
  as a function to `map<int, seq<Employee>>` and proved equal to filtering the
  input by project id.
- `span.dfy`, module `Span`: `largestSpan` and `longestWorkingEmployeePair`.
  - `LargestSpan` is a method with the source's loop: `i`, `j` with
    `i = j++`, the skip of same-employee pairs, the `duration` variable that
    lives across iterations, and the strict running maximum.
  - The eleven independent `if`s at lines 151-215 are a table. `Fires` gives
    each check's condition and `Measure` the interval it measures. `Run`
    applies them in source order, so the last check that fires wins.
    `RunChecks` is the step of the loop that applies them to one pair.
  - The method is proved against `ScanUpTo`, a fold of `Step` over the
    adjacent pairs. That fold is in turn proved to meet `IsLongestSpan`,
    which determines the outcome uniquely: the maximum of 0 and every
    evaluated pair's day count, with the ids of the first pair that reaches
    it.

Dates are epoch-day numbers. `isBefore`, `isAfter`, `isEqual` and `equals`
become `<`, `>` and `==`.
`Duration.between(x.atStartOfDay(), y.atStartOfDay()).toDays()` is `y - x`,
which can be negative (`DaysBetween`). The dates are read through the getters, so `dateFrom`
is the start of an interval. The field comments at lines 22-26 say the
opposite; the getters and every use in `largestSpan` treat it as the start.

Behaviour of the code that the proofs pin down:

- For two different employees, exactly one of the nine checks at lines
  165-215 fires. So `duration` is assigned on every evaluated pair, and is
  never `null` or stale when line 218 reads it. Whatever the checks at lines
  153-161 assigned is always overwritten (`ChecksAlwaysAssign`,
  `EdgeChecksOverwritten`).
- Because of that, the measured value is `min(ends) - max(starts)`, with one
  exception. When the first interval strictly contains the second, the code
  measures from the first start to the second end (line 178), not the
  second interval's length (`PairDuration`).
- Disjoint well-formed intervals give a negative count. Touching ones give 0.
  So neither is ever recorded (`EdgePairNeverUpdates`). For example, 2020-01-01..2020-01-10
  against 2020-02-01..2020-02-10 yields -22, not the 40 days from the first
  start to the second end that the disjoint branch at line 154 would measure
  on its own (`DisjointExample`).
- `maxDiffDays` never goes negative. Ties keep the first pair, because the
  update at line 223 uses `>`. With fewer than two records the outcome is
  ids 0 and 0 with 0 days.

## Model

| member | source | states |
|---|---|---|
| `Employees.GroupByProjectId` | src/employees/Employee.java:69-73 | no bucket of the grouping is empty |
| `Employees.GroupKeys` | src/employees/Employee.java:69-73 | the grouping's keys are exactly the project ids that occur in the input |
| `Employees.GroupBucket` | src/employees/Employee.java:69-73 | the bucket of project `p` is the input filtered by `projectId == p`, in encounter order |
| `Employees.OnProjectMember` | src/employees/Employee.java:69-73 | a record is in the filter for `p` iff it is in the input and has project `p` |
| `Employees.GroupPartitions` | src/employees/Employee.java:69-73 | every input record belongs to the bucket of its own project and to no other |
| `Employees.GroupSizesSum` | src/employees/Employee.java:69-73 | the bucket sizes add up to the input length: nothing lost, nothing duplicated |
| `JavaInt.ToInt32` | src/employees/Employee.java:218 | `(int)` of a `long` is a 32-bit value congruent to it modulo 2^32, and the identity on values that fit |
| `JavaInt.Div` | src/employees/Employee.java:236-237 | Java `/` by a positive divisor truncates toward zero |
| `JavaInt.Rem` | src/employees/Employee.java:236-237 | Java `%` completes the division and takes the sign of the dividend |
| `Span.Fires` | src/employees/Employee.java:151-215 | the condition of each of the eleven checks; a relation check fires exactly on the start/start and end/end comparison its name gives, and the disjoint and touching checks fire only on intervals sharing at most an end point |
| `Span.Measure` | src/employees/Employee.java:154-214 | the duration each check assigns always runs from one of the two starts to one of the two ends; a firing relation check measures later start to earlier end, except the containment check (line 178), which measures first start to second end |
| `Span.Run` | src/employees/Employee.java:151-215 | the independent `if`s in order: the result is the incoming `duration` or the value of a check that fired, and is non-null once any check fires |
| `Span.RunLastFiringWins` | src/employees/Employee.java:151-215 | the last check of the run that fires decides `duration`: if check i fires and no later one does, the result is check i's value, whatever came before |
| `Span.RunSingleFiring` | src/employees/Employee.java:151-215 | in a run of independent checks where exactly one fires, that one's value is what remains, whatever was there before |
| `Span.Classify` | src/employees/Employee.java:163-215 | every pair of records is matched by one of the nine start/end relation checks |
| `Span.ExactlyOneRelation` | src/employees/Employee.java:163-215 | a relation check fires iff it is the one `Classify` picks: exactly one of the nine holds |
| `Span.PairDuration` | src/employees/Employee.java:165-215 | the checks' value is min(ends) - max(starts), except second end - first start when the first strictly contains the second |
| `Span.RelationChecksDecide` | src/employees/Employee.java:163-215 | the nine relation checks always leave `duration` set to the pair's value, independent of its previous value |
| `Span.ChecksAlwaysAssign` | src/employees/Employee.java:151-218 | after all eleven checks `duration` is non-null and holds this pair's value, whatever it held before (no stale or null read at line 218) |
| `Span.RunChecks` | src/employees/Employee.java:151-218 | one evaluated pair: the eleven checks applied to the `duration` left by the previous pair leave it non-null and equal to this pair's value, which is what line 218 reads |
| `Span.EdgeChecksOverwritten` | src/employees/Employee.java:151-215 | the eleven checks end exactly as the nine relation checks alone do, from any starting value: what lines 153-161 assign is always overwritten |
| `Span.DisjointIsNegative` | src/employees/Employee.java:151-173 | for well-formed records a disjoint pair's value is negative |
| `Span.TouchingIsZero` | src/employees/Employee.java:157-215 | for well-formed records a touching pair's value is 0 |
| `Span.EdgePairNeverUpdates` | src/employees/Employee.java:151-231 | a disjoint or touching pair never changes the recorded maximum or ids |
| `Span.PairDays` | src/employees/Employee.java:218 | the pair's count as read through `(int)`: a 32-bit value, equal to the checks' value whenever that fits |
| `Span.Step` | src/employees/Employee.java:133-231 | one iteration: the maximum becomes the larger of the old one and the pair's count (a same-person pair counts for nothing), and the recorded ids change only when the maximum strictly grows |
| `Span.ScanUpTo` | src/employees/Employee.java:122-233 | the loop's state after any number of pairs has a non-negative maximum, and a maximum of 0 only with both ids still 0 |
| `Span.ScanVisitsAdjacentPairs` | src/employees/Employee.java:131-142 | the first k iterations apply `Step` to exactly the adjacent pairs (es[0], es[1]) ... (es[k-1], es[k]), in index order |
| `Span.ScanIsStepAll` | src/employees/Employee.java:131-142 | the whole loop applies `Step` to exactly the pairs (es[k], es[k+1]) for every k with k + 1 < the bucket size, each once, in index order, and to nothing else |
| `Span.SamePersonSkipped` | src/employees/Employee.java:144-149 | a pair with equal employee ids leaves maximum and ids unchanged |
| `Span.ScanIsLongestSpan` | src/employees/Employee.java:122-231 | after any number of pairs the state is the maximum of 0 and every evaluated pair's count, with the ids of the first pair attaining a positive maximum |
| `Span.LongestSpanIsUnique` | src/employees/Employee.java:220-231 | the longest-span property determines the outcome (maximum and ids) uniquely |
| `Span.ShortBucketYieldsInitial` | src/employees/Employee.java:122-131 | with fewer than two records the outcome is ids 0 and 0 with 0 days |
| `Span.Decompose` | src/employees/Employee.java:236-237 | 365 * years + 7 * weeks + days is the day count; for a non-negative count weeks <= 52, days < 7 and 7 * weeks + days < 365 |
| `Span.DecomposeIsUnique` | src/employees/Employee.java:236-237 | that split is the only one of a non-negative count with days < 7 and 7 * weeks + days < 365 |
| `Span.LargestSpan` | src/employees/Employee.java:119-239 | the loop (`i = j++`, running while `j` is in range, so over one pair fewer than there are records) ends in the state `ScanUpTo` gives after all adjacent pairs, meets the longest-span property, and its split is `Decompose` of the maximum |
| `Span.LongestWorkingEmployeePair` | src/employees/Employee.java:101-110 | every project bucket gets the scan's outcome and split, whatever order the keys are visited in |
| `Span.ProjectOutcomeFromInput` | src/employees/Employee.java:101-106 | the outcome for project `p` after grouping is the scan of the input's records on `p` |
| `Span.DisjointExample` | src/employees/Employee.java:151-172 | 2020-01-01..10 against 2020-02-01..10: the disjoint check alone measures 40 days, the checks together -22, and nothing is recorded |
| `Span.IdenticalExample` | src/employees/Employee.java:181-185 | two identical 2020-01-01..11 intervals measure 10 days, recorded for that pair |
| `Span.SameEmployeeExample` | src/employees/Employee.java:144-149 | two records of one employee leave the sentinel outcome |
| `Span.DecomposeExample` | src/employees/Employee.java:236-237 | 400 days split as 1 year, 5 weeks, 0 days |

## Left out

- Text output is not modelled: the sentences of `largestSpan` (lines 234-238), `displayEmployeesWorkingOnProject` (lines 82-92), and the strings `longestWorkingEmployeePair` builds. They depend on Java's `toString` of `int` and `LocalDate`. The model returns the numbers instead.
- The order of project keys in `longestWorkingEmployeePair` is not fixed. `HashMap` leaves it unspecified. The method takes any remaining key, and its result is a map, so the order of the output text is not modelled.
- Calendar arithmetic (`LocalDate`, `Duration`) is reduced to epoch-day integers. The range limits of `LocalDate` are not modelled.
- `empId` and `projectId` are unbounded integers. They are only compared for equality, so 32-bit width does not matter for them.
- File reading and tokenizing (`src/readfile/ReadInputFromFile.java`) and record construction (`src/readfile/CreateEmployeesFromFileData.java`) are not modelled. That includes the replacement of `"NULL"` by today's date and the parsing of integers and dates. They are I/O and library calls; the model starts from the list of records.
- `main` in `src/app/LongestPeriod.java` only wires the steps together and prints. It is not part of this model; `ProjectOutcomeFromInput` states the composition of grouping and scan.
- Span.EdgePairNeverUpdates: requires both records' dates within 2^30 epoch days of day 0, so that every day difference fits in an `int` and the cast at line 218 is the identity. Outside that range the cast can wrap, and a disjoint pair could then be recorded.
- Span.DisjointIsNegative and Span.TouchingIsZero state their sign about the `long` day count before the `(int)` cast, for records with `dateFrom <= dateTo`. The constructor does not check that ordering.
