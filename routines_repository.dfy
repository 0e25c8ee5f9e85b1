/**
 * The routine read model of the backend (`RoutineRepository`): the two list
 * queries and the two detail queries, as functions over an in-memory picture
 * of the relational store.
 *
 * Each SQL query is modelled the way the database evaluates it: the rows of the
 * joins that belong to one routine are built explicitly, `SUM` is applied to
 * their `segments.duration` column with SQL's NULL rules, and the groups are
 * ordered by `createdAt`, newest first.
 */
module Routines {
  import opened Wrappers

  // ---------------------------------------------------------------------------
  // The store
  // ---------------------------------------------------------------------------

  /** A row of table `routines`. */
  datatype Routine = Routine(id: nat, name: string, description: string, instructorId: nat, createdAt: int)

  /** A row of the segments table, joined to its routine through `routineId`. */
  datatype Segment = Segment(id: nat, routineId: nat, duration: nat)

  /** A row of `routines_instructors_students`: routine `routineId` is assigned to `studentId`. */
  datatype Assignment = Assignment(id: nat, routineId: nat, studentId: nat)

  /** The columns of a user that the instructor detail loads for each assigned student. */
  datatype User = User(id: nat, firstName: string, lastName: string, email: string)

  datatype Store = Store(routines: seq<Routine>, segments: seq<Segment>, assignments: seq<Assignment>, users: seq<User>)

  /** `routines.id` is the primary key. */
  predicate UniqueRoutineIds(st: Store) {
    DistinctIds(st.routines)
  }

  predicate DistinctIds(rs: seq<Routine>) {
    forall i, j :: 0 <= i < j < |rs| ==> rs[i].id != rs[j].id
  }

  // ---------------------------------------------------------------------------
  // Query results
  // ---------------------------------------------------------------------------

  /** A raw row of a list query; `totalDuration` is `None` where SQL yields NULL. */
  datatype ReducedRoutine = ReducedRoutine(id: nat, name: string, description: string, totalDuration: Option<nat>)

  /** An assignment row of the routine together with its (left-joined) student. */
  datatype RosterEntry = RosterEntry(assignment: Assignment, student: Option<User>)

  /**
   * A hydrated routine entity with its segments, spread together with
   * `totalDuration`; `students` is `None` when the roster relation was not loaded.
   */
  datatype FullRoutine = FullRoutine(routine: Routine, segments: seq<Segment>, students: Option<seq<RosterEntry>>, totalDuration: nat)

  /** What the instructor detail throws when the query finds no routine. */
  datatype QueryError = TypeError

  // ---------------------------------------------------------------------------
  // Sequence helpers
  // ---------------------------------------------------------------------------

  /** The elements of `s` satisfying `p`, in their order (a `WHERE` clause). */
  function Filter<T(!new)>(s: seq<T>, p: T -> bool): (r: seq<T>)
    ensures forall x :: x in r <==> x in s && p(x)
    ensures multiset(r) <= multiset(s)
  {
    if s == [] then []
    else
      assert s == [s[0]] + s[1..];
      if p(s[0]) then [s[0]] + Filter(s[1..], p) else Filter(s[1..], p)
  }

  function Sum(xs: seq<nat>): nat {
    if xs == [] then 0 else xs[0] + Sum(xs[1..])
  }

  function Durations(segs: seq<Segment>): seq<nat> {
    if segs == [] then [] else [segs[0].duration] + Durations(segs[1..])
  }

  function Present(xs: seq<nat>): seq<Option<nat>> {
    if xs == [] then [] else [Some(xs[0])] + Present(xs[1..])
  }

  /** The first routine of `rs` with the given id. */
  function FindById(rs: seq<Routine>, id: nat): (found: Option<Routine>)
    ensures found.Some? ==> found.value in rs && found.value.id == id
    ensures found.None? ==> forall r :: r in rs ==> r.id != id
  {
    if rs == [] then None else if rs[0].id == id then Some(rs[0]) else FindById(rs[1..], id)
  }

  /** Under the primary key, looking a stored routine up by its id finds that routine. */
  lemma {:induction false} FindByIdUnique(rs: seq<Routine>, r: Routine)
    requires DistinctIds(rs) && r in rs
    ensures FindById(rs, r.id) == Some(r)
  {
    if rs[0] != r {
      assert r in rs[1..];
      assert forall i, j :: 0 <= i < j < |rs[1..]| ==> rs[1..][i] == rs[i + 1] && rs[1..][j] == rs[j + 1];
      var k :| 0 <= k < |rs| && rs[k] == r;
      assert rs[0].id != r.id;
      FindByIdUnique(rs[1..], r);
    }
  }

  // ---------------------------------------------------------------------------
  // ORDER BY routines.createdAt DESC
  // ---------------------------------------------------------------------------

  predicate NewestFirst(rs: seq<Routine>) {
    forall i, j :: 0 <= i < j < |rs| ==> rs[i].createdAt >= rs[j].createdAt
  }

  function InsertNewestFirst(r: Routine, rs: seq<Routine>): (out: seq<Routine>)
    requires NewestFirst(rs)
    ensures NewestFirst(out)
    ensures multiset(out) == multiset(rs) + multiset{r}
    ensures forall x :: x in out <==> x == r || x in rs
    ensures |out| == |rs| + 1
    ensures out[0] == r || (rs != [] && out[0] == rs[0])
  {
    if rs == [] || r.createdAt >= rs[0].createdAt then [r] + rs
    else
      assert rs == [rs[0]] + rs[1..];
      var rest := InsertNewestFirst(r, rs[1..]);
      assert rest[0].createdAt <= rs[0].createdAt;
      [rs[0]] + rest
  }

  /**
   * A stable sort, newest first. SQL leaves the order of rows with equal
   * `createdAt` unspecified; the model keeps their store order.
   */
  function SortNewestFirst(rs: seq<Routine>): (out: seq<Routine>)
    ensures NewestFirst(out)
    ensures multiset(out) == multiset(rs)
  {
    if rs == [] then []
    else
      assert rs == [rs[0]] + rs[1..];
      InsertNewestFirst(rs[0], SortNewestFirst(rs[1..]))
  }

  lemma TailKeepsDistinct(rs: seq<Routine>)
    requires rs != [] && DistinctIds(rs)
    ensures DistinctIds(rs[1..])
    ensures forall x :: x in rs[1..] ==> x.id != rs[0].id
  {
    var tail := rs[1..];
    forall i, j | 0 <= i < j < |tail| ensures tail[i].id != tail[j].id {
      assert tail[i] == rs[i + 1] && tail[j] == rs[j + 1];
    }
    forall x | x in tail ensures x.id != rs[0].id {
      var k :| 0 <= k < |tail| && tail[k] == x;
      assert rs[k + 1] == x;
    }
  }

  lemma ConsKeepsDistinct(x: Routine, rs: seq<Routine>)
    requires DistinctIds(rs) && forall y :: y in rs ==> y.id != x.id
    ensures DistinctIds([x] + rs)
  {
    var out := [x] + rs;
    forall i, j | 0 <= i < j < |out| ensures out[i].id != out[j].id {
      if i > 0 {
        assert out[i] == rs[i - 1] && out[j] == rs[j - 1];
      } else {
        assert out[j] in rs;
      }
    }
  }

  lemma {:induction false} FilterKeepsDistinct(rs: seq<Routine>, p: Routine -> bool)
    requires DistinctIds(rs)
    ensures DistinctIds(Filter(rs, p))
  {
    if rs != [] {
      TailKeepsDistinct(rs);
      FilterKeepsDistinct(rs[1..], p);
      if p(rs[0]) {
        assert Filter(rs, p) == [rs[0]] + Filter(rs[1..], p);
        ConsKeepsDistinct(rs[0], Filter(rs[1..], p));
      } else {
        assert Filter(rs, p) == Filter(rs[1..], p);
      }
    }
  }

  lemma {:induction false} InsertKeepsDistinct(r: Routine, rs: seq<Routine>)
    requires NewestFirst(rs) && DistinctIds(rs)
    requires forall x :: x in rs ==> x.id != r.id
    ensures DistinctIds(InsertNewestFirst(r, rs))
  {
    if rs == [] || r.createdAt >= rs[0].createdAt {
      ConsKeepsDistinct(r, rs);
    } else {
      TailKeepsDistinct(rs);
      InsertKeepsDistinct(r, rs[1..]);
      ConsKeepsDistinct(rs[0], InsertNewestFirst(r, rs[1..]));
    }
  }

  lemma {:induction false} SortKeepsDistinct(rs: seq<Routine>)
    requires DistinctIds(rs)
    ensures DistinctIds(SortNewestFirst(rs))
  {
    if rs != [] {
      TailKeepsDistinct(rs);
      SortKeepsDistinct(rs[1..]);
      var sorted := SortNewestFirst(rs[1..]);
      forall x | x in sorted ensures x.id != rs[0].id {
        assert x in multiset(rs[1..]);
      }
      InsertKeepsDistinct(rs[0], sorted);
    }
  }

  /** Under the primary key, a sorted list of stored routines is newest first by id lookup. */
  lemma OrderedByLookup(st: Store, ordered: seq<Routine>)
    requires UniqueRoutineIds(st) && NewestFirst(ordered)
    requires forall r :: r in ordered ==> r in st.routines
    ensures forall i, j :: 0 <= i < j < |ordered| ==> ListedBefore(st, ordered[i].id, ordered[j].id)
  {
    forall i, j | 0 <= i < j < |ordered| ensures ListedBefore(st, ordered[i].id, ordered[j].id) {
      FindByIdUnique(st.routines, ordered[i]);
      FindByIdUnique(st.routines, ordered[j]);
    }
  }

  /** Both ids name stored routines, and routine `a` was created no earlier than routine `b`. */
  predicate ListedBefore(st: Store, a: nat, b: nat) {
    var ra := FindById(st.routines, a);
    var rb := FindById(st.routines, b);
    ra.Some? && rb.Some? && ra.value.createdAt >= rb.value.createdAt
  }

  // ---------------------------------------------------------------------------
  // Joins and SUM
  // ---------------------------------------------------------------------------

  /** The segments of routine `routineId`, in store order. */
  function SegmentsOf(st: Store, routineId: nat): (segs: seq<Segment>)
    ensures forall s :: s in segs <==> s in st.segments && s.routineId == routineId
  {
    Filter(st.segments, (s: Segment) => s.routineId == routineId)
  }

  predicate HasSegments(st: Store, routineId: nat) {
    SegmentsOf(st, routineId) != []
  }

  /** The true total duration of a routine: the sum over its distinct segments. */
  function SegmentTotal(st: Store, routineId: nat): nat {
    Sum(Durations(SegmentsOf(st, routineId)))
  }

  /**
   * The `segments.duration` column of `routines LEFT JOIN segments` restricted
   * to routine `r`: one row per segment, or a single NULL row when it has none.
   */
  function LeftJoinSegments(st: Store, r: Routine): seq<Option<nat>> {
    var segs := SegmentsOf(st, r.id);
    if segs == [] then [None] else Present(Durations(segs))
  }

  function AddNullable(a: Option<nat>, b: Option<nat>): Option<nat> {
    match a
    case None => b
    case Some(x) => (match b case None => Some(x) case Some(y) => Some(x + y))
  }

  /** SQL `SUM`: NULL values are skipped, and a group with no non-NULL value sums to NULL. */
  function SqlSum(column: seq<Option<nat>>): (total: Option<nat>)
    ensures total.None? <==> forall k :: 0 <= k < |column| ==> column[k].None?
  {
    if column == [] then None else AddNullable(column[0], SqlSum(column[1..]))
  }

  lemma {:induction false} SqlSumAppend(a: seq<Option<nat>>, b: seq<Option<nat>>)
    ensures SqlSum(a + b) == AddNullable(SqlSum(a), SqlSum(b))
  {
    if a == [] {
      assert a + b == b;
    } else {
      assert (a + b)[0] == a[0] && (a + b)[1..] == a[1..] + b;
      SqlSumAppend(a[1..], b);
    }
  }

  lemma {:induction false} SqlSumPresent(xs: seq<nat>)
    ensures SqlSum(Present(xs)) == if xs == [] then None else Some(Sum(xs))
  {
    if xs != [] {
      assert Present(xs)[0] == Some(xs[0]) && Present(xs)[1..] == Present(xs[1..]);
      SqlSumPresent(xs[1..]);
    }
  }

  /** The left join sums to the true total, or to NULL for a routine without segments. */
  lemma LeftJoinSum(st: Store, r: Routine)
    ensures SqlSum(LeftJoinSegments(st, r)) == if HasSegments(st, r.id) then Some(SegmentTotal(st, r.id)) else None
  {
    var segs := SegmentsOf(st, r.id);
    if segs != [] {
      SqlSumPresent(Durations(segs));
      assert Durations(segs) != [];
    }
  }

  // ---------------------------------------------------------------------------
  // getReducedRoutinesForInstructor
  // ---------------------------------------------------------------------------

  /** `WHERE routines.instructor_id = :instructorId` */
  function OwnedBy(st: Store, instructorId: nat): (owned: seq<Routine>)
    ensures forall r :: r in owned <==> r in st.routines && r.instructorId == instructorId
    ensures multiset(owned) <= multiset(st.routines)
  {
    Filter(st.routines, (r: Routine) => r.instructorId == instructorId)
  }

  /** The group of routine `r`: its columns and `SUM(segments.duration)` over its left-join rows. */
  function InstructorRow(st: Store, r: Routine): ReducedRoutine {
    ReducedRoutine(r.id, r.name, r.description, SqlSum(LeftJoinSegments(st, r)))
  }

  function Rows(st: Store, ordered: seq<Routine>, row: (Store, Routine) -> ReducedRoutine): (rows: seq<ReducedRoutine>)
    ensures |rows| == |ordered|
    ensures forall i :: 0 <= i < |ordered| ==> rows[i] == row(st, ordered[i])
  {
    if ordered == [] then [] else [row(st, ordered[0])] + Rows(st, ordered[1..], row)
  }

  /** `getReducedRoutinesForInstructor(instructorId)` */
  function GetReducedRoutinesForInstructor(st: Store, instructorId: nat): (rows: seq<ReducedRoutine>)
    ensures |rows| == |OwnedBy(st, instructorId)|
  {
    var ordered := SortNewestFirst(OwnedBy(st, instructorId));
    assert |multiset(ordered)| == |multiset(OwnedBy(st, instructorId))|;
    Rows(st, ordered, InstructorRow)
  }

  /** The instructor list names exactly the routines the instructor owns. */
  lemma InstructorListScope(st: Store, instructorId: nat, id: nat)
    ensures var rows := GetReducedRoutinesForInstructor(st, instructorId);
            (exists i :: 0 <= i < |rows| && rows[i].id == id)
            <==> (exists r :: r in st.routines && r.id == id && r.instructorId == instructorId)
  {
    var owned := OwnedBy(st, instructorId);
    var ordered := SortNewestFirst(owned);
    var rows := GetReducedRoutinesForInstructor(st, instructorId);
    assert rows == Rows(st, ordered, InstructorRow);
    RowsNameTheirRoutines(st, ordered, InstructorRow, owned, id);
  }

  /** The rows built from a permutation of `source` name exactly the ids of `source`. */
  lemma RowsNameTheirRoutines(st: Store, ordered: seq<Routine>, row: (Store, Routine) -> ReducedRoutine,
                              source: seq<Routine>, id: nat)
    requires multiset(ordered) == multiset(source)
    requires forall r :: row(st, r).id == r.id
    ensures (exists i :: 0 <= i < |ordered| && Rows(st, ordered, row)[i].id == id) ==> (exists r :: r in source && r.id == id)
    ensures (exists r :: r in source && r.id == id) ==> (exists i :: 0 <= i < |ordered| && Rows(st, ordered, row)[i].id == id)
  {
    var rows := Rows(st, ordered, row);
    forall r | r in source && r.id == id ensures exists i :: 0 <= i < |rows| && rows[i].id == id {
      assert r in multiset(ordered);
      var i :| 0 <= i < |ordered| && ordered[i] == r;
      assert rows[i].id == id;
    }
    forall i | 0 <= i < |rows| && rows[i].id == id ensures exists r :: r in source && r.id == id {
      assert rows[i] == row(st, ordered[i]);
      assert ordered[i] in multiset(source);
      assert ordered[i] in source && ordered[i].id == id;
    }
  }

  /** One row per routine, newest first. */
  lemma InstructorListOrder(st: Store, instructorId: nat)
    requires UniqueRoutineIds(st)
    ensures var rows := GetReducedRoutinesForInstructor(st, instructorId);
            forall i, j :: 0 <= i < j < |rows| ==> rows[i].id != rows[j].id && ListedBefore(st, rows[i].id, rows[j].id)
  {
    var owned := OwnedBy(st, instructorId);
    var ordered := SortNewestFirst(owned);
    FilterKeepsDistinct(st.routines, (r: Routine) => r.instructorId == instructorId);
    SortKeepsDistinct(owned);
    forall r | r in ordered ensures r in st.routines {
      assert r in multiset(owned);
    }
    OrderedByLookup(st, ordered);
  }

  /** Under the primary key, each row's `name` and `description` are those of the routine its id names. */
  lemma InstructorListColumns(st: Store, instructorId: nat)
    requires UniqueRoutineIds(st)
    ensures var rows := GetReducedRoutinesForInstructor(st, instructorId);
            forall i :: 0 <= i < |rows| ==>
              var found := FindById(st.routines, rows[i].id);
              found.Some? && rows[i].name == found.value.name && rows[i].description == found.value.description
  {
    var owned := OwnedBy(st, instructorId);
    var ordered := SortNewestFirst(owned);
    forall i | 0 <= i < |ordered| ensures FindById(st.routines, ordered[i].id) == Some(ordered[i]) {
      assert ordered[i] in multiset(owned);
      FindByIdUnique(st.routines, ordered[i]);
    }
  }

  /** Each row's total is the sum over the routine's segments, or NULL when it has none. */
  lemma InstructorListTotals(st: Store, instructorId: nat)
    ensures var rows := GetReducedRoutinesForInstructor(st, instructorId);
            forall i :: 0 <= i < |rows| ==>
              rows[i].totalDuration == if HasSegments(st, rows[i].id) then Some(SegmentTotal(st, rows[i].id)) else None
  {
    var ordered := SortNewestFirst(OwnedBy(st, instructorId));
    forall i | 0 <= i < |ordered|
      ensures SqlSum(LeftJoinSegments(st, ordered[i]))
              == if HasSegments(st, ordered[i].id) then Some(SegmentTotal(st, ordered[i].id)) else None
    {
      LeftJoinSum(st, ordered[i]);
    }
  }

  // ---------------------------------------------------------------------------
  // getReducedRoutinesForStudent
  // ---------------------------------------------------------------------------

  /** The number of assignment rows naming (`studentId`, `routineId`). */
  function AssignmentCount(asg: seq<Assignment>, studentId: nat, routineId: nat): (n: nat)
    ensures n > 0 <==> exists a :: a in asg && a.studentId == studentId && a.routineId == routineId
  {
    if asg == [] then 0
    else
      assert asg == [asg[0]] + asg[1..];
      (if asg[0].studentId == studentId && asg[0].routineId == routineId then 1 else 0)
      + AssignmentCount(asg[1..], studentId, routineId)
  }

  /** `routines INNER JOIN routines_instructors_students ris ... WHERE ris.student_id = :studentUserId` */
  function AssignedTo(st: Store, studentId: nat): (linked: seq<Routine>)
    ensures forall r :: r in linked <==> r in st.routines && AssignmentCount(st.assignments, studentId, r.id) > 0
    ensures multiset(linked) <= multiset(st.routines)
  {
    Filter(st.routines, (r: Routine) => AssignmentCount(st.assignments, studentId, r.id) > 0)
  }

  /**
   * The `segments.duration` column of the student query's join, restricted to
   * routine `r`: for every assignment row naming the student and `r`, all the
   * left-join rows of `r` once more.
   */
  function StudentJoinColumn(st: Store, asg: seq<Assignment>, studentId: nat, r: Routine): seq<Option<nat>> {
    if asg == [] then []
    else
      (if asg[0].studentId == studentId && asg[0].routineId == r.id then LeftJoinSegments(st, r) else [])
      + StudentJoinColumn(st, asg[1..], studentId, r)
  }

  function StudentRow(studentId: nat): (Store, Routine) -> ReducedRoutine {
    (st: Store, r: Routine) => ReducedRoutine(r.id, r.name, r.description, SqlSum(StudentJoinColumn(st, st.assignments, studentId, r)))
  }

  /** `getReducedRoutinesForStudent(studentUserId)` */
  function GetReducedRoutinesForStudent(st: Store, studentId: nat): (rows: seq<ReducedRoutine>)
    ensures |rows| == |AssignedTo(st, studentId)|
  {
    var ordered := SortNewestFirst(AssignedTo(st, studentId));
    assert |multiset(ordered)| == |multiset(AssignedTo(st, studentId))|;
    Rows(st, ordered, StudentRow(studentId))
  }

  /** k assignment rows repeat every left-join row k times, so SUM is k times the true total. */
  lemma {:induction false} StudentJoinSum(st: Store, asg: seq<Assignment>, studentId: nat, r: Routine)
    ensures SqlSum(StudentJoinColumn(st, asg, studentId, r)) == RepeatedTotal(st, AssignmentCount(asg, studentId, r.id), r.id)
  {
    if asg != [] {
      var matches := asg[0].studentId == studentId && asg[0].routineId == r.id;
      var head := if matches then LeftJoinSegments(st, r) else [];
      var rest := StudentJoinColumn(st, asg[1..], studentId, r);
      var k := AssignmentCount(asg[1..], studentId, r.id);
      assert StudentJoinColumn(st, asg, studentId, r) == head + rest;
      assert AssignmentCount(asg, studentId, r.id) == if matches then k + 1 else k;
      SqlSumAppend(head, rest);
      StudentJoinSum(st, asg[1..], studentId, r);
      if matches {
        LeftJoinSum(st, r);
        RepeatedTotalSucc(st, k, r.id);
      } else {
        assert SqlSum(head) == None;
      }
    }
  }

  /** What SUM yields over k copies of a routine's left-join rows. */
  function RepeatedTotal(st: Store, k: nat, routineId: nat): Option<nat> {
    if k == 0 || !HasSegments(st, routineId) then None else Some(k * SegmentTotal(st, routineId))
  }

  lemma RepeatedTotalSucc(st: Store, k: nat, routineId: nat)
    ensures RepeatedTotal(st, k + 1, routineId)
            == AddNullable(if HasSegments(st, routineId) then Some(SegmentTotal(st, routineId)) else None,
                           RepeatedTotal(st, k, routineId))
  {
    MultiplySucc(k, SegmentTotal(st, routineId));
  }

  lemma MultiplySucc(k: nat, t: nat)
    ensures (k + 1) * t == t + k * t
  {
  }

  /** The student list names exactly the stored routines with an assignment row naming the student. */
  lemma StudentListScope(st: Store, studentId: nat, id: nat)
    ensures var rows := GetReducedRoutinesForStudent(st, studentId);
            (exists i :: 0 <= i < |rows| && rows[i].id == id)
            <==> (exists r :: r in st.routines && r.id == id)
                 && (exists a :: a in st.assignments && a.studentId == studentId && a.routineId == id)
  {
    var linked := AssignedTo(st, studentId);
    var ordered := SortNewestFirst(linked);
    var rows := GetReducedRoutinesForStudent(st, studentId);
    assert rows == Rows(st, ordered, StudentRow(studentId));
    RowsNameTheirRoutines(st, ordered, StudentRow(studentId), linked, id);
  }

  /** One row per routine, newest first. */
  lemma StudentListOrder(st: Store, studentId: nat)
    requires UniqueRoutineIds(st)
    ensures var rows := GetReducedRoutinesForStudent(st, studentId);
            forall i, j :: 0 <= i < j < |rows| ==> rows[i].id != rows[j].id && ListedBefore(st, rows[i].id, rows[j].id)
  {
    var linked := AssignedTo(st, studentId);
    var ordered := SortNewestFirst(linked);
    FilterKeepsDistinct(st.routines, (r: Routine) => AssignmentCount(st.assignments, studentId, r.id) > 0);
    SortKeepsDistinct(linked);
    forall r | r in ordered ensures r in st.routines {
      assert r in multiset(linked);
    }
    OrderedByLookup(st, ordered);
  }

  /** Under the primary key, each row's `name` and `description` are those of the routine its id names. */
  lemma StudentListColumns(st: Store, studentId: nat)
    requires UniqueRoutineIds(st)
    ensures var rows := GetReducedRoutinesForStudent(st, studentId);
            forall i :: 0 <= i < |rows| ==>
              var found := FindById(st.routines, rows[i].id);
              found.Some? && rows[i].name == found.value.name && rows[i].description == found.value.description
  {
    var linked := AssignedTo(st, studentId);
    var ordered := SortNewestFirst(linked);
    forall i | 0 <= i < |ordered| ensures FindById(st.routines, ordered[i].id) == Some(ordered[i]) {
      assert ordered[i] in multiset(linked);
      FindByIdUnique(st.routines, ordered[i]);
    }
  }

  /**
   * Each row's total is NULL for a routine without segments, and otherwise the
   * true total times the number of assignment rows naming the student and that routine.
   */
  lemma StudentListTotals(st: Store, studentId: nat)
    ensures var rows := GetReducedRoutinesForStudent(st, studentId);
            forall i :: 0 <= i < |rows| ==>
              rows[i].totalDuration
              == if HasSegments(st, rows[i].id)
                 then Some(AssignmentCount(st.assignments, studentId, rows[i].id) * SegmentTotal(st, rows[i].id))
                 else None
  {
    var linked := AssignedTo(st, studentId);
    var ordered := SortNewestFirst(linked);
    forall i | 0 <= i < |ordered|
      ensures var k := AssignmentCount(st.assignments, studentId, ordered[i].id);
              k > 0 && SqlSum(StudentJoinColumn(st, st.assignments, studentId, ordered[i])) == RepeatedTotal(st, k, ordered[i].id)
    {
      assert ordered[i] in multiset(linked);
      StudentJoinSum(st, st.assignments, studentId, ordered[i]);
    }
  }

  // ---------------------------------------------------------------------------
  // getFullRoutine
  // ---------------------------------------------------------------------------

  function FindUser(users: seq<User>, id: nat): (found: Option<User>)
    ensures found.Some? ==> found.value in users && found.value.id == id
    ensures found.None? ==> forall u :: u in users ==> u.id != id
  {
    if users == [] then None else if users[0].id == id then Some(users[0]) else FindUser(users[1..], id)
  }

  function RosterOf(st: Store, asg: seq<Assignment>): (roster: seq<RosterEntry>)
    ensures |roster| == |asg|
    ensures forall i :: 0 <= i < |asg| ==> roster[i].assignment == asg[i]
    ensures forall i :: 0 <= i < |asg| ==> roster[i].student == FindUser(st.users, asg[i].studentId)
  {
    if asg == [] then [] else [RosterEntry(asg[0], FindUser(st.users, asg[0].studentId))] + RosterOf(st, asg[1..])
  }

  /** The assignment rows of a routine, each with its student (the two left joins of the roster). */
  function Roster(st: Store, routineId: nat): (roster: seq<RosterEntry>)
    ensures forall e :: e in roster ==> e.assignment in st.assignments && e.assignment.routineId == routineId
    ensures forall a :: a in st.assignments && a.routineId == routineId ==> exists e :: e in roster && e.assignment == a
    ensures forall e :: e in roster ==> e.student == FindUser(st.users, e.assignment.studentId)
  {
    var linked := Filter(st.assignments, (a: Assignment) => a.routineId == routineId);
    var roster := RosterOf(st, linked);
    assert forall i :: 0 <= i < |roster| ==> roster[i].assignment in linked;
    forall a | a in st.assignments && a.routineId == routineId ensures exists e :: e in roster && e.assignment == a {
      assert a in linked;
      var i :| 0 <= i < |linked| && linked[i] == a;
      assert roster[i] in roster && roster[i].assignment == a;
    }
    roster
  }

  /** `segments.reduce((accumulator, currentValue) => accumulator + currentValue.duration, acc)` */
  function ReduceDurations(acc: nat, segs: seq<Segment>): (total: nat)
    ensures total == acc + Sum(Durations(segs))
    decreases |segs|
  {
    if segs == [] then acc else ReduceDurations(acc + segs[0].duration, segs[1..])
  }

  /**
   * `getFullRoutine(instructorId, routineId)`. The code reads `result.segments`
   * without checking the result, so a routine that does not exist, or belongs to
   * another instructor, makes the call throw.
   */
  function GetFullRoutine(st: Store, instructorId: nat, routineId: nat): (r: Result<FullRoutine, QueryError>)
    ensures r.Ok? <==> exists x :: x in st.routines && x.id == routineId && x.instructorId == instructorId
    ensures r.Ok? ==> && r.value.routine in st.routines
                      && r.value.routine.id == routineId && r.value.routine.instructorId == instructorId
                      && r.value.segments == SegmentsOf(st, routineId)
                      && r.value.totalDuration == SegmentTotal(st, routineId)
                      && r.value.students == Some(Roster(st, routineId))
  {
    var matches := Filter(st.routines, (x: Routine) => x.id == routineId && x.instructorId == instructorId);
    if matches == [] then
      Err(TypeError)
    else
      var found := matches[0];
      assert found in matches;
      var segments := SegmentsOf(st, found.id);
      var totalDuration := if |segments| == 0 then 0 else ReduceDurations(0, segments);
      Ok(FullRoutine(found, segments, Some(Roster(st, found.id)), totalDuration))
  }

  /** Under the primary key, another instructor's routine cannot be read: the call throws. */
  lemma OtherInstructorsRoutine(st: Store, instructorId: nat, rt: Routine)
    requires UniqueRoutineIds(st) && rt in st.routines && rt.instructorId != instructorId
    ensures GetFullRoutine(st, instructorId, rt.id).Err?
  {
    if x :| x in st.routines && x.id == rt.id && x.instructorId == instructorId {
      FindByIdUnique(st.routines, x);
      FindByIdUnique(st.routines, rt);
    }
  }

  /**
   * The list and the detail agree: a listed routine can be opened, and its detail
   * total is the list total, with the list's NULL read as 0.
   */
  lemma ListAndDetailAgree(st: Store, instructorId: nat, i: nat)
    requires i < |GetReducedRoutinesForInstructor(st, instructorId)|
    ensures var row := GetReducedRoutinesForInstructor(st, instructorId)[i];
            var detail := GetFullRoutine(st, instructorId, row.id);
            detail.Ok? && detail.value.totalDuration == row.totalDuration.GetOr(0)
  {
    var owned := OwnedBy(st, instructorId);
    var ordered := SortNewestFirst(owned);
    assert ordered[i] in multiset(owned);
    LeftJoinSum(st, ordered[i]);
    if !HasSegments(st, ordered[i].id) {
      assert Durations(SegmentsOf(st, ordered[i].id)) == [];
    }
  }

  // ---------------------------------------------------------------------------
  // getFullRoutineForStudent
  // ---------------------------------------------------------------------------

  /**
   * `getFullRoutineForStudent(studentId, routineId)`: `null` unless an assignment
   * row links the student to the routine; the total is always 0 and the roster
   * is not loaded.
   */
  function GetFullRoutineForStudent(st: Store, studentId: nat, routineId: nat): (r: Option<FullRoutine>)
    ensures r.Some? <==> (exists x :: x in st.routines && x.id == routineId)
                         && (exists a :: a in st.assignments && a.studentId == studentId && a.routineId == routineId)
    ensures r.Some? ==> && r.value.routine in st.routines && r.value.routine.id == routineId
                        && r.value.segments == SegmentsOf(st, routineId)
                        && r.value.totalDuration == 0
                        && r.value.students.None?
  {
    var matches := Filter(st.routines, (x: Routine) => x.id == routineId && AssignmentCount(st.assignments, studentId, x.id) > 0);
    if matches == [] then
      None
    else
      var found := matches[0];
      assert found in matches;
      Some(FullRoutine(found, SegmentsOf(st, found.id), None, 0))
  }
}
