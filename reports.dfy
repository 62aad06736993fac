/**
 The five dictionaries that the program builds from its join queries. Each
 query hands its callback one tuple of freshly mapped objects per result row;
 the rows are taken here as an input sequence, in the order the query
 returns them.
 */
module Reports {
  import opened Entities
  import opened Grouping

  // ---------------------------------------------------------------------
  // Keying the query rows by their parent's id.
  // ---------------------------------------------------------------------

  function ByCohort<C>(rows: seq<(Cohort, C)>): seq<Row<Cohort, C>>
  {
    seq(|rows|, i requires 0 <= i < |rows| => Row(rows[i].0.id, rows[i].0, rows[i].1))
  }

  function ByStudent<C>(rows: seq<(Student, C)>): seq<Row<Student, C>>
  {
    seq(|rows|, i requires 0 <= i < |rows| => Row(rows[i].0.id, rows[i].0, rows[i].1))
  }

  /** The verbose query's rows with the cohort column set aside. */
  function StudentExerciseRows(rows: seq<(Student, Exercise, Cohort)>): seq<Row<Student, Exercise>>
  {
    seq(|rows|, i requires 0 <= i < |rows| => Row(rows[i].0.id, rows[i].0, rows[i].1))
  }

  function ByExercise(rows: seq<(Exercise, Student, Instructor, Cohort)>)
    : seq<Row<Exercise, (Student, Instructor, Cohort)>>
  {
    seq(|rows|, i requires 0 <= i < |rows| =>
      Row(rows[i].0.id, rows[i].0, (rows[i].1, rows[i].2, rows[i].3)))
  }

  // ---------------------------------------------------------------------
  // Cohort -> Instructors (the `report` dictionary).
  // ---------------------------------------------------------------------

  /** One entry per cohort id of the rows, holding the first-seen cohort and
      the instructors of its rows in row order. */
  method CohortInstructors(rows: seq<(Cohort, Instructor)>) returns (report: Index<Cohort, Instructor>)
    ensures IsGrouping(report, ByCohort(rows))
  {
    var index := new GroupIndex<Cohort, Instructor>();
    index.ProcessRows(ByCohort(rows));
    report := index.groups;
    GroupRowsSpec(ByCohort(rows));
  }

  // The result set shown in the program's comment on the cohort query.
  const Evening1 := Cohort(1, "Evening Cohort 1")
  const Day13 := Cohort(5, "Day Cohort 13")
  const Day21 := Cohort(6, "Day Cohort 21")
  const Steve := Instructor(1, "Steve", "Brownlee", "@coach", "Dad jokes", 1)
  const Joe := Instructor(2, "Joe", "Shepherd", "@joes", "Analogies", 5)
  const Jisie := Instructor(3, "Jisie", "David", "@jisie", "Student success", 6)
  const Emily := Instructor(4, "Emily", "Lemmon", "@emlem", "Latin", 6)
  const CommentRows: seq<(Cohort, Instructor)> := [(Evening1, Steve), (Day13, Joe), (Day21, Jisie), (Day21, Emily)]

  lemma CommentRowsKeyed()
    ensures ByCohort(CommentRows) ==
            [Row(1, Evening1, Steve), Row(5, Day13, Joe), Row(6, Day21, Jisie), Row(6, Day21, Emily)]
  {
  }

  lemma CommentRowsChildren()
    ensures ChildrenOf(ByCohort(CommentRows), 6) == [Jisie, Emily]
    ensures ChildrenOf(ByCohort(CommentRows), 5) == [Joe]
    ensures ChildrenOf(ByCohort(CommentRows), 1) == [Steve]
  {
    CommentRowsKeyed();
    var rows := ByCohort(CommentRows);
    assert rows[1..][1..] == rows[2..] && rows[2..][1..] == rows[3..] && rows[3..][1..] == [];
    assert ChildrenOf(rows[3..], 6) == [Emily];
    assert ChildrenOf(rows[3..], 5) == [] && ChildrenOf(rows[3..], 1) == [];
    assert ChildrenOf(rows[2..], 6) == [Jisie, Emily];
    assert ChildrenOf(rows[1..], 6) == [Jisie, Emily];
  }

  /** The dictionary built from that result set: Jisie and Emily end up in
      one collection under cohort 6. */
  lemma CommentRowsConsolidate(report: Index<Cohort, Instructor>)
    requires IsGrouping(report, ByCohort(CommentRows))
    ensures report.Keys == {1, 5, 6}
    ensures report[1] == Group(Evening1, [Steve])
    ensures report[5] == Group(Day13, [Joe])
    ensures report[6] == Group(Day21, [Jisie, Emily])
  {
    CommentRowsKeyed();
    CommentRowsChildren();
    var rows := ByCohort(CommentRows);
    KeysCons(rows);
    KeysCons(rows[1..]);
    KeysCons(rows[1..][1..]);
    KeysCons(rows[1..][1..][1..]);
  }

  // ---------------------------------------------------------------------
  // Student -> AssignedExercises (the `studentExercises` dictionary).
  // ---------------------------------------------------------------------

  method StudentExercises(rows: seq<(Student, Exercise)>) returns (studentExercises: Index<Student, Exercise>)
    ensures IsGrouping(studentExercises, ByStudent(rows))
  {
    var index := new GroupIndex<Student, Exercise>();
    index.ProcessRows(ByStudent(rows));
    studentExercises := index.groups;
    GroupRowsSpec(ByStudent(rows));
  }

  // ---------------------------------------------------------------------
  // Student -> AssignedExercises, with the Cohort field overwritten on every
  // row (the `verboseStudents` dictionary).
  // ---------------------------------------------------------------------

  /** One callback invocation: the usual insert-and-append, then the stored
      student's Cohort is set to this row's cohort. */
  function VerboseStep(m: Index<Student, Exercise>, row: (Student, Exercise, Cohort)): (m': Index<Student, Exercise>)
    // the student's id is present afterwards and no other id is added or removed
    ensures m'.Keys == m.Keys + {row.0.id}
    // every other entry is untouched
    ensures forall k | k in m && k != row.0.id :: m'[k] == m[k]
    // the stored student is kept (or the row's student for a new id), with its Cohort set to the row's
    ensures m'[row.0.id].parent ==
            (if row.0.id in m then m[row.0.id].parent else row.0).(cohort := Some(row.2))
    // exactly one exercise is appended, to a list that starts empty for a new id
    ensures m'[row.0.id].children == (if row.0.id in m then m[row.0.id].children else []) + [row.1]
  {
    var m1 := Step(m, Row(row.0.id, row.0, row.1));
    m1[row.0.id := Group(m1[row.0.id].parent.(cohort := Some(row.2)), m1[row.0.id].children)]
  }

  /** The `verboseStudents` dictionary after the callback has run on every row. */
  function VerboseFold(rows: seq<(Student, Exercise, Cohort)>): (m: Index<Student, Exercise>)
    // one entry per student id of the rows
    ensures m.Keys == Keys(StudentExerciseRows(rows))
    decreases |rows|
  {
    if rows == [] then map[]
    else
      var init, row := rows[..|rows| - 1], rows[|rows| - 1];
      assert init + [row] == rows;
      StudentExerciseRowsSnoc(init, row);
      KeysSnoc(StudentExerciseRows(init), Row(row.0.id, row.0, row.1));
      VerboseStep(VerboseFold(init), row)
  }

  /** The cohort of the last row for the student with this id. */
  function LastCohort(rows: seq<(Student, Exercise, Cohort)>, id: int): (c: Cohort)
    requires id in Keys(StudentExerciseRows(rows))
    ensures exists i :: 0 <= i < |rows| && rows[i].0.id == id && rows[i].2 == c &&
                        forall j :: i < j < |rows| ==> rows[j].0.id != id
    decreases |rows|
  {
    var n := |rows| - 1;
    if rows[n].0.id == id then rows[n].2
    else
      StudentExerciseRowsSnoc(rows[..n], rows[n]);
      assert rows[..n] + [rows[n]] == rows;
      KeysSnoc(StudentExerciseRows(rows[..n]), Row(rows[n].0.id, rows[n].0, rows[n].1));
      var c := LastCohort(rows[..n], id);
      ghost var i :| 0 <= i < n && rows[..n][i].0.id == id && rows[..n][i].2 == c &&
                     forall j :: i < j < n ==> rows[..n][j].0.id != id;
      assert forall j :: i < j < |rows| ==> rows[j].0.id != id by {
        forall j | i < j < |rows| ensures rows[j].0.id != id {
          if j < n { assert rows[..n][j] == rows[j]; }
        }
      }
      assert rows[i].0.id == id && rows[i].2 == c;
      c
  }

  lemma StudentExerciseRowsSnoc(rows: seq<(Student, Exercise, Cohort)>, row: (Student, Exercise, Cohort))
    ensures StudentExerciseRows(rows + [row]) == StudentExerciseRows(rows) + [Row(row.0.id, row.0, row.1)]
  {
  }

  /** The verbose fold at one student id. */
  lemma {:induction false} VerboseAt(rows: seq<(Student, Exercise, Cohort)>, id: int)
    ensures id in VerboseFold(rows) <==> id in Keys(StudentExerciseRows(rows))
    ensures id in VerboseFold(rows) ==>
              VerboseFold(rows)[id] ==
              Group(FirstParent(StudentExerciseRows(rows), id).(cohort := Some(LastCohort(rows, id))),
                    ChildrenOf(StudentExerciseRows(rows), id))
    decreases |rows|
  {
    if rows != [] {
      var n := |rows| - 1;
      var init, row := rows[..n], rows[n];
      var r := Row(row.0.id, row.0, row.1);
      assert init + [row] == rows;
      StudentExerciseRowsSnoc(init, row);
      VerboseAt(init, id);
      KeysSnoc(StudentExerciseRows(init), r);
      ChildrenOfSnoc(StudentExerciseRows(init), r, id);
      if id in Keys(StudentExerciseRows(rows)) {
        FirstParentSnoc(StudentExerciseRows(init), r, id);
      }
    }
  }

  lemma VerboseFoldSpec(rows: seq<(Student, Exercise, Cohort)>)
    ensures VerboseFold(rows).Keys == Keys(StudentExerciseRows(rows))
    ensures forall id | id in VerboseFold(rows) ::
              VerboseFold(rows)[id] ==
              Group(FirstParent(StudentExerciseRows(rows), id).(cohort := Some(LastCohort(rows, id))),
                    ChildrenOf(StudentExerciseRows(rows), id))
  {
    forall id ensures id in VerboseFold(rows) <==> id in Keys(StudentExerciseRows(rows)) {
      VerboseAt(rows, id);
    }
    forall id | id in VerboseFold(rows)
      ensures VerboseFold(rows)[id] ==
              Group(FirstParent(StudentExerciseRows(rows), id).(cohort := Some(LastCohort(rows, id))),
                    ChildrenOf(StudentExerciseRows(rows), id))
    {
      VerboseAt(rows, id);
    }
  }

  lemma VerboseFoldPrefix(rows: seq<(Student, Exercise, Cohort)>, i: int)
    requires 0 <= i < |rows|
    ensures VerboseFold(rows[..i + 1]) == VerboseStep(VerboseFold(rows[..i]), rows[i])
  {
    assert rows[..i + 1][..i] == rows[..i];
  }

  /** One entry per student id; its student is the first-seen one except for
      the Cohort field, which holds the cohort of the student's last row; its
      exercises are those of the student's rows, in row order. */
  method VerboseStudents(rows: seq<(Student, Exercise, Cohort)>) returns (verboseStudents: Index<Student, Exercise>)
    ensures verboseStudents.Keys == Keys(StudentExerciseRows(rows))
    ensures forall id | id in verboseStudents ::
              verboseStudents[id].parent ==
              FirstParent(StudentExerciseRows(rows), id).(cohort := Some(LastCohort(rows, id)))
    ensures forall id | id in verboseStudents ::
              verboseStudents[id].children == ChildrenOf(StudentExerciseRows(rows), id)
  {
    var index := new GroupIndex<Student, Exercise>();
    var i := 0;
    while i < |rows|
      invariant 0 <= i <= |rows|
      invariant index.groups == VerboseFold(rows[..i])
    {
      var (student, exercise, cohort) := rows[i];
      ghost var prev := index.groups;
      index.ProcessRow(Row(student.id, student, exercise));
      var current := index.groups[student.id].parent;
      index.ReplaceParent(student.id, current.(cohort := Some(cohort)));
      assert index.groups == VerboseStep(prev, rows[i]);
      VerboseFoldPrefix(rows, i);
      i := i + 1;
    }
    assert rows[..|rows|] == rows;
    verboseStudents := index.groups;
    VerboseFoldSpec(rows);
  }

  // ---------------------------------------------------------------------
  // Cohort -> Students, then Instructors, in one dictionary (the
  // `cohortInstructorStudent` dictionary). After the first query, each stored
  // cohort is a cohort with its Students list; the second query appends to its
  // Instructors list, which is still empty.
  // ---------------------------------------------------------------------

  /** A stored cohort as the second query finds it: a cohort with its
      students, and the instructors appended so far. */
  type Roster = Group<Group<Cohort, Student>, Instructor>

  /** The first query's dictionary, each cohort with an empty Instructors list. */
  function WithNoInstructors(m: Index<Cohort, Student>): (m': Index<Group<Cohort, Student>, Instructor>)
    ensures m'.Keys == m.Keys
    ensures forall k | k in m :: m'[k].parent == m[k] && m'[k].children == []
  {
    map k | k in m :: Group(m[k], [])
  }

  /** The second query's rows: each mapped cohort is fresh, so its Students
      list is empty. */
  function RosterRows(rows: seq<(Cohort, Instructor)>): (rs: seq<Row<Group<Cohort, Student>, Instructor>>)
    ensures |rs| == |rows|
    // one row per query row, keyed on its cohort's id, with no students yet
    ensures forall i | 0 <= i < |rows| ::
              rs[i].key == rows[i].0.id && rs[i].parent.parent == rows[i].0 &&
              rs[i].parent.children == [] && rs[i].child == rows[i].1
  {
    seq(|rows|, i requires 0 <= i < |rows| => Row(rows[i].0.id, Group(rows[i].0, []), rows[i].1))
  }

  /** The second query's rows, keyed for the cohort dictionary, mean the same
      as the plain cohort/instructor rows with an empty Students list. */
  lemma {:induction false} RosterRowsAt(rows: seq<(Cohort, Instructor)>, id: int)
    ensures id in Keys(RosterRows(rows)) <==> id in Keys(ByCohort(rows))
    ensures ChildrenOf(RosterRows(rows), id) == ChildrenOf(ByCohort(rows), id)
    ensures id in Keys(ByCohort(rows)) ==>
              FirstParent(RosterRows(rows), id) == Group(FirstParent(ByCohort(rows), id), [])
    decreases |rows|
  {
    if rows != [] {
      var a, b := RosterRows(rows), ByCohort(rows);
      assert a[1..] == RosterRows(rows[1..]);
      assert b[1..] == ByCohort(rows[1..]);
      KeysCons(a);
      KeysCons(b);
      RosterRowsAt(rows[1..], id);
    }
  }

  /** Both queries run, in order, into one dictionary. */
  function RosterFold(studentRows: seq<(Cohort, Student)>, instructorRows: seq<(Cohort, Instructor)>)
    : (m: Index<Group<Cohort, Student>, Instructor>)
    // one entry per cohort id that either query returns
    ensures m.Keys == Keys(ByCohort(studentRows)) + Keys(ByCohort(instructorRows))
  {
    assert Keys(RosterRows(instructorRows)) == Keys(ByCohort(instructorRows)) by {
      forall id ensures id in Keys(RosterRows(instructorRows)) <==> id in Keys(ByCohort(instructorRows)) {
        RosterRowsAt(instructorRows, id);
      }
    }
    Fold(WithNoInstructors(GroupRows(ByCohort(studentRows))), RosterRows(instructorRows))
  }

  /** The two folds at one cohort id. */
  lemma RosterAt(studentRows: seq<(Cohort, Student)>, instructorRows: seq<(Cohort, Instructor)>, id: int)
    ensures id in RosterFold(studentRows, instructorRows) <==>
            id in Keys(ByCohort(studentRows)) || id in Keys(ByCohort(instructorRows))
    ensures id in Keys(ByCohort(studentRows)) ==>
              RosterFold(studentRows, instructorRows)[id].parent ==
              Group(FirstParent(ByCohort(studentRows), id), ChildrenOf(ByCohort(studentRows), id))
    ensures id in Keys(ByCohort(instructorRows)) && id !in Keys(ByCohort(studentRows)) ==>
              RosterFold(studentRows, instructorRows)[id].parent ==
              Group(FirstParent(ByCohort(instructorRows), id), [])
    ensures id in RosterFold(studentRows, instructorRows) ==>
              RosterFold(studentRows, instructorRows)[id].children == ChildrenOf(ByCohort(instructorRows), id)
  {
    var first := GroupRows(ByCohort(studentRows));
    FoldAt(map[], ByCohort(studentRows), id);
    FoldAt(WithNoInstructors(first), RosterRows(instructorRows), id);
    RosterRowsAt(instructorRows, id);
  }

  /** Running the Students query and then the Instructors query into one
      dictionary: the key set is the union of both queries' cohort ids; the
      second query never alters a Students list; a cohort reached only by the
      second query has no students; every cohort's instructors are those of
      its rows in the second query, in row order. */
  lemma RosterFoldSpec(studentRows: seq<(Cohort, Student)>, instructorRows: seq<(Cohort, Instructor)>)
    ensures RosterFold(studentRows, instructorRows).Keys ==
            Keys(ByCohort(studentRows)) + Keys(ByCohort(instructorRows))
    ensures forall id | id in Keys(ByCohort(studentRows)) ::
              RosterFold(studentRows, instructorRows)[id].parent ==
              Group(FirstParent(ByCohort(studentRows), id), ChildrenOf(ByCohort(studentRows), id))
    ensures forall id | id in Keys(ByCohort(instructorRows)) && id !in Keys(ByCohort(studentRows)) ::
              RosterFold(studentRows, instructorRows)[id].parent ==
              Group(FirstParent(ByCohort(instructorRows), id), [])
    ensures forall id | id in RosterFold(studentRows, instructorRows) ::
              RosterFold(studentRows, instructorRows)[id].children == ChildrenOf(ByCohort(instructorRows), id)
  {
    forall id ensures id in RosterFold(studentRows, instructorRows) <==>
                      id in Keys(ByCohort(studentRows)) || id in Keys(ByCohort(instructorRows))
    {
      RosterAt(studentRows, instructorRows, id);
    }
    forall id | id in Keys(ByCohort(studentRows))
      ensures RosterFold(studentRows, instructorRows)[id].parent ==
              Group(FirstParent(ByCohort(studentRows), id), ChildrenOf(ByCohort(studentRows), id))
    {
      RosterAt(studentRows, instructorRows, id);
    }
    forall id | id in Keys(ByCohort(instructorRows)) && id !in Keys(ByCohort(studentRows))
      ensures RosterFold(studentRows, instructorRows)[id].parent ==
              Group(FirstParent(ByCohort(instructorRows), id), [])
    {
      RosterAt(studentRows, instructorRows, id);
    }
    forall id | id in RosterFold(studentRows, instructorRows)
      ensures RosterFold(studentRows, instructorRows)[id].children == ChildrenOf(ByCohort(instructorRows), id)
    {
      RosterAt(studentRows, instructorRows, id);
    }
  }

  /** The `cohortInstructorStudent` dictionary after both queries. */
  method CohortRosters(studentRows: seq<(Cohort, Student)>, instructorRows: seq<(Cohort, Instructor)>)
    returns (cohortInstructorStudent: Index<Group<Cohort, Student>, Instructor>)
    ensures cohortInstructorStudent == RosterFold(studentRows, instructorRows)
  {
    var index := new GroupIndex<Cohort, Student>();
    index.ProcessRows(ByCohort(studentRows));
    var both := new GroupIndex<Group<Cohort, Student>, Instructor>.Holding(WithNoInstructors(index.groups));
    both.ProcessRows(RosterRows(instructorRows));
    cohortInstructorStudent := both.groups;
  }

  // ---------------------------------------------------------------------
  // Exercise -> list of (Student, Instructor, Cohort) (the
  // `studentExerciseCohortInstructor` dictionary).
  // ---------------------------------------------------------------------

  /** One entry per exercise id, holding the first-seen exercise and the
      (student, instructor, cohort) triples of its rows in row order; a new
      entry starts from an empty list. */
  method ExerciseAssignments(rows: seq<(Exercise, Student, Instructor, Cohort)>)
    returns (studentExerciseCohortInstructor: Index<Exercise, (Student, Instructor, Cohort)>)
    ensures IsGrouping(studentExerciseCohortInstructor, ByExercise(rows))
  {
    var index := new GroupIndex<Exercise, (Student, Instructor, Cohort)>();
    index.ProcessRows(ByExercise(rows));
    studentExerciseCohortInstructor := index.groups;
    GroupRowsSpec(ByExercise(rows));
  }
}
