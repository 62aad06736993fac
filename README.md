# Grouping joined rows by parent id (student-exercises)

The program runs join queries over a small classroom database (cohorts,
instructors, students, exercises) and turns the flat result rows into nested
objects. Six query callbacks, filling five dictionaries, do the same thing: for
each joined row the callback looks up the parent's id in a
`Dictionary<int, Parent>`, inserts the row's parent when the id is missing, and
appends the row's child to that parent's list. This project models that fold
once, generically, and then instantiates it for each of the five dictionaries:

- `report`: Cohort to Instructors.
- `studentExercises`: Student to AssignedExercises.
- `verboseStudents`: Student to AssignedExercises, where the student's `Cohort`
  field is also overwritten on every row.
- `cohortInstructorStudent`: two queries, and so two callbacks, folded in turn
  into one Cohort dictionary. The first fills Students and the second fills
  Instructors.
- `studentExerciseCohortInstructor`: Exercise to a list of
  (Student, Instructor, Cohort) triples.

Files:

- `grouping.dfy`, module `Grouping`. This holds the generic row
  (`Row(key, parent, child)`) and the dictionary value (`Group(parent,
  children)`). It has the one-row update `Step` and the fold `Fold`. It also
  has reference definitions stated on the rows alone: `Keys`, `FirstParent`
  and `ChildrenOf`. The lemmas connect the fold to these definitions. The
  class `GroupIndex` is the mutable dictionary: `ProcessRow` is one callback
  invocation and `ProcessRows` runs it over a row sequence.
- `entities.dfy`, module `Entities`. This holds the scalar fields of Cohort,
  Instructor, Exercise and Student, plus the Student's Cohort reference.
- `reports.dfy`, module `Reports`. This holds the five instances, which
  correspond to the six callbacks in `Main`.

A dictionary value is modelled as a value, `Group(parent, children)`: the
parent's own fields together with the child list that the callback appends
to. In the first four dictionaries the program stores a reference to an
object that Dapper mapped from the row. Dapper makes fresh objects for every
row, and only one object per id is ever stored, so entries never share a list.
In `studentExerciseCohortInstructor` the stored value is a value tuple
`(Exercise, List<(Student, Instructor, Cohort)>)` that the callback builds
itself, with a list it creates by `new List<…>()` (Program.cs:277, 302); that
list too belongs to one entry only. That is why the value model loses nothing
the program can observe. For `cohortInstructorStudent`, a stored
cohort has two lists. It is written `Group(Group(cohort, students),
instructors)`: the second query's parent value is the cohort together with its
Students list. `WithNoInstructors` turns the first query's dictionary into this
shape, with every Instructors list still empty.

The code does not de-duplicate children and has no error cases. Every row appends its child unconditionally, and a
later row never replaces a stored parent. `DuplicateRowsKept` states the
resulting behaviour.

## Model

| member | source | states |
|---|---|---|
| `Grouping.Step` | Program.cs:109-117 | One callback invocation adds the row's id to the key set and nothing else. Every other entry is unchanged. A stored parent is never replaced, and a new id stores the row's parent. Exactly one child is appended, to a list that starts empty for a new id. |
| `Grouping.Fold` | Program.cs:95-119 | Running the callback over the rows, in order, leaves exactly the old keys plus the parent ids of the rows. |
| `Grouping.GroupRows` | Program.cs:93-119 | A new dictionary followed by the fold has exactly one entry per parent id of the rows; `GroupRowsSpec` says what each entry holds. |
| `Grouping.GroupIndex.constructor` | Program.cs:93 | A new dictionary is empty. |
| `Grouping.GroupIndex.Holding` | Program.cs:251-263 | A dictionary object that already holds the given entries, as `cohortInstructorStudent` does when the second query starts on it. |
| `Grouping.GroupIndex.ProcessRow` | Program.cs:110-117 | The dictionary after one callback is `Step` of the dictionary before it. |
| `Grouping.GroupIndex.ProcessRows` | Program.cs:95-119 | After the query has called back on every row in order, the dictionary is `Fold` of the old dictionary over the rows. |
| `Grouping.GroupIndex.ReplaceParent` | Program.cs:203 | Assigning a field of a stored parent changes only that entry's parent. Its child list and every other entry stay as they were. |
| `Grouping.FirstParent` | Program.cs:110-114 | The result is the parent of some row with the given id, and no earlier row has that id. |
| `Grouping.ChildrenOf` | Program.cs:117 | The child list of an id is never longer than the rows. It is empty exactly when no row carries that id. |
| `Grouping.FirstParentSnoc` | Program.cs:110-114 | A later row never changes the first-seen parent of an id that already occurs. |
| `Grouping.ChildrenOfSnoc` | Program.cs:117 | One more row appends its child to its own id's list, at the end, and leaves every other id's list as it was. |
| `Grouping.FoldAt` | Program.cs:107-119 | At one id, folding rows into any dictionary works as follows. The id is present exactly when it was there before or some row carries it. An existing entry keeps its parent and gains that id's children in row order. A created entry holds the first row's parent and exactly that id's children. |
| `Grouping.FoldSpec` | Program.cs:107-119 | The same holds for all ids at once. The key set becomes the old keys plus the rows' ids. |
| `Grouping.GroupRowsSpec` | Program.cs:93-119 | Folding from an empty dictionary gives exactly these keys: the parent ids occurring in the rows. Each entry holds the first-seen parent and the order-preserving filter of the rows' children on its id. |
| `Grouping.DuplicateRowsKept` | Program.cs:117 | Two identical rows append the child twice, because there is no membership check. |
| `Grouping.GroupRowsKeepsEveryChild` | Program.cs:117 | Walk the dictionary along any repeat-free list of ids that covers its keys. The children found are, as a multiset, exactly the rows' children. Their number equals the number of rows. |
| `Reports.CohortInstructors` | Program.cs:93-119 | `report` has one entry per cohort id of the rows. Each entry holds the first-seen cohort and the instructors of that cohort's rows in row order. |
| `Reports.CommentRowsConsolidate` | Program.cs:79-91 | For the result set in the program's comment, the keys are {1, 5, 6}. Jisie and Emily, in that order, form the one instructor list of cohort 6. |
| `Reports.StudentExercises` | Program.cs:137-159 | `studentExercises` has one entry per student id. Each entry holds the first-seen student and the exercises of that student's rows in row order. |
| `Reports.VerboseStep` | Program.cs:198-203 | One verbose callback adds the student's id to the key set and nothing else, leaving every other entry unchanged. The stored student (or the row's student, for a new id) is kept but its Cohort field becomes the row's cohort. Exactly one exercise is appended, to a list that starts empty for a new id. |
| `Reports.VerboseFold` | Program.cs:196-205 | After the verbose callback has run on every row, the dictionary has exactly one entry per student id of the rows. |
| `Reports.LastCohort` | Program.cs:203 | The result is the cohort of some row of the student, and no later row belongs to that student. |
| `Reports.VerboseFoldSpec` | Program.cs:196-205 | Each student id occurring in the rows has one entry. Its student is the first-seen one, except that its Cohort field holds the cohort of the student's last row. Its exercises are those of the student's rows in row order. |
| `Reports.VerboseStudents` | Program.cs:179-205 | The `verboseStudents` dictionary fits the description given for `VerboseFoldSpec`. This is shown by a loop that does the insert-and-append and then the field overwrite for each row. |
| `Reports.WithNoInstructors` | Program.cs:243-251 | Between the two queries, the dictionary has the same cohort ids as the first query left, each with its cohort and Students list, and every Instructors list is still empty. |
| `Reports.RosterRows` | Program.cs:251-259 | The second query yields one row per result row, keyed on the cohort's id, carrying the freshly mapped cohort with an empty Students list and the instructor. |
| `Reports.RosterFold` | Program.cs:237-263 | After both queries, the dictionary has one entry per cohort id that either query returns; `RosterFoldSpec` says what each entry holds. |
| `Reports.RosterFoldSpec` | Program.cs:235-263 | After the Students query and then the Instructors query, the key set is the union of both queries' cohort ids. A cohort reached by the first query keeps its first-seen cohort and its Students list, and the second query leaves both unchanged. A cohort reached only by the second query has no Students. Every cohort's Instructors are those of its rows in the second query, in row order. |
| `Reports.CohortRosters` | Program.cs:235-263 | `cohortInstructorStudent` is the result of running both queries into one dictionary, in that order. |
| `Reports.ExerciseAssignments` | Program.cs:277-306 | `studentExerciseCohortInstructor` has one entry per exercise id. Each entry holds the first-seen exercise and the (student, instructor, cohort) triples of its rows in row order. A new entry starts from an empty list. |

## Left out

- The SQL text and Dapper's `Query<...>` calls are not modelled. Dapper splits each result row into typed objects by column position. This is library behaviour, so each query's rows are an input sequence of already-mapped tuples, in the order the query returns them.
- `DatabaseInterface` is not part of this model. It covers the connection and the table checks at Program.cs:22-27, which are I/O.
- `Models/StudentExercise.cs` is left out: its table definition and seed inserts are database side effects and fixture data.
- The plain list-and-print queries (Program.cs:29-40) are left out, and so is the single-parent property assignment at Program.cs:51-68. Neither has any logic to verify.
- Console output is left out. This covers string interpolation, `StringBuilder` and `String.Join` (Program.cs:124-127, 161-167, 210-220, 265-272, 309-315).
- The enumeration order of `Dictionary` is not modelled. .NET does not guarantee it, and the program relies on it only for printing.
- The value each callback returns, and the sequence Dapper builds from those values, are not modelled. The program discards both (Program.cs:95, 139, 181, 237, 251, 279). The model assumes each callback has run on every row before `Query` returns. That holds because Dapper's `buffered` argument defaults to true; an unbuffered query whose result is never enumerated would not run the callbacks at all.
- The entity classes (Cohort, Student, Instructor, Exercise) are not part of this model. Their scalar fields are taken from the queries' column lists. Their child lists are taken to start empty, and that is what `Group(parent, [])` encodes. The Students list of a cohort in `report`, which no callback touches, is not represented.
- Object identity is not modelled. The dictionary's values are treated as values, not references, as explained above.
- Ids are unbounded integers rather than 32-bit `int`. The code only compares them and never does arithmetic on them.
