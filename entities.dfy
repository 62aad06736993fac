/**
 The entities the join queries map their rows to, reduced to their scalar
 fields plus the Student's Cohort reference. The child lists that the
 program's classes carry (a cohort's Instructors and Students, a student's
 AssignedExercises) live beside the parent in a `Grouping.Group`, because
 they are exactly what the join callbacks fill in.
 */
module Entities {

  datatype Option<T> = None | Some(value: T)

  datatype Cohort = Cohort(id: int, name: string)

  datatype Instructor = Instructor(
    id: int,
    firstName: string,
    lastName: string,
    slackHandle: string,
    specialty: string,
    cohortId: int)

  datatype Exercise = Exercise(id: int, name: string, language: string)

  /** `cohort` is the student's Cohort reference; `None` stands for null. */
  datatype Student = Student(
    id: int,
    firstName: string,
    lastName: string,
    slackHandle: string,
    cohort: Option<Cohort>)
}
