/**
 * The three entity kinds as data: table, primary key, the ordered field list
 * that the insert and update handlers walk, and the nouns their response
 * messages use.
 */
module Schemas {
  import opened SqlText

  datatype EntityKind = Student | Course | Enrollment

  /** `noun` is the lower-case word of the error messages ("Failed to create
      student"), `title` the capitalised one ("Student not found"). */
  datatype Schema = Schema(table: string, primaryKey: string, fields: seq<string>, noun: string, title: string)

  /** The field lists of the three handlers, in the order of their
      destructuring and of their `if` chains. */
  const StudentFields: seq<string> :=
    ["admission_number", "first_name", "last_name", "date_of_birth", "gender", "email",
     "phone_number", "address", "enrollment_date", "class_id", "parent_guardian_name",
     "parent_contact"]
  const CourseFields: seq<string> := ["course_code", "course_name", "description", "credit_hours", "teacher_name"]
  const EnrollmentFields: seq<string> := ["student_id", "course_id", "enrollment_date", "grade", "status"]

  /** The schema of each entity kind: its fields are distinct, the key is
      not one of them, and there are 12, 5 and 5 of them. */
  function SchemaFor(kind: EntityKind): (r: Schema)
    ensures Distinct(r.fields) && r.primaryKey !in r.fields
    ensures |r.fields| == match kind case Student => 12 case Course => 5 case Enrollment => 5
  {
    match kind
    case Student =>
      StudentFieldsDistinct();
      Schema("students", "student_id", StudentFields, "student", "Student")
    case Course =>
      CourseFieldsDistinct();
      Schema("courses", "course_id", CourseFields, "course", "Course")
    case Enrollment =>
      EnrollmentFieldsDistinct();
      Schema("enrollments", "enrollment_id", EnrollmentFields, "enrollment", "Enrollment")
  }

  predicate Distinct(xs: seq<string>) {
    forall i, j :: 0 <= i < j < |xs| ==> xs[i] != xs[j]
  }

  /** What the builders' guarantees rely on: every name is an identifier,
      the fields are distinct, and the primary key is not one of them (so an
      update never rewrites the key it selects by). */
  predicate ValidSchema(s: Schema) {
    && IsIdentifier(s.table)
    && IsIdentifier(s.primaryKey)
    && ValidFields(s)
  }

  /** The field list is made of identifiers, without repetition and
      without the primary key. */
  predicate ValidFields(s: Schema) {
    && (forall f :: f in s.fields ==> IsIdentifier(f))
    && Distinct(s.fields)
    && s.primaryKey !in s.fields
  }

  lemma StudentFieldsValid() ensures ValidFields(SchemaFor(Student)) {
    StudentFieldNames();
  }
  lemma StudentFieldNames() ensures forall f :: f in StudentFields ==> IsIdentifier(f) {
    var fs := StudentFields;
    assert fs == fs[..4] + fs[4..8] + fs[8..];
    StudentFieldNames1();
    StudentFieldNames2();
    StudentFieldNames3();
  }
  lemma StudentFieldNames1() ensures forall f :: f in StudentFields[..4] ==> IsIdentifier(f) { }
  lemma StudentFieldNames2() ensures forall f :: f in StudentFields[4..8] ==> IsIdentifier(f) { }
  lemma StudentFieldNames3() ensures forall f :: f in StudentFields[8..] ==> IsIdentifier(f) { }
  lemma StudentFieldsDistinct() ensures Distinct(StudentFields) && "student_id" !in StudentFields && |StudentFields| == 12 {
    StudentFieldsDistinct1();
    StudentFieldsDistinct2();
  }
  lemma StudentFieldsDistinct1() ensures forall i, j :: 0 <= i < j < 6 ==> StudentFields[i] != StudentFields[j] { }
  lemma StudentFieldsDistinct2() ensures forall i, j :: 0 <= i < 12 && 6 <= j < 12 && i < j ==> StudentFields[i] != StudentFields[j] { }

  lemma CourseFieldsValid() ensures ValidFields(SchemaFor(Course)) {
    CourseFieldNames();
  }
  lemma CourseFieldNames() ensures forall f :: f in CourseFields ==> IsIdentifier(f) { }
  lemma CourseFieldsDistinct() ensures Distinct(CourseFields) && "course_id" !in CourseFields && |CourseFields| == 5 { }

  lemma EnrollmentFieldsValid() ensures ValidFields(SchemaFor(Enrollment)) {
    EnrollmentFieldNames();
  }
  lemma EnrollmentFieldNames() ensures forall f :: f in EnrollmentFields ==> IsIdentifier(f) { }
  lemma EnrollmentFieldsDistinct() ensures Distinct(EnrollmentFields) && "enrollment_id" !in EnrollmentFields && |EnrollmentFields| == 5 { }

  lemma StudentNamesValid() ensures IsIdentifier("students") && IsIdentifier("student_id") { }
  lemma CourseNamesValid() ensures IsIdentifier("courses") && IsIdentifier("course_id") { }
  lemma EnrollmentNamesValid() ensures IsIdentifier("enrollments") && IsIdentifier("enrollment_id") { }

  /** Each of the three schemas is valid; the insert handlers bind 12, 5 and 5
      values. */
  lemma SchemaValid(kind: EntityKind)
    ensures ValidSchema(SchemaFor(kind))
    ensures |SchemaFor(kind).fields| == match kind case Student => 12 case Course => 5 case Enrollment => 5
  {
    match kind
    case Student => StudentFieldsValid(); StudentNamesValid();
    case Course => CourseFieldsValid(); CourseNamesValid();
    case Enrollment => EnrollmentFieldsValid(); EnrollmentNamesValid();
  }
}
