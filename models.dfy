/** The three stored record kinds with the rules of their schemas: which fields are
    required, which default to what, and that every string field is trimmed when it
    is written. `createdAt` and `updatedAt` are ticks of the store's clock. */
module Models {
  import opened Wrappers
  import opened Text

  /** A stored course. The optional text fields and `completed` may be missing or
      `null` in a document that was not written through the schema, which is why
      they are options here. */
  datatype CourseDoc = CourseDoc(
    title: string,
    description: Option<string>,
    level: Option<string>,
    category: Option<string>,
    link: Option<string>,
    completed: Option<bool>,
    createdAt: nat,
    updatedAt: nat)

  /** The fields `createCourse` and `updateCourse` accept; only the title is mandatory. */
  datatype CourseInput = CourseInput(
    title: string,
    description: Option<string>,
    level: Option<string>,
    category: Option<string>,
    link: Option<string>)

  datatype StudyLogDoc = StudyLogDoc(
    courseId: string,
    title: string,
    content: string,
    createdAt: nat,
    updatedAt: nat)

  datatype MemoDoc = MemoDoc(
    userId: string,
    title: string,
    content: Option<string>,
    isDone: bool,
    createdAt: nat,
    updatedAt: nat)

  /** Mongoose's `required` check for a string path: present and not empty. */
  predicate RequiredOk(s: string) {
    s != []
  }

  /** `Boolean(doc.completed)`: a missing flag reads as false. */
  function Completed(d: CourseDoc): (r: bool)
    ensures r <==> d.completed == Some(true)
  {
    d.completed.GetOr(false)
  }

  /** An optional string field as written through a trimming schema path. */
  function TrimField(s: Option<string>): (r: Option<string>)
    ensures s.None? ==> r.None?
    ensures s.Some? ==> r == Some(Trim(s.value))
  {
    match s
    case None => None
    case Some(v) => Some(Trim(v))
  }

  /** The document `Course.create(...)` builds from `createCourse`'s input at clock
      tick `t`: every text field trimmed, the omitted ones `''`, `completed` false.
      Whether the title passes `required` is checked by the store. */
  function NewCourse(input: CourseInput, t: nat): (d: CourseDoc)
    ensures d.title == Trim(input.title)
    ensures d.description == Some(Trim(input.description.GetOr("")))
    ensures d.level == Some(Trim(input.level.GetOr("")))
    ensures d.category == Some(Trim(input.category.GetOr("")))
    ensures d.link == Some(Trim(input.link.GetOr("")))
    ensures d.completed == Some(false) && d.createdAt == t && d.updatedAt == t
  {
    CourseDoc(
      Trim(input.title),
      Some(Trim(input.description.GetOr(""))),
      Some(Trim(input.level.GetOr(""))),
      Some(Trim(input.category.GetOr(""))),
      Some(Trim(input.link.GetOr(""))),
      Some(false), t, t)
  }

  /** `updateCourse`: all five text fields are replaced (an omitted optional one by
      `''`), `completed` and `createdAt` are kept, `updatedAt` moves to `t`. */
  function ReplacedCourse(d: CourseDoc, input: CourseInput, t: nat): (r: CourseDoc)
    ensures r.title == Trim(input.title)
    ensures r.description == Some(Trim(input.description.GetOr("")))
    ensures r.level == Some(Trim(input.level.GetOr("")))
    ensures r.category == Some(Trim(input.category.GetOr("")))
    ensures r.link == Some(Trim(input.link.GetOr("")))
    ensures r.completed == d.completed && r.createdAt == d.createdAt && r.updatedAt == t
  {
    NewCourse(input, t).(completed := d.completed, createdAt := d.createdAt)
  }

  /** `course.completed = !course.completed` on a loaded document, saved at `t`.
      Loading applies the default, so a missing flag is read as false. */
  function ToggledCourse(d: CourseDoc, t: nat): (r: CourseDoc)
    ensures Completed(r) == !Completed(d)
    ensures r.completed.Some?
    ensures r == d.(completed := r.completed, updatedAt := t)
  {
    d.(completed := Some(!Completed(d)), updatedAt := t)
  }

  /** Two toggles give back the original completion state. */
  lemma ToggleCourseTwice(d: CourseDoc, t1: nat, t2: nat)
    ensures Completed(ToggledCourse(ToggledCourse(d, t1), t2)) == Completed(d)
    ensures ToggledCourse(ToggledCourse(d, t1), t2) == d.(completed := Some(Completed(d)), updatedAt := t2)
  {
  }

  /** Replacing twice with the same input is the same as replacing once. */
  lemma ReplaceCourseIdempotent(d: CourseDoc, input: CourseInput, t1: nat, t2: nat)
    ensures ReplacedCourse(ReplacedCourse(d, input, t1), input, t2)
         == ReplacedCourse(d, input, t2)
  {
  }

  /** The study log `StudyLog.create(input)` builds: title and content trimmed. */
  function NewStudyLog(courseId: string, title: string, content: string, t: nat): (d: StudyLogDoc)
    ensures d.courseId == courseId && d.title == Trim(title) && d.content == Trim(content)
    ensures d.createdAt == t && d.updatedAt == t
  {
    StudyLogDoc(courseId, Trim(title), Trim(content), t, t)
  }

  /** The fields `updateStudyLog` accepts. */
  datatype LogEdit = LogEdit(title: string, content: string)

  /** `updateStudyLog`'s `$set`: title and content trimmed, the course kept. */
  function EditedStudyLog(d: StudyLogDoc, edit: LogEdit, t: nat): (r: StudyLogDoc)
    ensures r.courseId == d.courseId && r.title == Trim(edit.title) && r.content == Trim(edit.content)
    ensures r.createdAt == d.createdAt && r.updatedAt == t
  {
    d.(title := Trim(edit.title), content := Trim(edit.content), updatedAt := t)
  }

  /** The memo `createDashboardMemo` builds: title trimmed, content trimmed or `''`,
      not done. */
  function NewMemo(userId: string, title: string, content: Option<string>, t: nat): (d: MemoDoc)
    ensures d.userId == userId && d.title == Trim(title)
    ensures d.content == Some(if content.Some? then Trim(content.value) else "")
    ensures !d.isDone && d.createdAt == t && d.updatedAt == t
  {
    MemoDoc(userId, Trim(title), Some(Trim(content.GetOr(""))), false, t, t)
  }

  /** `updateDashboardMemo`'s `$set`: each supplied field trimmed, the other kept. */
  function PatchedMemo(d: MemoDoc, title: Option<string>, content: Option<string>, t: nat): (r: MemoDoc)
    ensures r.title == (if title.Some? then Trim(title.value) else d.title)
    ensures r.content == (if content.Some? then Some(Trim(content.value)) else d.content)
    ensures r.userId == d.userId && r.isDone == d.isDone && r.createdAt == d.createdAt
    ensures r.updatedAt == t
  {
    d.(title := if title.Some? then Trim(title.value) else d.title,
       content := if content.Some? then TrimField(content) else d.content,
       updatedAt := t)
  }

  /** Two patches in a row are one patch in which the later patch's fields win. */
  lemma PatchedMemoCompose(d: MemoDoc, t1: Option<string>, c1: Option<string>,
                           t2: Option<string>, c2: Option<string>, a: nat, b: nat)
    ensures PatchedMemo(PatchedMemo(d, t1, c1, a), t2, c2, b)
         == PatchedMemo(d, if t2.Some? then t2 else t1, if c2.Some? then c2 else c1, b)
  {
  }

  function ToggledMemo(d: MemoDoc, t: nat): (r: MemoDoc)
    ensures r.isDone == !d.isDone
    ensures r == d.(isDone := r.isDone, updatedAt := t)
  {
    d.(isDone := !d.isDone, updatedAt := t)
  }
}
