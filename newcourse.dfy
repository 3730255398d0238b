/** The "add course" form's server action: it normalises the submitted fields,
    creates at most one course, and always sends the browser back to the list. */
module NewCoursePage {
  import opened Wrappers
  import opened Text
  import opened Models
  import opened Store

  /** The submitted form: `formData.get(name)`, `None` for a field that was not sent. */
  datatype CourseForm = CourseForm(
    title: Option<string>,
    description: Option<string>,
    level: Option<string>,
    category: Option<string>,
    link: Option<string>)

  const CoursesPath := "/courses"

  /** `field?.trim() || ''`. */
  function FormText(f: Option<string>): (r: string)
    ensures f.None? ==> r == []
    ensures f.Some? ==> r == Trim(f.value)
  {
    if f.None? then [] else Trim(f.value)
  }

  /** The input handed to `createCourse`, or nothing when the trimmed title is
      missing or empty and the action only redirects. */
  function FormCourse(form: CourseForm): (r: Option<CourseInput>)
    ensures r.None? <==> form.title.None? || Trim(form.title.value) == []
    ensures r.Some? ==>
      && r.value.title == Trim(form.title.value)
      && r.value.description == Some(FormText(form.description))
      && r.value.level == Some(FormText(form.level))
      && r.value.category == Some(FormText(form.category))
      && r.value.link == Some(FormText(form.link))
  {
    if form.title.None? || Trim(form.title.value) == [] then None
    else Some(CourseInput(Trim(form.title.value), Some(FormText(form.description)),
      Some(FormText(form.level)), Some(FormText(form.category)), Some(FormText(form.link))))
  }

  /** Trimming again in `createCourse` changes nothing: the stored course holds
      exactly the normalised form fields, and its title passes `required`. */
  lemma FormCourseIsStoredAsIs(form: CourseForm, t: nat)
    requires FormCourse(form).Some?
    ensures var d := NewCourse(FormCourse(form).value, t);
      && d.title == Trim(form.title.value) && RequiredOk(d.title)
      && d.description == Some(FormText(form.description))
      && d.level == Some(FormText(form.level))
      && d.category == Some(FormText(form.category))
      && d.link == Some(FormText(form.link))
      && d.completed == Some(false)
  {
    TrimIdempotent(form.title.value);
    FormTextIsTrimmed(form.description);
    FormTextIsTrimmed(form.level);
    FormTextIsTrimmed(form.category);
    FormTextIsTrimmed(form.link);
  }

  lemma FormTextIsTrimmed(f: Option<string>)
    ensures Trim(FormText(f)) == FormText(f)
  {
    if f.Some? {
      TrimIdempotent(f.value);
    } else {
      assert Trim([]) == [];
    }
  }

  /** `createCourseAction(formData)`: a blank title creates nothing; otherwise one
      course is created from the normalised fields. Both paths redirect to the
      course list. */
  method CreateCourseAction(db: Store, form: CourseForm) returns (redirectTo: string)
    requires db.Valid()
    modifies db`courses, db`clock
    ensures db.Valid()
    ensures redirectTo == CoursesPath
    ensures FormCourse(form).None? ==> db.courses == old(db.courses) && db.clock == old(db.clock)
    ensures FormCourse(form).Some? ==>
      && NatToString(old(db.clock)) !in old(db.courses)
      && db.courses == old(db.courses)[NatToString(old(db.clock)) := NewCourse(FormCourse(form).value, old(db.clock))]
      && db.clock == old(db.clock) + 1
  {
    var input := FormCourse(form);
    if input.None? {
      return CoursesPath;
    }
    TrimIdempotent(form.title.value);
    var res := db.CreateCourse(input.value);
    redirectTo := CoursesPath;
  }
}
