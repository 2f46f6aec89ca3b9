/** The record form of the browser client: the subject, class and student cascade, the
    lookups of the chosen items, the comma-separated tag field, and the guard and body of a
    submission. The page's `<select>` elements are modelled by `Select`. */
module Client {
  import opened Wrappers
  import opened Text
  import opened Json

  datatype Teacher = Teacher(id: string, name: string)
  datatype Subject = Subject(id: string, name: string)
  datatype SchoolClass = SchoolClass(id: string, subjectId: string, name: string)
  datatype Student = Student(id: string, classId: string, number: int, name: string)

  /** The reference data `GET /api/bootstrap` answers with. */
  datatype Bootstrap = Bootstrap(teacher: Teacher, subjects: seq<Subject>, classes: seq<SchoolClass>, students: seq<Student>)

  function SubjectId(s: Subject): string { s.id }
  function SubjectName(s: Subject): string { s.name }
  function ClassId(c: SchoolClass): string { c.id }
  function ClassName(c: SchoolClass): string { c.name }
  function StudentId(s: Student): string { s.id }

  function DigitChar(d: nat): char
    requires d < 10
  {
    "0123456789"[d]
  }

  /** Every character is a decimal digit. */
  predicate IsDigits(s: string) {
    forall i :: 0 <= i < |s| ==> '0' <= s[i] <= '9'
  }

  /** A JavaScript integer in a template string: decimal digits without leading zeros, with a
      minus sign exactly when negative. */
  function DecimalString(n: int): (r: string)
    ensures r != [] && (r[0] == '-' <==> n < 0)
    ensures n >= 0 ==> IsDigits(r)
    ensures n < 0 ==> IsDigits(r[1..])
    ensures n > 0 ==> r[0] != '0'
    ensures n < 0 ==> |r| >= 2 && r[1] != '0'
    decreases if n < 0 then 1 - n else n
  {
    if n < 0 then "-" + DecimalString(-n)
    else if n < 10 then [DigitChar(n)]
    else DecimalString(n / 10) + [DigitChar(n % 10)]
  }

  /** The value of a string of decimal digits. */
  function DecimalValue(s: string): nat
    requires IsDigits(s)
  {
    if s == [] then 0 else DecimalValue(s[..|s| - 1]) * 10 + (s[|s| - 1] as int - '0' as int)
  }

  /** The digits written for a non-negative number read back as that number. */
  lemma {:induction false} DecimalRoundTrip(n: nat)
    ensures DecimalValue(DecimalString(n)) == n
    decreases n
  {
    if n >= 10 {
      var q, c := n / 10, n % 10;
      var d, r := DecimalString(q), DecimalString(n);
      assert r == d + [DigitChar(c)];
      assert r[..|r| - 1] == d;
      DecimalRoundTrip(q);
    }
  }

  /** `${student.number}번 ${student.name}`: the number in decimal, then `번 `, then the name. */
  function StudentLabel(s: Student): (r: string)
    ensures var d := DecimalString(s.number);
      && |r| == |d| + 2 + |s.name|
      && r[..|d|] == d && r[|d|..|d| + 2] == "번 " && r[|d| + 2..] == s.name
  {
    DecimalString(s.number) + "번 " + s.name
  }

  // ---------------------------------------------------------------- lookups

  /** Position of the first item whose id is `id`, `Array.prototype.find`'s choice. */
  function FindIndex<T>(items: seq<T>, idOf: T -> string, id: string): (r: Option<nat>)
    ensures r.Some? ==> r.value < |items| && idOf(items[r.value]) == id
    ensures r.Some? ==> forall j :: 0 <= j < r.value ==> idOf(items[j]) != id
    ensures r.None? ==> forall j :: 0 <= j < |items| ==> idOf(items[j]) != id
  {
    if items == [] then None
    else if idOf(items[0]) == id then Some(0)
    else match FindIndex(items[1..], idOf, id)
      case None => None
      case Some(k) => Some(k + 1)
  }

  /** `items.find((item) => item.id === id)`; `None` stands for `undefined`. */
  function Find<T>(items: seq<T>, idOf: T -> string, id: string): (r: Option<T>)
    ensures r.Some? <==> exists i :: 0 <= i < |items| && idOf(items[i]) == id
    ensures r.Some? ==> exists i :: (0 <= i < |items| && items[i] == r.value && idOf(items[i]) == id
      && forall j :: 0 <= j < i ==> idOf(items[j]) != id)
  {
    match FindIndex(items, idOf, id)
    case None => None
    case Some(i) => Some(items[i])
  }

  // ---------------------------------------------------------------- cascade

  /** `state.classes.filter((klass) => klass.subjectId === subjectId)`: the classes of the
      subject, in their original order, each as often as it occurs. */
  function ClassesOf(classes: seq<SchoolClass>, subjectId: string): (r: seq<SchoolClass>)
    ensures forall c :: c in r <==> c in classes && c.subjectId == subjectId
    ensures IsSubsequence(r, classes)
    ensures forall c: SchoolClass :: c.subjectId == subjectId ==> multiset(r)[c] == multiset(classes)[c]
  {
    if classes == [] then []
    else
      assert classes == [classes[0]] + classes[1..];
      if classes[0].subjectId == subjectId then [classes[0]] + ClassesOf(classes[1..], subjectId)
      else ClassesOf(classes[1..], subjectId)
  }

  /** `state.students.filter((student) => student.classId === classId)`, in original order. */
  function StudentsOf(students: seq<Student>, classId: string): (r: seq<Student>)
    ensures forall s :: s in r <==> s in students && s.classId == classId
    ensures IsSubsequence(r, students)
    ensures forall s: Student :: s.classId == classId ==> multiset(r)[s] == multiset(students)[s]
    ensures forall s: Student :: s.classId != classId ==> multiset(r)[s] == 0
  {
    if students == [] then []
    else
      assert students == [students[0]] + students[1..];
      if students[0].classId == classId then [students[0]] + StudentsOf(students[1..], classId)
      else StudentsOf(students[1..], classId)
  }

  predicate SortedByNumber(s: seq<Student>) {
    forall i, j :: 0 <= i < j < |s| ==> s[i].number <= s[j].number
  }

  /** Puts `x` in front of the first student with a number at least as large. */
  function InsertByNumber(x: Student, s: seq<Student>): (r: seq<Student>)
    requires SortedByNumber(s)
    ensures SortedByNumber(r)
    ensures multiset(r) == multiset(s) + multiset{x}
    ensures |r| == |s| + 1 && (r[0] == x || (s != [] && r[0] == s[0]))
  {
    if s == [] || x.number <= s[0].number then [x] + s
    else
      assert s == [s[0]] + s[1..];
      [s[0]] + InsertByNumber(x, s[1..])
  }

  /** `.sort((a, b) => a.number - b.number)`: sorted by number and a permutation of its input.
      (Insertion from the back keeps students with equal numbers in their original order, as
      the standard's stable sort does.) */
  function SortByNumber(s: seq<Student>): (r: seq<Student>)
    ensures SortedByNumber(r)
    ensures multiset(r) == multiset(s)
  {
    if s == [] then []
    else
      assert s == [s[0]] + s[1..];
      InsertByNumber(s[0], SortByNumber(s[1..]))
  }

  /** The student list of `refreshStudentSelect`. */
  function StudentOptions(students: seq<Student>, classId: string): seq<Student> {
    SortByNumber(StudentsOf(students, classId))
  }

  /** The student list holds exactly the students of the class, each as often as in the
      reference data, in non-decreasing number order. */
  lemma StudentOptionsSpec(students: seq<Student>, classId: string)
    ensures SortedByNumber(StudentOptions(students, classId))
    ensures multiset(StudentOptions(students, classId)) == multiset(StudentsOf(students, classId))
    ensures forall s :: s in StudentOptions(students, classId) <==> s in students && s.classId == classId
  {
    var r := StudentOptions(students, classId);
    forall s ensures s in r <==> s in students && s.classId == classId {
      assert s in r <==> s in multiset(r);
      assert s in StudentsOf(students, classId) <==> s in multiset(StudentsOf(students, classId));
    }
  }

  // ---------------------------------------------------------------- tags

  /** `value.split(',').map((tag) => tag.trim()).filter(Boolean)`. */
  function ParseTags(value: string): seq<string> {
    DropEmpty(MapTrim(Split(value, ',')))
  }

  /** Parsed tags are non-empty, trimmed and comma-free, and come in the order of the
      comma-separated pieces they were trimmed from. */
  lemma ParseTagsSpec(value: string)
    ensures forall i :: 0 <= i < |ParseTags(value)| ==>
      ParseTags(value)[i] != "" && IsTrimmed(ParseTags(value)[i]) && ',' !in ParseTags(value)[i]
    ensures IsSubsequence(ParseTags(value), MapTrim(Split(value, ',')))
  {
    var pieces := Split(value, ',');
    var m := MapTrim(pieces);
    TrimmedNonEmptyPieces(pieces);
    TrimmedPiecesCommaFree(pieces);
    DropEmptyKeepsCommaFree(m);
  }

  /** Trimming comma-free pieces leaves them comma-free. */
  lemma TrimmedPiecesCommaFree(pieces: seq<string>)
    requires forall i :: 0 <= i < |pieces| ==> ',' !in pieces[i]
    ensures forall i :: 0 <= i < |MapTrim(pieces)| ==> ',' !in MapTrim(pieces)[i]
  {
    forall i | 0 <= i < |pieces| ensures ',' !in MapTrim(pieces)[i] {
      TrimKeepsCharacters(pieces[i]);
    }
  }

  /** `filter(Boolean)` keeps only strings of its input, so comma-free ones stay comma-free. */
  lemma {:induction false} DropEmptyKeepsCommaFree(m: seq<string>)
    requires forall i :: 0 <= i < |m| ==> ',' !in m[i]
    ensures forall i :: 0 <= i < |DropEmpty(m)| ==> ',' !in DropEmpty(m)[i]
  {
    if m != [] {
      DropEmptyKeepsCommaFree(m[1..]);
      assert m[0] == "" ==> DropEmpty(m) == DropEmpty(m[1..]);
      assert m[0] != "" ==> DropEmpty(m) == [m[0]] + DropEmpty(m[1..]);
    }
  }

  /** Tags that are non-empty, trimmed and comma-free, typed joined by commas, parse back to
      themselves. */
  lemma ParseJoinedTags(tags: seq<string>)
    requires forall i :: 0 <= i < |tags| ==> tags[i] != "" && IsTrimmed(tags[i]) && ',' !in tags[i]
    ensures ParseTags(Join(tags, ',')) == tags
  {
    if tags == [] {
      EmptyTagField();
    } else {
      var joined := Join(tags, ',');
      SplitJoin(tags, ',');
      MapTrimOfTrimmed(tags);
      DropEmptyKeepsNonEmpty(tags);
      assert ParseTags(joined) == DropEmpty(MapTrim(Split(joined, ',')));
    }
  }

  /** An empty tag field parses to no tags. */
  lemma EmptyTagField()
    ensures ParseTags("") == []
  {
    SplitOfEmpty();
    TrimOfEmptyPiece();
    DropEmptyOfEmptyPiece();
  }

  lemma SplitOfEmpty()
    ensures Split("", ',') == [""]
  {
  }

  lemma TrimOfEmptyPiece()
    ensures MapTrim([""]) == [""]
  {
    TrimOfTrimmed("");
  }

  lemma DropEmptyOfEmptyPiece()
    ensures DropEmpty([""]) == []
  {
    assert [""][1..] == [];
  }

  /** `map(trim)` leaves a list of trimmed strings as it is. */
  lemma MapTrimOfTrimmed(s: seq<string>)
    requires forall i :: 0 <= i < |s| ==> IsTrimmed(s[i])
    ensures MapTrim(s) == s
  {
    forall i | 0 <= i < |s| ensures Trim(s[i]) == s[i] {
      TrimOfTrimmed(s[i]);
    }
  }

  lemma {:induction false} DropEmptyKeepsNonEmpty(s: seq<string>)
    requires forall i :: 0 <= i < |s| ==> s[i] != ""
    ensures DropEmpty(s) == s
  {
    if s != [] {
      DropEmptyKeepsNonEmpty(s[1..]);
      assert s == [s[0]] + s[1..];
    }
  }

  // ---------------------------------------------------------------- the page

  datatype OptionElement = OptionElement(value: string, text: string)

  /** One option per item, in item order, valued by the item's id and labelled by `labeler`. */
  function OptionsOf<T>(items: seq<T>, idOf: T -> string, labeler: T -> string): (r: seq<OptionElement>)
    ensures |r| == |items|
  {
    seq(|items|, i requires 0 <= i < |items| => OptionElement(idOf(items[i]), labeler(items[i])))
  }

  /** A single-choice `<select>`. Its value is that of the selected option, `""` when it has
      none; appending the first option to an empty list selects it. */
  class Select {
    var options: seq<OptionElement>
    var value: string

    constructor ()
      ensures options == [] && value == ""
    {
      options := [];
      value := "";
    }

    /** `fillOptions(select, items, labeler)`: clear the list, then append one option per item. */
    method Fill<T>(items: seq<T>, idOf: T -> string, labeler: T -> string)
      modifies this
      ensures options == OptionsOf(items, idOf, labeler)
      ensures value == if items == [] then "" else idOf(items[0])
    {
      options := [];
      value := "";
      for i := 0 to |items|
        invariant options == OptionsOf(items[..i], idOf, labeler)
        invariant value == if i == 0 then "" else idOf(items[0])
      {
        var option := OptionElement(idOf(items[i]), labeler(items[i]));
        options := options + [option];
        if i == 0 {
          value := option.value;
        }
      }
      assert items[..|items|] == items;
    }
  }

  /** What the user has typed into the free-text fields. */
  datatype FormInputs = FormInputs(
    lessonTopic: string, achievementTags: string, observation: string, growthNote: string, nextGuide: string)

  /** The JSON body of a submission, field by field. */
  function Body(teacherId: string, teacherName: string, subjectId: string, subjectName: string,
                classId: string, className: string, studentId: string, studentName: string,
                lessonTopic: string, tags: seq<string>, observation: string, growthNote: string,
                nextGuide: string): Object
  {
    map[
      "teacherId" := Str(teacherId), "teacherName" := Str(teacherName),
      "subjectId" := Str(subjectId), "subjectName" := Str(subjectName),
      "classId" := Str(classId), "className" := Str(className),
      "studentId" := Str(studentId), "studentName" := Str(studentName),
      "lessonTopic" := Str(lessonTopic),
      "achievementTags" := Arr(seq(|tags|, i requires 0 <= i < |tags| => Str(tags[i]))),
      "observation" := Str(observation), "growthNote" := Str(growthNote), "nextGuide" := Str(nextGuide)
    ]
  }

  /** The reference strings of a body, as given. */
  lemma BodyReferenceFields(teacherId: string, teacherName: string, subjectId: string, subjectName: string,
                   classId: string, className: string, studentId: string, studentName: string,
                   lessonTopic: string, tags: seq<string>, observation: string, growthNote: string,
                   nextGuide: string)
    ensures var p := Body(teacherId, teacherName, subjectId, subjectName, classId, className,
                          studentId, studentName, lessonTopic, tags, observation, growthNote, nextGuide);
      && "teacherId" in p && p["teacherId"] == Str(teacherId)
      && "teacherName" in p && p["teacherName"] == Str(teacherName)
      && "subjectId" in p && p["subjectId"] == Str(subjectId)
      && "subjectName" in p && p["subjectName"] == Str(subjectName)
      && "classId" in p && p["classId"] == Str(classId)
      && "className" in p && p["className"] == Str(className)
      && "studentId" in p && p["studentId"] == Str(studentId)
      && "studentName" in p && p["studentName"] == Str(studentName)
  {
  }

  /** The free texts of a body, as given. */
  lemma BodyTextFields(teacherId: string, teacherName: string, subjectId: string, subjectName: string,
                   classId: string, className: string, studentId: string, studentName: string,
                   lessonTopic: string, tags: seq<string>, observation: string, growthNote: string,
                   nextGuide: string)
    ensures var p := Body(teacherId, teacherName, subjectId, subjectName, classId, className,
                          studentId, studentName, lessonTopic, tags, observation, growthNote, nextGuide);
      && "lessonTopic" in p && p["lessonTopic"] == Str(lessonTopic)
      && "observation" in p && p["observation"] == Str(observation)
      && "growthNote" in p && p["growthNote"] == Str(growthNote)
      && "nextGuide" in p && p["nextGuide"] == Str(nextGuide)
  {
  }

  /** The tags of a body: an array holding each tag as a string, in order. */
  lemma BodyTags(teacherId: string, teacherName: string, subjectId: string, subjectName: string,
                   classId: string, className: string, studentId: string, studentName: string,
                   lessonTopic: string, tags: seq<string>, observation: string, growthNote: string,
                   nextGuide: string)
    ensures var p := Body(teacherId, teacherName, subjectId, subjectName, classId, className,
                          studentId, studentName, lessonTopic, tags, observation, growthNote, nextGuide);
      && "achievementTags" in p && p["achievementTags"].Arr? && |p["achievementTags"].items| == |tags|
      && forall i :: 0 <= i < |tags| ==> p["achievementTags"].items[i] == Str(tags[i])
  {
  }

  /** The body `submitRecord` posts for the chosen items: the reference strings as they are,
      the typed texts trimmed and the tags parsed. */
  function Payload(teacher: Teacher, subject: Subject, klass: SchoolClass, student: Student, inputs: FormInputs): Object {
    Body(teacher.id, teacher.name, subject.id, subject.name, klass.id, klass.name, student.id, student.name,
         Trim(inputs.lessonTopic), ParseTags(inputs.achievementTags), Trim(inputs.observation),
         Trim(inputs.growthNote), Trim(inputs.nextGuide))
  }

  /** The page state: the reference data in `state` and the three cascading selects. */
  class Form {
    var teacher: Option<Teacher>
    var subjects: seq<Subject>
    var classes: seq<SchoolClass>
    var students: seq<Student>
    const subjectSelect: Select
    const classSelect: Select
    const studentSelect: Select

    ghost predicate Valid()
      reads this
    {
      subjectSelect != classSelect && subjectSelect != studentSelect && classSelect != studentSelect
    }

    constructor ()
      ensures Valid() && fresh(subjectSelect) && fresh(classSelect) && fresh(studentSelect)
      ensures teacher.None? && subjects == [] && classes == [] && students == []
    {
      teacher := None;
      subjects := [];
      classes := [];
      students := [];
      subjectSelect := new Select();
      classSelect := new Select();
      studentSelect := new Select();
    }

    /** `selectedSubject()` */
    function SelectedSubject(): (r: Option<Subject>)
      reads this, subjectSelect
      ensures r.Some? <==> exists i :: 0 <= i < |subjects| && subjects[i].id == subjectSelect.value
      ensures r.Some? ==> r.value in subjects && r.value.id == subjectSelect.value
    {
      Find(subjects, SubjectId, subjectSelect.value)
    }

    /** `selectedClass()` */
    function SelectedClass(): (r: Option<SchoolClass>)
      reads this, classSelect
      ensures r.Some? <==> exists i :: 0 <= i < |classes| && classes[i].id == classSelect.value
      ensures r.Some? ==> r.value in classes && r.value.id == classSelect.value
    {
      Find(classes, ClassId, classSelect.value)
    }

    /** `selectedStudent()` */
    function SelectedStudent(): (r: Option<Student>)
      reads this, studentSelect
      ensures r.Some? <==> exists i :: 0 <= i < |students| && students[i].id == studentSelect.value
      ensures r.Some? ==> r.value in students && r.value.id == studentSelect.value
    {
      Find(students, StudentId, studentSelect.value)
    }

    /** `refreshStudentSelect()`: list the chosen class's students by number. */
    method RefreshStudentSelect()
      requires Valid()
      modifies studentSelect
      ensures studentSelect.options == OptionsOf(StudentOptions(students, classSelect.value), StudentId, StudentLabel)
      ensures studentSelect.value ==
        if StudentOptions(students, classSelect.value) == [] then ""
        else StudentOptions(students, classSelect.value)[0].id
    {
      var list := StudentOptions(students, classSelect.value);
      studentSelect.Fill(list, StudentId, StudentLabel);
    }

    /** `refreshClassSelect()`: list the chosen subject's classes, then refresh the students
        for the class that is now selected. */
    method RefreshClassSelect()
      requires Valid()
      modifies classSelect, studentSelect
      ensures classSelect.options == OptionsOf(ClassesOf(classes, subjectSelect.value), ClassId, ClassName)
      ensures classSelect.value ==
        if ClassesOf(classes, subjectSelect.value) == [] then ""
        else ClassesOf(classes, subjectSelect.value)[0].id
      ensures studentSelect.options == OptionsOf(StudentOptions(students, classSelect.value), StudentId, StudentLabel)
      ensures studentSelect.value ==
        if StudentOptions(students, classSelect.value) == [] then ""
        else StudentOptions(students, classSelect.value)[0].id
    {
      var list := ClassesOf(classes, subjectSelect.value);
      classSelect.Fill(list, ClassId, ClassName);
      RefreshStudentSelect();
    }

    /** The state update of `loadBootstrap()` once the data is known (fetched, or the built-in
        fixture when the fetch fails): store it, list the subjects and cascade. */
    method LoadBootstrap(data: Bootstrap)
      requires Valid()
      modifies this, subjectSelect, classSelect, studentSelect
      ensures Valid()
      ensures teacher == Some(data.teacher) && subjects == data.subjects
      ensures classes == data.classes && students == data.students
      ensures subjectSelect.options == OptionsOf(subjects, SubjectId, SubjectName)
      ensures subjectSelect.value == if subjects == [] then "" else subjects[0].id
      ensures classSelect.options == OptionsOf(ClassesOf(classes, subjectSelect.value), ClassId, ClassName)
      ensures classSelect.value ==
        if ClassesOf(classes, subjectSelect.value) == [] then ""
        else ClassesOf(classes, subjectSelect.value)[0].id
      ensures studentSelect.options == OptionsOf(StudentOptions(students, classSelect.value), StudentId, StudentLabel)
      ensures studentSelect.value ==
        if StudentOptions(students, classSelect.value) == [] then ""
        else StudentOptions(students, classSelect.value)[0].id
    {
      teacher := Some(data.teacher);
      subjects := data.subjects;
      classes := data.classes;
      students := data.students;
      subjectSelect.Fill(subjects, SubjectId, SubjectName);
      RefreshClassSelect();
    }

    /** The decision of `submitRecord(inputs)`: nothing is sent while subject, class or student
        is unresolved or the observation trims to empty (nor when no teacher is loaded, where
        the source would throw on `state.teacher.id`); otherwise the body for the chosen items. */
    method SubmitRecord(inputs: FormInputs) returns (sent: Option<Object>)
      ensures sent.None? <==>
        SelectedSubject().None? || SelectedClass().None? || SelectedStudent().None?
        || Trim(inputs.observation) == "" || teacher.None?
      ensures sent.Some? ==>
        sent.value == Payload(teacher.value, SelectedSubject().value, SelectedClass().value,
                              SelectedStudent().value, inputs)
    {
      var subject := SelectedSubject();
      var klass := SelectedClass();
      var student := SelectedStudent();
      if subject.None? || klass.None? || student.None? {
        return None;
      }
      if Trim(inputs.observation) == "" {
        return None;
      }
      if teacher.None? {
        return None;
      }
      return Some(Payload(teacher.value, subject.value, klass.value, student.value, inputs));
    }
  }
}
