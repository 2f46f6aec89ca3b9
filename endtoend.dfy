/** What happens to the body the browser client posts once the server receives it: when it
    passes validation, and what the stored record then holds. */
module EndToEnd {
  import opened Wrappers
  import opened Text
  import opened Json
  import opened Validator
  import opened Records
  import opened Client

  /** The eight reference strings the client copies from the chosen items all have text. */
  predicate ReferenceHasText(t: Teacher, s: Subject, c: SchoolClass, st: Student) {
    && !AllSpace(t.id) && !AllSpace(t.name)
    && !AllSpace(s.id) && !AllSpace(s.name)
    && !AllSpace(c.id) && !AllSpace(c.name)
    && !AllSpace(st.id) && !AllSpace(st.name)
  }

  /** A body whose required fields and lesson topic are strings, and whose observation has
      text, passes validation exactly when the other eight have text and the observation and
      lesson topic are within their limits. */
  lemma StringBodyAccepted(o: Object, teacherId: string, teacherName: string, subjectId: string,
                           subjectName: string, classId: string, className: string, studentId: string,
                           studentName: string, observation: string, lessonTopic: string)
    requires "teacherId" in o && o["teacherId"] == Str(teacherId)
    requires "teacherName" in o && o["teacherName"] == Str(teacherName)
    requires "subjectId" in o && o["subjectId"] == Str(subjectId)
    requires "subjectName" in o && o["subjectName"] == Str(subjectName)
    requires "classId" in o && o["classId"] == Str(classId)
    requires "className" in o && o["className"] == Str(className)
    requires "studentId" in o && o["studentId"] == Str(studentId)
    requires "studentName" in o && o["studentName"] == Str(studentName)
    requires "observation" in o && o["observation"] == Str(observation) && !AllSpace(observation)
    requires "lessonTopic" in o && o["lessonTopic"] == Str(lessonTopic)
    ensures Check(o) == Accepted <==>
      && !AllSpace(teacherId) && !AllSpace(teacherName) && !AllSpace(subjectId) && !AllSpace(subjectName)
      && !AllSpace(classId) && !AllSpace(className) && !AllSpace(studentId) && !AllSpace(studentName)
      && Utf16Length(observation) <= ObservationLimit && Utf16Length(lessonTopic) <= LessonTopicLimit
  {
    RequiredFieldsHaveText(o);
  }

  /** A body the client sends (its observation does not trim to empty) passes the server's
      validation exactly when the reference strings have text and the trimmed observation and
      lesson topic are within their limits: the submit guard never lets through a body the
      server rejects for a blank observation. */
  lemma PayloadAccepted(t: Teacher, s: Subject, c: SchoolClass, st: Student, inputs: FormInputs)
    requires Trim(inputs.observation) != ""
    ensures Check(Payload(t, s, c, st, inputs)) == Accepted <==>
      && ReferenceHasText(t, s, c, st)
      && Utf16Length(Trim(inputs.observation)) <= ObservationLimit
      && Utf16Length(Trim(inputs.lessonTopic)) <= LessonTopicLimit
  {
    var p := Payload(t, s, c, st, inputs);
    TrimIdempotent(inputs.observation);
    TrimIsEmptyIff(Trim(inputs.observation));
    BodyReferenceFields(t.id, t.name, s.id, s.name, c.id, c.name, st.id, st.name,
               Trim(inputs.lessonTopic), ParseTags(inputs.achievementTags), Trim(inputs.observation),
               Trim(inputs.growthNote), Trim(inputs.nextGuide));
    BodyTextFields(t.id, t.name, s.id, s.name, c.id, c.name, st.id, st.name,
               Trim(inputs.lessonTopic), ParseTags(inputs.achievementTags), Trim(inputs.observation),
               Trim(inputs.growthNote), Trim(inputs.nextGuide));
    StringBodyAccepted(p, t.id, t.name, s.id, s.name, c.id, c.name, st.id, st.name,
                       Trim(inputs.observation), Trim(inputs.lessonTopic));
  }

  /** An array of non-empty trimmed tag strings is kept as its first six tags. */
  lemma TagArrayKept(o: Object, tags: seq<string>)
    requires forall i :: 0 <= i < |tags| ==> tags[i] != "" && IsTrimmed(tags[i])
    requires "achievementTags" in o && o["achievementTags"].Arr? && |o["achievementTags"].items| == |tags|
    requires forall i :: 0 <= i < |tags| ==> o["achievementTags"].items[i] == Str(tags[i])
    ensures NormalizeTags(o) == Some(Take(tags, MaxTags))
  {
    StringTagStrings(o["achievementTags"].items, tags);
    assert MapTrim(tags) == tags by {
      forall i | 0 <= i < |tags| ensures Trim(tags[i]) == tags[i] {
        TrimOfTrimmed(tags[i]);
      }
    }
    DropEmptyKeepsNonEmpty(tags);
  }

  /** The tags the server keeps from a client body are the first six the client parsed. */
  lemma PayloadTags(t: Teacher, s: Subject, c: SchoolClass, st: Student, inputs: FormInputs)
    ensures NormalizeTags(Payload(t, s, c, st, inputs)) == Some(Take(ParseTags(inputs.achievementTags), MaxTags))
  {
    ParseTagsSpec(inputs.achievementTags);
    BodyTags(t.id, t.name, s.id, s.name, c.id, c.name, st.id, st.name,
               Trim(inputs.lessonTopic), ParseTags(inputs.achievementTags), Trim(inputs.observation),
               Trim(inputs.growthNote), Trim(inputs.nextGuide));
    TagArrayKept(Payload(t, s, c, st, inputs), ParseTags(inputs.achievementTags));
  }

  /** An accepted body whose fields are strings, the free texts already trimmed, and whose tags
      normalize without a TypeError, is stored with its reference strings trimmed, its texts as
      they are and those tags. */
  lemma StringBodyRecord(o: Object, bytes: seq<Byte>, createdAt: string,
                         teacherId: string, teacherName: string, subjectId: string, subjectName: string,
                         classId: string, className: string, studentId: string, studentName: string,
                         lessonTopic: string, observation: string, growthNote: string, nextGuide: string,
                         tags: seq<string>)
    requires Check(o) == Accepted && |bytes| == 4
    requires "teacherId" in o && o["teacherId"] == Str(teacherId)
    requires "teacherName" in o && o["teacherName"] == Str(teacherName)
    requires "subjectId" in o && o["subjectId"] == Str(subjectId)
    requires "subjectName" in o && o["subjectName"] == Str(subjectName)
    requires "classId" in o && o["classId"] == Str(classId)
    requires "className" in o && o["className"] == Str(className)
    requires "studentId" in o && o["studentId"] == Str(studentId)
    requires "studentName" in o && o["studentName"] == Str(studentName)
    requires "lessonTopic" in o && o["lessonTopic"] == Str(lessonTopic) && IsTrimmed(lessonTopic)
    requires "observation" in o && o["observation"] == Str(observation) && IsTrimmed(observation)
    requires "growthNote" in o && o["growthNote"] == Str(growthNote) && IsTrimmed(growthNote)
    requires "nextGuide" in o && o["nextGuide"] == Str(nextGuide) && IsTrimmed(nextGuide)
    requires NormalizeTags(o) == Some(tags)
    ensures Normalize(o, bytes, createdAt).Built?
    ensures var r := Normalize(o, bytes, createdAt).record;
      && r.teacherId == Trim(teacherId) && r.teacherName == Trim(teacherName)
      && r.subjectId == Trim(subjectId) && r.subjectName == Trim(subjectName)
      && r.classId == Trim(classId) && r.className == Trim(className)
      && r.studentId == Trim(studentId) && r.studentName == Trim(studentName)
      && r.lessonTopic == lessonTopic && r.observation == observation
      && r.growthNote == growthNote && r.nextGuide == nextGuide
      && r.achievementTags == tags
  {
    TrimmedOptionalText(o, "lessonTopic", lessonTopic);
    TrimmedOptionalText(o, "growthNote", growthNote);
    TrimmedOptionalText(o, "nextGuide", nextGuide);
    TrimOfTrimmed(observation);
    AcceptedFieldsHaveText(o);
    var n := Normalize(o, bytes, createdAt);
    assert n == Built(Record(RecordId(bytes), createdAt,
      Trim(teacherId), Trim(teacherName), Trim(subjectId), Trim(subjectName),
      Trim(classId), Trim(className), Trim(studentId), Trim(studentName),
      lessonTopic, tags, observation, growthNote, nextGuide));
  }

  /** An optional field holding an already trimmed string reads back unchanged. */
  lemma TrimmedOptionalText(o: Object, key: string, text: string)
    requires key in o && o[key] == Str(text) && IsTrimmed(text)
    ensures OptionalText(o, key) == Some(text)
  {
    TrimOfTrimmed(text);
  }

  /** An accepted client body is stored as what the user typed, trimmed: the reference strings
      and texts trimmed, the tags cut to the first six, and no TypeError on the optional fields. */
  lemma PayloadRecord(t: Teacher, s: Subject, c: SchoolClass, st: Student, inputs: FormInputs,
                      bytes: seq<Byte>, createdAt: string)
    requires Check(Payload(t, s, c, st, inputs)) == Accepted && |bytes| == 4
    ensures Normalize(Payload(t, s, c, st, inputs), bytes, createdAt).Built?
    ensures var r := Normalize(Payload(t, s, c, st, inputs), bytes, createdAt).record;
      && r.teacherId == Trim(t.id) && r.teacherName == Trim(t.name)
      && r.subjectId == Trim(s.id) && r.subjectName == Trim(s.name)
      && r.classId == Trim(c.id) && r.className == Trim(c.name)
      && r.studentId == Trim(st.id) && r.studentName == Trim(st.name)
      && r.observation == Trim(inputs.observation)
      && r.lessonTopic == Trim(inputs.lessonTopic)
      && r.growthNote == Trim(inputs.growthNote)
      && r.nextGuide == Trim(inputs.nextGuide)
      && r.achievementTags == Take(ParseTags(inputs.achievementTags), MaxTags)
  {
    BodyReferenceFields(t.id, t.name, s.id, s.name, c.id, c.name, st.id, st.name,
                   Trim(inputs.lessonTopic), ParseTags(inputs.achievementTags), Trim(inputs.observation),
                   Trim(inputs.growthNote), Trim(inputs.nextGuide));
    BodyTextFields(t.id, t.name, s.id, s.name, c.id, c.name, st.id, st.name,
                   Trim(inputs.lessonTopic), ParseTags(inputs.achievementTags), Trim(inputs.observation),
                   Trim(inputs.growthNote), Trim(inputs.nextGuide));
    PayloadTags(t, s, c, st, inputs);
    StringBodyRecord(Payload(t, s, c, st, inputs), bytes, createdAt,
                     t.id, t.name, s.id, s.name, c.id, c.name, st.id, st.name,
                     Trim(inputs.lessonTopic), Trim(inputs.observation), Trim(inputs.growthNote), Trim(inputs.nextGuide),
                     Take(ParseTags(inputs.achievementTags), MaxTags));
  }
}
