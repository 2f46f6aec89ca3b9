/** `validateRecord`: the checks a submitted observation record must pass before the server
    builds and stores it. The checks run in a fixed order and the first failure decides. */
module Validator {
  import opened Wrappers
  import opened Text
  import opened Json

  /** The required fields, in the order they are checked. */
  const RequiredFields: seq<string> := [
    "teacherId", "teacherName", "subjectId", "subjectName",
    "classId", "className", "studentId", "studentName", "observation"
  ]

  const ObservationLimit: nat := 500
  const LessonTopicLimit: nat := 80

  /** `o[key]` is a string that does not trim to empty: it has a non-whitespace character
      (the two are the same by `Text.TrimIsEmptyIff`). */
  predicate HasText(o: Object, key: string) {
    key in o && o[key].Str? && !AllSpace(o[key].s)
  }

  /** The outcome of validation, one case per message the server can answer with. */
  datatype Verdict = Accepted | MissingField(key: string) | ObservationTooLong | LessonTopicTooLong

  /** Index of the first required field, from position `i` on, that has no text. */
  function FirstMissing(o: Object, i: nat): (r: Option<nat>)
    requires i <= |RequiredFields|
    ensures r.Some? ==> i <= r.value < |RequiredFields| && !HasText(o, RequiredFields[r.value])
    ensures r.Some? ==> forall j :: i <= j < r.value ==> HasText(o, RequiredFields[j])
    ensures r.None? ==> forall j :: i <= j < |RequiredFields| ==> HasText(o, RequiredFields[j])
    decreases |RequiredFields| - i
  {
    if i == |RequiredFields| then None
    else if !HasText(o, RequiredFields[i]) then Some(i)
    else FirstMissing(o, i + 1)
  }

  /** `o.observation.length > 500`, the raw (untrimmed) length in UTF-16 code units. */
  predicate ObservationOverLimit(o: Object) {
    "observation" in o && o["observation"].Str? && Utf16Length(o["observation"].s) > ObservationLimit
  }

  /** `(o.lessonTopic || '').length > 80`; an `undefined` length compares false. */
  predicate LessonTopicOverLimit(o: Object) {
    var n := OrEmptyLength(o, "lessonTopic");
    n.Some? && n.value > LessonTopicLimit
  }

  /** What `validateRecord` decides about a body. */
  function Check(o: Object): Verdict {
    match FirstMissing(o, 0)
    case Some(i) => MissingField(RequiredFields[i])
    case None =>
      if ObservationOverLimit(o) then ObservationTooLong
      else if LessonTopicOverLimit(o) then LessonTopicTooLong
      else Accepted
  }

  /** The message `validateRecord` returns; `None` stands for its `null`. */
  function Message(v: Verdict): (m: Option<string>)
    ensures m.None? <==> v.Accepted?
  {
    match v
    case Accepted => None
    case MissingField(key) => Some(key + " 값이 필요합니다.")
    case ObservationTooLong => Some("observation은 500자 이하만 가능합니다.")
    case LessonTopicTooLong => Some("lessonTopic은 80자 이하만 가능합니다.")
  }

  /** A body with no keys is rejected for its first required field. An empty request body
      parses to `{}`, and an array, number, boolean or string body reads every key as
      `undefined` in the same way. */
  lemma EmptyBodyRejected()
    ensures Check(map[]) == MissingField("teacherId")
    ensures Message(Check(map[])) == Some("teacherId 값이 필요합니다.")
  {
    assert !HasText(map[], RequiredFields[0]);
    assert "teacherId" + " 값이 필요합니다." == "teacherId 값이 필요합니다.";
  }

  /** `validateRecord(input)`: a loop over the required fields that returns at the first one
      without text, then the two length checks. */
  method ValidateRecord(input: Object) returns (error: Option<string>)
    ensures error == Message(Check(input))
  {
    for i := 0 to |RequiredFields|
      invariant FirstMissing(input, 0) == FirstMissing(input, i)
    {
      var key := RequiredFields[i];
      if key in input && input[key].Str? {
        TrimIsEmptyIff(input[key].s);
      }
      if !(key in input && input[key].Str? && Trim(input[key].s) != "") {
        return Some(key + " 값이 필요합니다.");
      }
    }
    assert RequiredFields[8] == "observation";
    if Utf16Length(input["observation"].s) > ObservationLimit {
      return Some("observation은 500자 이하만 가능합니다.");
    }
    var topicLength := OrEmptyLength(input, "lessonTopic");
    if topicLength.Some? && topicLength.value > LessonTopicLimit {
      return Some("lessonTopic은 80자 이하만 가능합니다.");
    }
    return None;
  }

  /** No two required fields share a name. */
  lemma RequiredFieldsDistinct()
    ensures forall a, b :: 0 <= a < b < |RequiredFields| ==> RequiredFields[a] != RequiredFields[b]
  {
  }

  /** A body is accepted exactly when all nine required fields have text, the raw observation
      is at most 500 code units and `lessonTopic` (absent or falsy counting as `''`) is not over 80. */
  lemma CheckAcceptsIff(o: Object)
    ensures Check(o) == Accepted <==>
      (forall k :: k in RequiredFields ==> HasText(o, k))
      && !ObservationOverLimit(o) && !LessonTopicOverLimit(o)
  {
    if forall k :: k in RequiredFields ==> HasText(o, k) {
      forall j | 0 <= j < |RequiredFields| ensures HasText(o, RequiredFields[j]) {
      assert j < 8 || RequiredFields[j] == "observation";
    }
    }
    if Check(o) == Accepted {
      forall k | k in RequiredFields ensures HasText(o, k) {
        var j :| 0 <= j < |RequiredFields| && RequiredFields[j] == k;
      }
    }
  }

  /** All nine required fields have text exactly when none is reported missing. */
  lemma RequiredFieldsHaveText(o: Object)
    ensures FirstMissing(o, 0).None? <==>
      && HasText(o, "teacherId") && HasText(o, "teacherName")
      && HasText(o, "subjectId") && HasText(o, "subjectName")
      && HasText(o, "classId") && HasText(o, "className")
      && HasText(o, "studentId") && HasText(o, "studentName")
      && HasText(o, "observation")
  {
    var r := FirstMissing(o, 0);
    if r.Some? {
      var i := r.value;
      assert !HasText(o, RequiredFields[i]);
      assert i == 0 || i == 1 || i == 2 || i == 3 || i == 4 || i == 5 || i == 6 || i == 7 || i == 8;
    } else {
      assert HasText(o, RequiredFields[0]) && HasText(o, RequiredFields[1]) && HasText(o, RequiredFields[2]);
      assert HasText(o, RequiredFields[3]) && HasText(o, RequiredFields[4]) && HasText(o, RequiredFields[5]);
      assert HasText(o, RequiredFields[6]) && HasText(o, RequiredFields[7]) && HasText(o, RequiredFields[8]);
    }
  }

  /** An accepted body has text in each required field. */
  lemma AcceptedFieldsHaveText(o: Object)
    requires Check(o) == Accepted
    ensures HasText(o, "teacherId") && HasText(o, "teacherName")
    ensures HasText(o, "subjectId") && HasText(o, "subjectName")
    ensures HasText(o, "classId") && HasText(o, "className")
    ensures HasText(o, "studentId") && HasText(o, "studentName")
    ensures HasText(o, "observation")
  {
    RequiredFieldsHaveText(o);
  }

  /** The error names required field `i` exactly when that field has no text and every field
      before it in the fixed order has; later checks are then not reached. */
  lemma CheckReportsFirstMissing(o: Object, i: nat)
    requires i < |RequiredFields|
    ensures Check(o) == MissingField(RequiredFields[i]) <==>
      !HasText(o, RequiredFields[i]) && forall j :: 0 <= j < i ==> HasText(o, RequiredFields[j])
  {
    RequiredFieldsDistinct();
    var r := FirstMissing(o, 0);
    if !HasText(o, RequiredFields[i]) && forall j :: 0 <= j < i ==> HasText(o, RequiredFields[j]) {
      assert r.Some?;
      assert r.value == i;
    }
  }

  /** Once the required fields have text, an observation over 500 code units is rejected,
      however much of it is surrounding whitespace. */
  lemma ObservationLengthIsRaw(o: Object)
    requires forall j :: 0 <= j < |RequiredFields| ==> HasText(o, RequiredFields[j])
    requires "observation" in o && o["observation"].Str?
    requires Utf16Length(o["observation"].s) > ObservationLimit
    ensures Check(o) == ObservationTooLong
  {
    assert FirstMissing(o, 0).None?;
  }

  /** A string observation over 500 code units is always rejected: for its length once the
      required fields have text, and otherwise for the first field without text. */
  lemma LongObservationRejected(o: Object)
    requires "observation" in o && o["observation"].Str?
    requires Utf16Length(o["observation"].s) > ObservationLimit
    ensures Check(o) != Accepted
    ensures FirstMissing(o, 0).None? ==> Check(o) == ObservationTooLong
  {
    if FirstMissing(o, 0).None? {
      assert ObservationOverLimit(o);
    }
  }

  /** A 499-character observation padded with one space on each side trims to 499
      characters, within the limit, and is still rejected because the raw value is 501 long. */
  lemma PaddedObservationRejected(o: Object, x: string)
    requires forall j :: 0 <= j < 8 ==> HasText(o, RequiredFields[j])
    requires |x| == 499 && IsTrimmed(x) && InBmp(x)
    requires "observation" in o && o["observation"] == Str(" " + x + " ")
    ensures |Trim(o["observation"].s)| <= ObservationLimit
    ensures Check(o) == ObservationTooLong
  {
    PaddedTrim(x);
    PaddedLength(x);
    PaddedHasText(x);
    forall j | 0 <= j < |RequiredFields| ensures HasText(o, RequiredFields[j]) {
      assert j < 8 || RequiredFields[j] == "observation";
    }
    ObservationLengthIsRaw(o);
  }

  /** One space on each side of a trimmed non-empty string is removed by `trim()`. */
  lemma PaddedTrim(x: string)
    requires x != [] && IsTrimmed(x)
    ensures Trim(" " + x + " ") == x
  {
    var s := " " + x + " ";
    assert s[1..1 + |x|] == x;
    assert s[..1] == " " && s[1 + |x|..] == " ";
    TrimAt(s, 1, x);
  }

  /** Padding a trimmed non-empty string keeps a non-whitespace character in it. */
  lemma PaddedHasText(x: string)
    requires x != [] && IsTrimmed(x)
    ensures !AllSpace(" " + x + " ")
  {
    assert (" " + x + " ")[1] == x[0];
  }

  /** Padding adds two code units to a string of the Basic Multilingual Plane. */
  lemma PaddedLength(x: string)
    requires InBmp(x)
    ensures Utf16Length(" " + x + " ") == |x| + 2
  {
    var s := " " + x + " ";
    assert forall i :: 0 <= i < |s| ==> s[i] == ' ' || s[i] == x[i - 1];
    assert InBmp(s);
    BmpLength(s);
  }

  /** With the earlier checks passed, an absent `lessonTopic` counts as `''` and is accepted,
      and a string one is rejected exactly when it is over 80 code units. */
  lemma LessonTopicDefaultsToEmpty(o: Object)
    requires FirstMissing(o, 0).None? && !ObservationOverLimit(o)
    ensures "lessonTopic" !in o ==> Check(o) == Accepted
    ensures "lessonTopic" in o && o["lessonTopic"].Str? ==>
      (Check(o) == LessonTopicTooLong <==> Utf16Length(o["lessonTopic"].s) > LessonTopicLimit)
  {
  }
}
