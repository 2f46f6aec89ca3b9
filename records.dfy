/** The observation record the server stores, and how it is built from a validated body:
    every text field trimmed, optional ones defaulting to `''`, tags cleaned and capped at six,
    and an identifier made of four random bytes in hexadecimal. */
module Records {
  import opened Wrappers
  import opened Text
  import opened Json
  import opened Validator

  type Byte = x: int | 0 <= x < 256

  /** A stored observation record; the snapshot fields are copied from the body, not looked up. */
  datatype Record = Record(
    id: string,
    createdAt: string,
    teacherId: string,
    teacherName: string,
    subjectId: string,
    subjectName: string,
    classId: string,
    className: string,
    studentId: string,
    studentName: string,
    lessonTopic: string,
    achievementTags: seq<string>,
    observation: string,
    growthNote: string,
    nextGuide: string)

  /** The optional text fields; absent or falsy ones become `''`. */
  const OptionalFields: seq<string> := ["lessonTopic", "growthNote", "nextGuide"]

  const MaxTags: nat := 6

  // ---------------------------------------------------------------- identifiers

  /** A lower-case hexadecimal digit. */
  predicate IsHexDigit(c: char) {
    '0' <= c <= '9' || 'a' <= c <= 'f'
  }

  /** The lower-case hexadecimal digit of a value below 16. */
  function HexDigit(d: nat): (c: char)
    requires d < 16
    ensures IsHexDigit(c)
  {
    if d < 10 then ('0' as int + d) as char else ('a' as int + d - 10) as char
  }

  /** An even number of lower-case hexadecimal digits, the text of whole bytes. */
  predicate IsHexText(h: string) {
    |h| % 2 == 0 && forall i :: 0 <= i < |h| ==> IsHexDigit(h[i])
  }

  /** `Buffer.toString('hex')`: two lower-case hexadecimal digits per byte, high nibble first. */
  function Hex(bytes: seq<Byte>): (h: string)
    ensures |h| == 2 * |bytes|
    ensures forall i :: 0 <= i < |h| ==> IsHexDigit(h[i])
    ensures IsHexText(h)
  {
    if bytes == [] then ""
    else [HexDigit(bytes[0] / 16), HexDigit(bytes[0] % 16)] + Hex(bytes[1..])
  }

  /** The value of one lower-case hexadecimal digit. */
  function DigitValue(c: char): (d: nat)
    requires IsHexDigit(c)
    ensures d < 16 && HexDigit(d) == c
  {
    if '0' <= c <= '9' then c as int - '0' as int else c as int - 'a' as int + 10
  }

  /** Reads a hexadecimal string back into bytes, two digits per byte. */
  function Unhex(h: string): seq<Byte>
    requires IsHexText(h)
  {
    if h == [] then []
    else [DigitValue(h[0]) * 16 + DigitValue(h[1])] + Unhex(h[2..])
  }

  /** The two digits of a byte read back as the byte. */
  lemma ByteDigits(b: Byte)
    ensures DigitValue(HexDigit(b / 16)) * 16 + DigitValue(HexDigit(b % 16)) == b
  {
  }

  /** The hexadecimal text determines the bytes: reading it back gives them again. */
  lemma {:induction false} UnhexHex(bytes: seq<Byte>)
    ensures Unhex(Hex(bytes)) == bytes
  {
    if bytes != [] {
      var b := bytes[0];
      var hi, lo := HexDigit(b / 16), HexDigit(b % 16);
      var t := Hex(bytes[1..]);
      assert Hex(bytes) == [hi, lo] + t;
      UnhexStep(hi, lo, t);
      ByteDigits(b);
      UnhexHex(bytes[1..]);
      assert bytes == [b] + bytes[1..];
    }
  }

  /** Two digits in front of hexadecimal text are hexadecimal text, with the digits first. */
  lemma HexTextCons(hi: char, lo: char, t: string)
    requires IsHexDigit(hi) && IsHexDigit(lo) && IsHexText(t)
    ensures IsHexText([hi, lo] + t)
    ensures ([hi, lo] + t)[0] == hi && ([hi, lo] + t)[1] == lo && ([hi, lo] + t)[2..] == t
  {
    var h := [hi, lo] + t;
    forall i | 0 <= i < |h| ensures IsHexDigit(h[i]) {
      if i >= 2 {
        assert h[i] == t[i - 2];
      }
    }
  }

  /** Reading two digits in front of more digits. */
  lemma UnhexStep(hi: char, lo: char, t: string)
    requires IsHexDigit(hi) && IsHexDigit(lo) && IsHexText(t)
    ensures IsHexText([hi, lo] + t)
    ensures Unhex([hi, lo] + t) == [DigitValue(hi) * 16 + DigitValue(lo)] + Unhex(t)
  {
    HexTextCons(hi, lo, t);
  }

  /** `R-${crypto.randomBytes(4).toString('hex')}`, the bytes given as an input. */
  function RecordId(bytes: seq<Byte>): string
    requires |bytes| == 4
  {
    "R-" + Hex(bytes)
  }

  /** An identifier is `R-` and eight lower-case hexadecimal digits, two per random byte, from
      which the bytes can be read back (so different bytes give different identifiers). */
  lemma RecordIdFormat(bytes: seq<Byte>)
    requires |bytes| == 4
    ensures |RecordId(bytes)| == 10 && RecordId(bytes)[..2] == "R-"
    ensures forall i :: 2 <= i < 10 ==> IsHexDigit(RecordId(bytes)[i])
    ensures Unhex(RecordId(bytes)[2..]) == bytes
  {
    var id := RecordId(bytes);
    assert id[2..] == Hex(bytes);
    UnhexHex(bytes);
  }

  // ---------------------------------------------------------------- tags

  /** `String(tag)` for every element, `None` when one of them throws. */
  function TagStrings(items: seq<Value>): (r: Option<seq<string>>)
    ensures r.None? <==> exists i :: 0 <= i < |items| && ToStringThrows(items[i])
    ensures r.Some? ==> |r.value| == |items| && forall i :: 0 <= i < |items| ==> Some(r.value[i]) == ToJsString(items[i])
  {
    if exists i :: 0 <= i < |items| && ToJsString(items[i]).None? then None
    else Some(seq(|items|, i requires 0 <= i < |items| => ToJsString(items[i]).value))
  }

  /** An array of strings converts to those strings. */
  lemma StringTagStrings(items: seq<Value>, strs: seq<string>)
    requires |items| == |strs| && forall i :: 0 <= i < |items| ==> items[i] == Str(strs[i])
    ensures TagStrings(items) == Some(strs)
  {
    forall i | 0 <= i < |items| ensures ToJsString(items[i]) == Some(strs[i]) {
    }
    var r := TagStrings(items);
    assert r.Some?;
    assert r.value == strs;
  }

  /** The tags of a body, `Array.isArray(t) ? t.map((tag) => String(tag).trim()).filter(Boolean).slice(0, 6) : []`;
      `None` where `String(tag)` throws. */
  function NormalizeTags(o: Object): Option<seq<string>> {
    if "achievementTags" in o && o["achievementTags"].Arr? then
      match TagStrings(o["achievementTags"].items)
      case None => None
      case Some(strs) => Some(Take(DropEmpty(MapTrim(strs)), MaxTags))
    else Some([])
  }

  /** Normalized tags: none for a non-array; a TypeError exactly when an element's `String`
      throws; otherwise at most six, each non-empty and trimmed, the first six of the trimmed
      non-empty element strings in their order, and when fewer than six survive, every
      non-empty trimmed element string among them as often as it occurs. */
  lemma NormalizeTagsSpec(o: Object)
    ensures !("achievementTags" in o && o["achievementTags"].Arr?) ==> NormalizeTags(o) == Some([])
    ensures NormalizeTags(o).None? <==>
      "achievementTags" in o && o["achievementTags"].Arr? &&
      exists i :: 0 <= i < |o["achievementTags"].items| && ToStringThrows(o["achievementTags"].items[i])
    ensures NormalizeTags(o).Some? ==> |NormalizeTags(o).value| <= MaxTags
    ensures NormalizeTags(o).Some? ==> forall i :: 0 <= i < |NormalizeTags(o).value| ==>
      NormalizeTags(o).value[i] != "" && IsTrimmed(NormalizeTags(o).value[i])
    ensures "achievementTags" in o && o["achievementTags"].Arr? && NormalizeTags(o).Some? ==>
      var trimmed := MapTrim(TagStrings(o["achievementTags"].items).value);
      var r := NormalizeTags(o).value;
      && r == DropEmpty(trimmed)[..|r|]
      && IsSubsequence(r, trimmed)
      && (|r| < MaxTags ==> forall t :: t != "" ==> multiset(r)[t] == multiset(trimmed)[t])
  {
    if "achievementTags" in o && o["achievementTags"].Arr? && NormalizeTags(o).Some? {
      var strs := TagStrings(o["achievementTags"].items).value;
      var trimmed := MapTrim(strs);
      var all := DropEmpty(trimmed);
      TrimmedNonEmptyPieces(strs);
      var r := NormalizeTags(o).value;
      assert r == all[..|r|];
      PrefixOfSubsequence(r, all, trimmed);
    }
  }

  /** A prefix of a subsequence is a subsequence. */
  lemma {:induction false} PrefixOfSubsequence<T>(p: seq<T>, a: seq<T>, b: seq<T>)
    requires |p| <= |a| && p == a[..|p|] && IsSubsequence(a, b)
    ensures IsSubsequence(p, b)
    decreases |b|
  {
    if p != [] {
      assert a != [] && b != [];
      if a[0] == b[0] {
        assert p[1..] == a[1..][..|p| - 1];
        PrefixOfSubsequence(p[1..], a[1..], b[1..]);
      } else {
        PrefixOfSubsequence(p, a, b[1..]);
      }
    }
  }

  lemma ExampleTrimA()
    ensures Trim("a") == "a"
  {
    TrimOfTrimmed("a");
  }

  lemma ExampleTrimB()
    ensures Trim(" b ") == "b"
  {
    assert " b "[1..2] == "b" && " b "[..1] == " " && " b "[2..] == " ";
    TrimAt(" b ", 1, "b");
  }

  /** The example tag list `["a", " b ", "", ""]` normalizes to `["a", "b"]`. */
  lemma ExampleTags(o: Object)
    requires "achievementTags" in o
    requires o["achievementTags"] == Arr([Str("a"), Str(" b "), Str(""), Str("")])
    ensures NormalizeTags(o) == Some(["a", "b"])
  {
    ExampleTagStrings(o["achievementTags"].items);
    var strs := TagStrings(o["achievementTags"].items).value;
    MapTrimOfFour(strs);
    ExampleTrimA();
    ExampleTrimB();
    TrimIsEmptyIff("");
    ExampleDropEmpty(MapTrim(strs));
  }

  lemma ExampleTagStrings(items: seq<Value>)
    requires items == [Str("a"), Str(" b "), Str(""), Str("")]
    ensures TagStrings(items) == Some(["a", " b ", "", ""])
  {
    StringTagStrings(items, ["a", " b ", "", ""]);
  }

  lemma MapTrimOfFour(strs: seq<string>)
    requires |strs| == 4
    ensures MapTrim(strs) == [Trim(strs[0]), Trim(strs[1]), Trim(strs[2]), Trim(strs[3])]
  {
  }

  lemma ExampleDropEmpty(trimmed: seq<string>)
    requires trimmed == ["a", "b", "", ""]
    ensures DropEmpty(trimmed) == ["a", "b"]
  {
    assert trimmed[2..][1..] == [""];
    assert DropEmpty([""]) == [];
    assert DropEmpty(trimmed[2..]) == [];
    assert DropEmpty(trimmed[1..]) == ["b"] + DropEmpty(trimmed[2..]);
    assert DropEmpty(trimmed) == ["a"] + DropEmpty(trimmed[1..]);
  }

  // ---------------------------------------------------------------- the record

  /** `(o[key] || '').trim()`: `''` for a falsy value, the trim of a string, and `None` where
      JavaScript throws a TypeError because the value has no `trim`. */
  function OptionalText(o: Object, key: string): (r: Option<string>)
    ensures r.None? <==> Truthy(o, key) && !o[key].Str?
  {
    if !Truthy(o, key) then Some("")
    else if o[key].Str? then Some(Trim(o[key].s))
    else None
  }

  /** Building a record either succeeds or throws a TypeError on the named field. */
  datatype Normalized = Built(record: Record) | NotText(field: string)

  /** The text of a required field, trimmed. */
  function RequiredText(o: Object, key: string): string
    requires HasText(o, key)
  {
    Trim(o[key].s)
  }

  /** The record literal of the POST handler, evaluated in its field order; the random bytes
      and the timestamp are inputs. */
  function Normalize(o: Object, bytes: seq<Byte>, createdAt: string): (n: Normalized)
    requires Check(o) == Accepted
    requires |bytes| == 4
    ensures n.NotText? <==>
      || OptionalText(o, "lessonTopic").None? || NormalizeTags(o).None?
      || OptionalText(o, "growthNote").None? || OptionalText(o, "nextGuide").None?
    ensures OptionalText(o, "lessonTopic").None? ==> n == NotText("lessonTopic")
    ensures OptionalText(o, "lessonTopic").Some? && NormalizeTags(o).None? ==> n == NotText("achievementTags")
    ensures OptionalText(o, "lessonTopic").Some? && NormalizeTags(o).Some? && OptionalText(o, "growthNote").None? ==>
      n == NotText("growthNote")
    ensures (OptionalText(o, "lessonTopic").Some? && NormalizeTags(o).Some? && OptionalText(o, "growthNote").Some?
             && OptionalText(o, "nextGuide").None?) ==> n == NotText("nextGuide")
  {
    AcceptedFieldsHaveText(o);
    var lessonTopic := OptionalText(o, "lessonTopic");
    var tags := NormalizeTags(o);
    var growthNote := OptionalText(o, "growthNote");
    var nextGuide := OptionalText(o, "nextGuide");
    if lessonTopic.None? then NotText("lessonTopic")
    else if tags.None? then NotText("achievementTags")
    else if growthNote.None? then NotText("growthNote")
    else if nextGuide.None? then NotText("nextGuide")
    else
      Built(Record(
        id := RecordId(bytes),
        createdAt := createdAt,
        teacherId := RequiredText(o, "teacherId"),
        teacherName := RequiredText(o, "teacherName"),
        subjectId := RequiredText(o, "subjectId"),
        subjectName := RequiredText(o, "subjectName"),
        classId := RequiredText(o, "classId"),
        className := RequiredText(o, "className"),
        studentId := RequiredText(o, "studentId"),
        studentName := RequiredText(o, "studentName"),
        lessonTopic := lessonTopic.value,
        achievementTags := tags.value,
        observation := RequiredText(o, "observation"),
        growthNote := growthNote.value,
        nextGuide := nextGuide.value))
  }

  /** An object tag with its own `toString` key makes `String(tag)` throw, so an otherwise
      acceptable body fails on its tags instead of being stored. */
  lemma ObjectTagThrows(o: Object, bytes: seq<Byte>, createdAt: string)
    requires Check(o) == Accepted && |bytes| == 4
    requires OptionalText(o, "lessonTopic").Some?
    requires "achievementTags" in o && o["achievementTags"] == Arr([Obj(map["toString" := Num("0")])])
    ensures Normalize(o, bytes, createdAt) == NotText("achievementTags")
  {
    assert ToStringThrows(o["achievementTags"].items[0]);
  }

  /** `f` is required body field `key` with the surrounding whitespace removed, and is non-empty. */
  predicate TrimmedFrom(o: Object, key: string, f: string) {
    HasText(o, key) && IsTrimOf(o[key].s, f) && f != ""
  }

  /** `f` is `''` when optional body field `key` is absent or falsy, and otherwise the body
      string with the surrounding whitespace removed. */
  predicate OptionalFrom(o: Object, key: string, f: string) {
    (!Truthy(o, key) ==> f == "") && (Truthy(o, key) ==> o[key].Str? && IsTrimOf(o[key].s, f))
  }

  lemma RequiredTextIsTrimmedFrom(o: Object, key: string)
    requires HasText(o, key)
    ensures TrimmedFrom(o, key, RequiredText(o, key))
  {
    TrimIsTrimOf(o[key].s);
    TrimIsEmptyIff(o[key].s);
  }

  lemma OptionalTextIsOptionalFrom(o: Object, key: string)
    requires OptionalText(o, key).Some?
    ensures OptionalFrom(o, key, OptionalText(o, key).value)
  {
    if Truthy(o, key) {
      TrimIsTrimOf(o[key].s);
    }
  }

  /** In a built record every required text field is its body value with the surrounding
      whitespace removed, and is non-empty. */
  lemma NormalizedRequiredFields(o: Object, bytes: seq<Byte>, createdAt: string)
    requires Check(o) == Accepted && |bytes| == 4
    requires Normalize(o, bytes, createdAt).Built?
    ensures var r := Normalize(o, bytes, createdAt).record;
      && TrimmedFrom(o, "teacherId", r.teacherId) && TrimmedFrom(o, "teacherName", r.teacherName)
      && TrimmedFrom(o, "subjectId", r.subjectId) && TrimmedFrom(o, "subjectName", r.subjectName)
      && TrimmedFrom(o, "classId", r.classId) && TrimmedFrom(o, "className", r.className)
      && TrimmedFrom(o, "studentId", r.studentId) && TrimmedFrom(o, "studentName", r.studentName)
      && TrimmedFrom(o, "observation", r.observation)
  {
    AcceptedFieldsHaveText(o);
    var r := Normalize(o, bytes, createdAt).record;
    assert r.teacherId == RequiredText(o, "teacherId") && r.teacherName == RequiredText(o, "teacherName");
    assert r.subjectId == RequiredText(o, "subjectId") && r.subjectName == RequiredText(o, "subjectName");
    assert r.classId == RequiredText(o, "classId") && r.className == RequiredText(o, "className");
    assert r.studentId == RequiredText(o, "studentId") && r.studentName == RequiredText(o, "studentName");
    assert r.observation == RequiredText(o, "observation");
    RequiredTextIsTrimmedFrom(o, "teacherId");
    RequiredTextIsTrimmedFrom(o, "teacherName");
    RequiredTextIsTrimmedFrom(o, "subjectId");
    RequiredTextIsTrimmedFrom(o, "subjectName");
    RequiredTextIsTrimmedFrom(o, "classId");
    RequiredTextIsTrimmedFrom(o, "className");
    RequiredTextIsTrimmedFrom(o, "studentId");
    RequiredTextIsTrimmedFrom(o, "studentName");
    RequiredTextIsTrimmedFrom(o, "observation");
  }

  /** In a built record each optional text field is `''` when the body value is absent or
      falsy, and otherwise the trimmed body string; identifier, timestamp and tags are the
      given bytes' identifier, the given timestamp and the normalized tags. */
  lemma NormalizedOptionalFields(o: Object, bytes: seq<Byte>, createdAt: string)
    requires Check(o) == Accepted && |bytes| == 4
    requires Normalize(o, bytes, createdAt).Built?
    ensures var r := Normalize(o, bytes, createdAt).record;
      && OptionalFrom(o, "lessonTopic", r.lessonTopic)
      && OptionalFrom(o, "growthNote", r.growthNote)
      && OptionalFrom(o, "nextGuide", r.nextGuide)
      && r.id == RecordId(bytes) && r.createdAt == createdAt && Some(r.achievementTags) == NormalizeTags(o)
  {
    OptionalTextIsOptionalFrom(o, "lessonTopic");
    OptionalTextIsOptionalFrom(o, "growthNote");
    OptionalTextIsOptionalFrom(o, "nextGuide");
  }

  /** No text field of a built record has whitespace at either end, and it holds at most six
      tags, none of them empty or padded. */
  lemma NormalizedRecordIsClean(o: Object, bytes: seq<Byte>, createdAt: string)
    requires Check(o) == Accepted && |bytes| == 4
    requires Normalize(o, bytes, createdAt).Built?
    ensures var r := Normalize(o, bytes, createdAt).record;
      && IsTrimmed(r.teacherId) && IsTrimmed(r.teacherName)
      && IsTrimmed(r.subjectId) && IsTrimmed(r.subjectName)
      && IsTrimmed(r.classId) && IsTrimmed(r.className)
      && IsTrimmed(r.studentId) && IsTrimmed(r.studentName)
      && IsTrimmed(r.lessonTopic) && IsTrimmed(r.observation)
      && IsTrimmed(r.growthNote) && IsTrimmed(r.nextGuide)
      && |r.achievementTags| <= MaxTags
      && forall i :: 0 <= i < |r.achievementTags| ==> r.achievementTags[i] != "" && IsTrimmed(r.achievementTags[i])
  {
    NormalizedRequiredFields(o, bytes, createdAt);
    NormalizedOptionalFields(o, bytes, createdAt);
    NormalizeTagsSpec(o);
  }
}
