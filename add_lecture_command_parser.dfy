/**
 * AddLectureCommandParser: builds a lecture from tokenised arguments. The name,
 * phone, email and address prefixes must all carry a value and the preamble must
 * be empty; then the module name (name prefix), the teacher (phone prefix), the
 * time (email prefix), the venue (address prefix) and the optional tags are
 * parsed in that order, and the first failure is the result.
 */
module AddLectureCommandParser {
  import opened Messages
  import opened FieldValues
  import opened ParserUtil
  import opened Arguments
  import opened Lectures

  datatype AddLectureCommand = AddLectureCommand(lecture: Lecture)

  /** The prefixes that must carry a value, in the order the source lists them. */
  const REQUIRED_PREFIXES: seq<Prefix> := [PrefixName, PrefixAddress, PrefixPhone, PrefixEmail]

  /** The order in which the field values are parsed. */
  const LECTURE_ORDER: seq<Field> := [ModuleNameField, TeacherField, TimeField, VenueField, TagField]

  /** `arePrefixesPresent`: every listed prefix has a value. */
  function ArePrefixesPresent(args: ArgumentMultimap, prefixes: seq<Prefix>): (r: bool)
    ensures r <==> forall i :: 0 <= i < |prefixes| ==> args.GetValue(prefixes[i]).Some?
  {
    prefixes == [] || (args.GetValue(prefixes[0]).Some? && ArePrefixesPresent(args, prefixes[1..]))
  }

  /** The four required prefixes, spelled out. */
  predicate RequiredValuesPresent(args: ArgumentMultimap)
  {
    && args.GetValue(PrefixName).Some? && args.GetValue(PrefixAddress).Some?
    && args.GetValue(PrefixPhone).Some? && args.GetValue(PrefixEmail).Some?
  }

  lemma RequiredPrefixesPresent(args: ArgumentMultimap)
    ensures ArePrefixesPresent(args, REQUIRED_PREFIXES) <==> RequiredValuesPresent(args)
  {
    if RequiredValuesPresent(args) {
      forall i | 0 <= i < |REQUIRED_PREFIXES| ensures args.GetValue(REQUIRED_PREFIXES[i]).Some? {
      }
    }
    if ArePrefixesPresent(args, REQUIRED_PREFIXES) {
      assert args.GetValue(REQUIRED_PREFIXES[0]).Some? && args.GetValue(REQUIRED_PREFIXES[1]).Some?;
      assert args.GetValue(REQUIRED_PREFIXES[2]).Some? && args.GetValue(REQUIRED_PREFIXES[3]).Some?;
    }
  }

  /** Whether the value check of field `f` passes, for arguments that passed the structural check. */
  predicate LectureFieldAccepted(fmt: Formats, args: ArgumentMultimap, f: Field)
    requires RequiredValuesPresent(args)
  {
    match f
    case ModuleNameField => ParseModuleName(fmt, args.GetValue(PrefixName).value).Ok?
    case TeacherField => ParseTeacher(args.GetValue(PrefixPhone).value).Ok?
    case TimeField => ParseTime(fmt, args.GetValue(PrefixEmail).value).Ok?
    case VenueField => ParseVenue(args.GetValue(PrefixAddress).value).Ok?
    case TagField => TagSet(fmt, args.GetAllValues(PrefixTag)).Ok?
    case _ => true
  }

  /** Every field value passes its check. */
  predicate AllFieldsAccepted(fmt: Formats, args: ArgumentMultimap)
    requires RequiredValuesPresent(args)
  {
    forall i :: 0 <= i < |LECTURE_ORDER| ==> LectureFieldAccepted(fmt, args, LECTURE_ORDER[i])
  }

  lemma AllFieldsAcceptedSpelledOut(fmt: Formats, args: ArgumentMultimap)
    requires RequiredValuesPresent(args)
    ensures AllFieldsAccepted(fmt, args) <==>
              && ParseModuleName(fmt, args.GetValue(PrefixName).value).Ok?
              && ParseTeacher(args.GetValue(PrefixPhone).value).Ok?
              && ParseTime(fmt, args.GetValue(PrefixEmail).value).Ok?
              && ParseVenue(args.GetValue(PrefixAddress).value).Ok?
              && TagSet(fmt, args.GetAllValues(PrefixTag)).Ok?
  {
    assert LECTURE_ORDER[0] == ModuleNameField && LECTURE_ORDER[1] == TeacherField;
    assert LECTURE_ORDER[2] == TimeField && LECTURE_ORDER[3] == VenueField && LECTURE_ORDER[4] == TagField;
  }

  /** `parse`: the structural check, then the field values in order, then the lecture. */
  function Parse(fmt: Formats, args: ArgumentMultimap): (r: Result<AddLectureCommand>)
    ensures !ArePrefixesPresent(args, REQUIRED_PREFIXES) || args.GetPreamble() != [] ==>
              r == Err(InvalidCommandFormat(AddLectureUsage))
    ensures r.Ok? <==> RequiredValuesPresent(args) && args.GetPreamble() == [] && AllFieldsAccepted(fmt, args)
    ensures r.Ok? ==>
              && ParseModuleName(fmt, args.GetValue(PrefixName).value) == Ok(r.value.lecture.moduleName)
              && ParseTeacher(args.GetValue(PrefixPhone).value) == Ok(r.value.lecture.teacher)
              && ParseTime(fmt, args.GetValue(PrefixEmail).value) == Ok(r.value.lecture.time)
              && ParseVenue(args.GetValue(PrefixAddress).value) == Ok(r.value.lecture.venue)
              && TagSet(fmt, args.GetAllValues(PrefixTag)) == Ok(r.value.lecture.GetTags())
  {
    RequiredPrefixesPresent(args);
    if !ArePrefixesPresent(args, REQUIRED_PREFIXES) || args.GetPreamble() != [] then
      Err(InvalidCommandFormat(AddLectureUsage))
    else
      AllFieldsAcceptedSpelledOut(fmt, args);
      var moduleName :- ParseModuleName(fmt, args.GetValue(PrefixName).value);
      var teacher :- ParseTeacher(args.GetValue(PrefixPhone).value);
      var time :- ParseTime(fmt, args.GetValue(PrefixEmail).value);
      var venue :- ParseVenue(args.GetValue(PrefixAddress).value);
      var tagList :- TagSet(fmt, args.GetAllValues(PrefixTag));
      Ok(AddLectureCommand(NewLecture(moduleName, teacher, time, venue, tagList)))
  }

  /**
   * First error wins: after the structural check, the error is the constraint
   * message of the first field, in parse order, whose check fails.
   */
  lemma FirstFailingFieldReported(fmt: Formats, args: ArgumentMultimap, k: nat)
    requires RequiredValuesPresent(args) && args.GetPreamble() == []
    requires k < |LECTURE_ORDER| && !LectureFieldAccepted(fmt, args, LECTURE_ORDER[k])
    requires forall i :: 0 <= i < k ==> LectureFieldAccepted(fmt, args, LECTURE_ORDER[i])
    ensures Parse(fmt, args) == Err(Constraints(LECTURE_ORDER[k]))
  {
    if k > 0 { assert LectureFieldAccepted(fmt, args, LECTURE_ORDER[0]); }
    if k > 1 { assert LectureFieldAccepted(fmt, args, LECTURE_ORDER[1]); }
    if k > 2 { assert LectureFieldAccepted(fmt, args, LECTURE_ORDER[2]); }
    if k > 3 { assert LectureFieldAccepted(fmt, args, LECTURE_ORDER[3]); }
    RequiredPrefixesPresent(args);
  }

  /** The structural check comes first: a missing required prefix is a usage error whatever the other values are. */
  lemma MissingPrefixIsUsageError(fmt: Formats, args: ArgumentMultimap, p: Prefix)
    requires p in REQUIRED_PREFIXES
    ensures Parse(fmt, args.With(p, [])) == Err(InvalidCommandFormat(AddLectureUsage))
  {
    var i :| 0 <= i < |REQUIRED_PREFIXES| && REQUIRED_PREFIXES[i] == p;
    assert args.With(p, []).GetValue(REQUIRED_PREFIXES[i]).None?;
  }

  /** Tags are optional: with no tag values and the other fields valid, the lecture has no tags. */
  lemma TagsAreOptional(fmt: Formats, args: ArgumentMultimap)
    requires RequiredValuesPresent(args) && args.GetPreamble() == []
    requires args.GetAllValues(PrefixTag) == []
    requires forall i :: 0 <= i < 4 ==> LectureFieldAccepted(fmt, args, LECTURE_ORDER[i])
    ensures Parse(fmt, args).Ok? && Parse(fmt, args).value.lecture.GetTags() == {}
  {
    assert LectureFieldAccepted(fmt, args, LECTURE_ORDER[0]) && LectureFieldAccepted(fmt, args, LECTURE_ORDER[1]);
    assert LectureFieldAccepted(fmt, args, LECTURE_ORDER[2]) && LectureFieldAccepted(fmt, args, LECTURE_ORDER[3]);
    assert TagSet(fmt, []) == Ok({});
  }
}
