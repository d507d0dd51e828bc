# Module tracker: parsing, storage conversion and value types

This project is a Dafny model of the core of a desktop module tracker. In that
application a student keeps university modules with a name, a resource, a time
slot, a venue, tags, a remark, a deadline and a teacher. They also keep lectures
with a module name, a teacher, a time, a venue and tags. The model covers:

- `ParserUtil`, the field parsers. Each one trims its argument the way Java's
  `String.trim` does, checks the trimmed text against the field's rule, and
  either builds the field value or reports the field's constraint message. The
  index parser accepts a non-zero unsigned decimal integer that fits in a Java
  `int`.
- `EditCommandParser`, the `edit` command. It takes a one-based index in the
  preamble, then up to eight optional fields, checked in a fixed order. The
  first rejected value is the error. An edit that changes nothing is refused.
  One empty `t/` value clears the tags.
- `AddLectureCommandParser`, the `addlecture` command. Four prefixes must carry a
  value and the preamble must be empty. Then the module name, teacher, time,
  venue and tags are parsed in that order.
- `JsonAdaptedModule`, the storage record. It is built from a module or from raw
  fields, and `toModelType` converts it back, one field at a time.
- `Lecture`, with its weak (`isSameLecture`) and strong (`equals`) notions of
  sameness.
- The three teacher-like value classes: `model/module/Teacher`,
  `model/person/Teacher` and `model/lecture/Professor`.

Some regular expressions belong to classes that are not part of this model: the
rules for name, resource, time slot, tag, deadline, module name and time. The
model takes them as parameters, as the record `FieldValues.Formats` of string
predicates. Every property is proved for all rules. The rules of the classes
that are part of the model are written out: the module teacher and professor
rule (`\d{3,}`) and the person teacher rule (`[^\s].*`). The venue rule is
taken as "not blank", the behaviour its tests describe.

An exception is a `Result` error carrying a symbolic `Messages.Message`. A Java
`null` is `None`. The parsers run over the `ArgumentMultimap` the tokenizer
produces (`Arguments.ArgumentMultimap`). The imperative parts keep their loops
and step-by-step updates:

- `ParserUtil.ParseTags`, the loop that fills a tag set;
- `EditCommandParser.Parse`, which fills a descriptor field by field with early
  exits;
- `JsonAdapted.ToModelType`, the loop that converts the stored tags.

Each of these methods is proved equal to a specification function. The
properties are proved about those functions.

## Model

| member | source | states |
|---|---|---|
| JavaString.Trim | src/main/java/seedu/address/logic/parser/ParserUtil.java:34 | `String.trim`: drops every character up to U+0020 from both ends (its properties are the lemmas below) |
| JavaString.TrimIsTrimmed | src/main/java/seedu/address/logic/parser/ParserUtil.java:34 | `trim` yields text with no padding at either end, no longer than its input, and empty exactly when the input is all padding (chars up to U+0020) |
| JavaString.TrimIgnoresPadding | src/main/java/seedu/address/logic/parser/ParserUtil.java:49 | padding added before or after a string does not change its trimmed form |
| JavaString.TrimOfTrimmed | src/main/java/seedu/address/logic/parser/ParserUtil.java:49 | trimming text that is already trimmed leaves it unchanged |
| JavaString.TrimIdempotent | src/main/java/seedu/address/logic/parser/ParserUtil.java:49 | trimming twice is trimming once |
| JavaString.TrimStartDropsPadding | src/main/java/seedu/address/logic/parser/ParserUtil.java:34 | stripping the front removes exactly a prefix of padding and stops at the first non-padding char |
| JavaString.TrimEndDropsPadding | src/main/java/seedu/address/logic/parser/ParserUtil.java:34 | stripping the back removes exactly a suffix of padding and stops at the last non-padding char |
| JavaString.TrimStartSkipsPadding | src/main/java/seedu/address/logic/parser/ParserUtil.java:34 | leading padding has no effect on front stripping |
| JavaString.TrimEndSkipsPadding | src/main/java/seedu/address/logic/parser/ParserUtil.java:34 | trailing padding has no effect on back stripping |
| JavaString.TrimStartAppend | src/main/java/seedu/address/logic/parser/ParserUtil.java:34 | front stripping of `s + padding` keeps the padding unless `s` is all padding |
| JavaString.DecimalString | src/main/java/seedu/address/logic/parser/ParserUtil.java:35 | the decimal spelling of a natural number is a non-empty digit string |
| JavaString.DecimalStringValue | src/main/java/seedu/address/logic/parser/ParserUtil.java:38 | reading the decimal spelling of `n` gives back `n` |
| JavaString.IsNonZeroUnsignedInteger | src/main/java/seedu/address/logic/parser/ParserUtil.java:35 | the index check: a non-empty string of ASCII digits whose value is between 1 and 2147483647 |
| JavaString.ParseInt | src/main/java/seedu/address/logic/parser/ParserUtil.java:38 | `Integer.parseInt` on text that passed the non-zero unsigned check yields a value in 1..2147483647 |
| JavaString.DecimalStringIsUnsigned | src/main/java/seedu/address/logic/parser/ParserUtil.java:35-38 | every `n` in 1..2147483647 spelled in decimal passes the check, and `parseInt` gives back `n` |
| JavaString.DigitsAreTrimmed | src/main/java/seedu/address/logic/parser/ParserUtil.java:34 | a digit string is unchanged by `trim` |
| JavaString.WrapInt32 | src/main/java/seedu/address/model/module/Teacher.java:46-48 | 32-bit wrap-around: the result is in the `int` range and congruent to the input modulo 2^32 |
| JavaString.StringHash | src/main/java/seedu/address/model/module/Teacher.java:46-48 | `String.hashCode` (31-polynomial, wrapped to 32 bits) is always a Java `int` |
| FieldValues.IsValidVenue | src/test/java/seedu/address/model/module/VenueTest.java:22-35 | `isValidVenue`: the text is not blank, so "" and " " are refused and "-" is accepted |
| FieldValues.BlankVenueInvalid | src/main/java/seedu/address/logic/parser/ParserUtil.java:77-84 | a venue made only of whitespace is invalid, before and after trimming |
| FieldValues.VenueValidityIgnoresTrim | src/main/java/seedu/address/logic/parser/ParserUtil.java:79-80 | a venue is valid exactly when its trimmed form is valid |
| ModuleTeacher.IsValidTeacher | src/main/java/seedu/address/model/module/Teacher.java:12 | `isValidTeacher`: the whole text matches `\d{3,}`, three or more ASCII digits |
| ModuleTeacher.ToStringRoundTrip | src/main/java/seedu/address/model/module/Teacher.java:34-36 | `toString` of a valid teacher is a text the constructor accepts and that rebuilds the same teacher |
| ModuleTeacher.Teacher.Equals | src/main/java/seedu/address/model/module/Teacher.java:38-43 | corrected `equals`: two teachers are equal when their stored values are |
| ModuleTeacher.TeacherObject.EqualsAsWritten | src/main/java/seedu/address/model/module/Teacher.java:38-43 | `equals` as written, for a teacher argument: the `instanceof Phone` test is never true for a teacher, so only the same object is equal |
| ModuleTeacher.Teacher.HashCode | src/main/java/seedu/address/model/module/Teacher.java:46-48 | `hashCode` is the value's string hash, a Java `int` |
| ModuleTeacher.NewTeacher | src/main/java/seedu/address/model/module/Teacher.java:20-24 | the constructor takes a valid text (three or more ASCII digits) and stores it unchanged |
| ModuleTeacher.EqualsIsValueEquality | src/main/java/seedu/address/model/module/Teacher.java:38-43 | corrected `equals`: true exactly for equal values; reflexive, symmetric, and consistent with `hashCode` |
| ModuleTeacher.ValidTeacherIsTrimmed | src/main/java/seedu/address/model/module/Teacher.java:12 | a valid teacher text has nothing `trim` would remove |
| ModuleTeacher.TeacherRuleExamples | src/main/java/seedu/address/model/module/Teacher.java:12 | `\d{3,}` accepts "123" and "00000" and rejects "12", "", " 123" and "Prof Damyth" |
| ModuleTeacher.TeacherObject.constructor | src/main/java/seedu/address/model/module/Teacher.java:20-24 | the object constructor needs a valid text and stores it |
| ModuleTeacher.SameValueTeachersUnequal | src/main/java/seedu/address/model/module/Teacher.java:38-43 | as written, two distinct teacher objects holding "123" are not `equals` (the `instanceof Phone` test never holds for a teacher), although their values are equal |
| PersonTeacher.IsValidTeacher | src/main/java/seedu/address/model/person/Teacher.java:13 | `isValidTeacher`: the text matches `[^\s].*`, a first character outside Java's `\s` followed by characters other than line terminators |
| PersonTeacher.ToStringRoundTrip | src/main/java/seedu/address/model/person/Teacher.java:36-38 | `toString` of a valid teacher is a text the constructor accepts and that rebuilds the same teacher |
| PersonTeacher.Teacher.Equals | src/main/java/seedu/address/model/person/Teacher.java:41-44 | corrected `equals`: two teachers are equal when their stored values are |
| PersonTeacher.TeacherObject.EqualsAsWritten | src/main/java/seedu/address/model/person/Teacher.java:41-44 | `equals` as written, for a teacher argument: only the same object is equal |
| PersonTeacher.NewTeacher | src/main/java/seedu/address/model/person/Teacher.java:22-26 | the constructor takes a text matching `[^\s].*` and stores it unchanged |
| PersonTeacher.EqualsIsValueEquality | src/main/java/seedu/address/model/person/Teacher.java:41-44 | corrected `equals`: true exactly for equal values |
| PersonTeacher.TeacherRuleExamples | src/main/java/seedu/address/model/person/Teacher.java:13 | `[^\s].*` accepts "Prof. Z", "Prof Damyth" and "123", and rejects "", " Z" and a text with a line break |
| PersonTeacher.TeacherObject.constructor | src/main/java/seedu/address/model/person/Teacher.java:22-26 | the object constructor needs a valid text and stores it |
| PersonTeacher.SameValueTeachersUnequal | src/main/java/seedu/address/model/person/Teacher.java:41-44 | as written, two distinct objects holding "Prof. Z" are not `equals`, although their values are equal |
| LectureProfessor.IsValidProfessor | src/main/java/seedu/address/model/lecture/Professor.java:12 | `isValidProfessor`: the whole text matches `\d{3,}` |
| LectureProfessor.ToStringRoundTrip | src/main/java/seedu/address/model/lecture/Professor.java:34-36 | `toString` of a valid professor is a text the constructor accepts and that rebuilds the same professor |
| LectureProfessor.Professor.Equals | src/main/java/seedu/address/model/lecture/Professor.java:38-43 | corrected `equals`: two professors are equal when their stored values are |
| LectureProfessor.ProfessorObject.EqualsAsWritten | src/main/java/seedu/address/model/lecture/Professor.java:38-43 | `equals` as written, for a professor argument: only the same object is equal |
| LectureProfessor.NewProfessor | src/main/java/seedu/address/model/lecture/Professor.java:20-24 | the constructor takes a valid text and stores it unchanged |
| LectureProfessor.EqualsIsValueEquality | src/main/java/seedu/address/model/lecture/Professor.java:38-43 | corrected `equals`: true exactly for equal values |
| LectureProfessor.SameRuleAsModuleTeacher | src/main/java/seedu/address/model/lecture/Professor.java:12 | the professor rule accepts exactly the texts the module teacher rule accepts |
| LectureProfessor.ProfessorRuleExamples | src/main/java/seedu/address/model/lecture/Professor.java:12 | `\d{3,}` accepts "123" and rejects "12" and "12a" |
| LectureProfessor.ProfessorObject.constructor | src/main/java/seedu/address/model/lecture/Professor.java:20-24 | the object constructor needs a valid text and stores it |
| LectureProfessor.SameValueProfessorsUnequal | src/main/java/seedu/address/model/lecture/Professor.java:38-43 | as written, two distinct objects holding "123" are not `equals`, although their values are equal |
| ParserUtil.FromOneBased | src/main/java/seedu/address/logic/parser/ParserUtil.java:38 | an index built from a one-based number reports that number back |
| ParserUtil.ParseIndex | src/main/java/seedu/address/logic/parser/ParserUtil.java:33-39 | succeeds exactly when the trimmed text is a non-zero unsigned integer within `int`; the index is then that number; otherwise the error is the invalid-index message |
| ParserUtil.ParseName | src/main/java/seedu/address/logic/parser/ParserUtil.java:47-54 | succeeds exactly when the trimmed text satisfies the name rule, and stores the trimmed text; otherwise the name constraint message |
| ParserUtil.ParseResource | src/main/java/seedu/address/logic/parser/ParserUtil.java:62-69 | as for names, with the resource rule and message |
| ParserUtil.ParseVenue | src/main/java/seedu/address/logic/parser/ParserUtil.java:77-84 | as for names, with the venue rule (not blank) and message |
| ParserUtil.ParseTimeSlot | src/main/java/seedu/address/logic/parser/ParserUtil.java:92-99 | as for names, with the time slot rule and message |
| ParserUtil.ParseDeadline | src/main/java/seedu/address/logic/parser/ParserUtil.java:107-114 | as for names, with the deadline rule and message |
| ParserUtil.ParseRemark | src/main/java/seedu/address/logic/parser/ParserUtil.java:121-125 | never fails; stores the trimmed text, which carries no padding |
| ParserUtil.ParseTeacher | src/main/java/seedu/address/logic/parser/ParserUtil.java:132-139 | as for names, with the module teacher rule `\d{3,}` and message |
| ParserUtil.ParseTag | src/main/java/seedu/address/logic/parser/ParserUtil.java:147-154 | as for names, with the tag rule and message |
| ParserUtil.ParseModuleName | src/main/java/seedu/address/logic/parser/AddLectureCommandParser.java:42 | as for names, with the module name rule and message |
| ParserUtil.ParseTime | src/main/java/seedu/address/logic/parser/AddLectureCommandParser.java:44 | as for names, with the time rule and message |
| ParserUtil.TagSet | src/main/java/seedu/address/logic/parser/ParserUtil.java:159-166 | succeeds exactly when every tag's trimmed text is valid; the set then holds exactly the trimmed tags; otherwise the tag constraint message |
| ParserUtil.ParseTags | src/main/java/seedu/address/logic/parser/ParserUtil.java:159-166 | the loop that adds each parsed tag to a set computes `TagSet` |
| ParserUtil.ParseIndexRoundTrip | src/main/java/seedu/address/logic/parser/ParserUtil.java:33-39 | every index whose one-based number fits in `int` is parsed back from its decimal spelling |
| ParserUtil.ParseIndexRejectsOverflow | src/main/java/seedu/address/logic/parser/ParserUtil.java:35-36 | a decimal number above 2147483647 is the invalid-index error |
| ParserUtil.ParseIndexRejectsNonDigits | src/main/java/seedu/address/logic/parser/ParserUtil.java:35-36 | a trimmed text with any non-digit is the invalid-index error |
| ParserUtil.ParseIndexExamples | src/test/java/seedu/address/logic/parser/ParserUtilTest.java:40-57 | "10 a", "-2147483648", "" and "0" are rejected; "  1  " and "1" give the first index |
| ParserUtil.ParsingIgnoresPadding | src/main/java/seedu/address/logic/parser/ParserUtil.java:33-154 | every field parser gives the same result with or without surrounding whitespace |
| ParserUtil.ParsingRoundTrips | src/main/java/seedu/address/logic/parser/ParserUtil.java:47-154 | a trimmed text that satisfies a field's rule parses to exactly that field value |
| ParserUtil.TeacherToStringParsesBack | src/main/java/seedu/address/model/module/Teacher.java:34-36 | what a valid teacher's `toString` prints, `parseTeacher` reads back as the same teacher |
| ParserUtil.ParseVenueRejectsBlank | src/main/java/seedu/address/logic/parser/ParserUtil.java:77-84 | a whitespace-only venue is the venue constraint error |
| ParserUtil.TagSetExamples | src/main/java/seedu/address/logic/parser/ParserUtil.java:159-166 | no tags give the empty set; one invalid tag fails the whole list; duplicates collapse |
| Arguments.ArgumentMultimap.GetValue | src/main/java/seedu/address/logic/parser/EditCommandParser.java:50-51 | a prefix has a value exactly when it was given at least once, and the value is the last one given |
| EditCommandParser.ParseTagsForEdit | src/main/java/seedu/address/logic/parser/EditCommandParser.java:84-92 | no tag values: no change; exactly one empty value: clear the tags; otherwise the parsed tag set; errors are the tag constraint message |
| EditCommandParser.SetField | src/main/java/seedu/address/logic/parser/EditCommandParser.java:50-71 | one step of the descriptor update computes the staged specification `ApplyEdit` |
| EditCommandParser.Parse | src/main/java/seedu/address/logic/parser/EditCommandParser.java:35-77 | the step-by-step parse with early exits computes `ParsedEdit` |
| EditCommandParser.ParsedEdit | src/main/java/seedu/address/logic/parser/EditCommandParser.java:35-77 | the specification of `parse`: the index from the preamble (a usage error if it fails), then the eight setter steps in source order, then the not-edited check |
| EditCommandParser.ApplyEditOutcome | src/main/java/seedu/address/logic/parser/EditCommandParser.java:50-71 | one field step fails exactly when that field's given value is rejected, and then with that field's message |
| EditCommandParser.LaterRejectionFails | src/main/java/seedu/address/logic/parser/EditCommandParser.java:50-71 | if any remaining field is rejected, the remaining steps fail with a constraint message |
| EditCommandParser.FirstRejectionReported | src/main/java/seedu/address/logic/parser/EditCommandParser.java:50-71 | from any stage, the first rejected field in order is the one reported |
| EditCommandParser.FirstFailingFieldReported | src/test/java/seedu/address/logic/parser/EditCommandParserTest.java:83-110 | with a valid index, the error is the constraint message of the first rejected field in the order name, resource, time slot, venue, tags, remark, deadline, teacher |
| EditCommandParser.DescribedLeadingFields | src/main/java/seedu/address/logic/parser/EditCommandParser.java:50-61 | with every value accepted, the descriptor sets name, resource, time slot and venue exactly when given, to their parsed values |
| EditCommandParser.DescribedTrailingFields | src/main/java/seedu/address/logic/parser/EditCommandParser.java:62-71 | with every value accepted, the descriptor sets tags, remark, deadline and teacher exactly when given, to their parsed values |
| EditCommandParser.DescribedDescribes | src/main/java/seedu/address/logic/parser/EditCommandParser.java:49-73 | when every given value is accepted, the descriptor records each given field's parsed value, leaves the others unset, and counts as edited exactly when some field was given |
| EditCommandParser.AcceptedStep | src/main/java/seedu/address/logic/parser/EditCommandParser.java:50-71 | with all values accepted, each step sets exactly its own field of the descriptor |
| EditCommandParser.AcceptedFrom | src/main/java/seedu/address/logic/parser/EditCommandParser.java:50-76 | with all values accepted, the remaining steps yield the full descriptor, or "not edited" when it is empty |
| EditCommandParser.ParsedEditOutcome | src/main/java/seedu/address/logic/parser/EditCommandParser.java:43-77 | a bad index is the edit usage error; the parse succeeds exactly when the index is valid, every given value is accepted and some field is given; the command then holds the parsed index and a descriptor that is edited and describes the arguments; with no field given the error is "not edited" |
| EditCommandParser.SameValuesSameEdit | src/main/java/seedu/address/logic/parser/EditCommandParser.java:50-71 | the parse depends only on each prefix's last value and on all tag values |
| EditCommandParser.OnlyLastValueChecked | src/test/java/seedu/address/logic/parser/EditCommandParserTest.java:176-207 | for a repeated non-tag prefix only the last value counts: earlier invalid values are ignored, and a final invalid value fails |
| EditCommandParser.EmptyTagAmongOthersRejected | src/test/java/seedu/address/logic/parser/EditCommandParserTest.java:100-107 | an empty tag value alongside other tag values is the tag constraint error |
| EditCommandParser.ParseExamples | src/test/java/seedu/address/logic/parser/EditCommandParserTest.java:55-65 | "1 t/" clears the tags; "1" alone is "not edited"; an empty input is the usage error |
| AddLectureCommandParser.ArePrefixesPresent | src/main/java/seedu/address/logic/parser/AddLectureCommandParser.java:57-59 | true exactly when every listed prefix has a value |
| AddLectureCommandParser.RequiredPrefixesPresent | src/main/java/seedu/address/logic/parser/AddLectureCommandParser.java:37 | the check over the four required prefixes holds exactly when the name, address, phone and email prefixes each have a value |
| AddLectureCommandParser.AllFieldsAcceptedSpelledOut | src/main/java/seedu/address/logic/parser/AddLectureCommandParser.java:42-46 | all lecture fields are accepted exactly when each of the five parses succeeds |
| AddLectureCommandParser.Parse | src/main/java/seedu/address/logic/parser/AddLectureCommandParser.java:33-51 | a missing required prefix or a non-empty preamble is the usage error; success exactly when the prefixes are present, the preamble is empty and every value is accepted; the lecture then holds each parsed value and the parsed tag set |
| AddLectureCommandParser.FirstFailingFieldReported | src/main/java/seedu/address/logic/parser/AddLectureCommandParser.java:42-46 | after the structural check, the error is the constraint message of the first rejected field in the order module name, teacher, time, venue, tags |
| AddLectureCommandParser.MissingPrefixIsUsageError | src/main/java/seedu/address/logic/parser/AddLectureCommandParser.java:37-40 | removing any one required prefix gives the usage error, whatever else is given |
| AddLectureCommandParser.TagsAreOptional | src/main/java/seedu/address/logic/parser/AddLectureCommandParser.java:46 | with no tag values and valid other fields, the lecture is built with no tags |
| Lectures.Lecture.IsSameLecture | src/main/java/seedu/address/model/module/Lecture.java:67-74 | `isSameLecture`: the same lecture, or a present lecture with an equal module name |
| Lectures.Lecture.Equals | src/main/java/seedu/address/model/module/Lecture.java:80-96 | `equals`: the same lecture, or a present lecture whose module name, teacher, time, venue and tags are all equal |
| Lectures.NewLecture | src/main/java/seedu/address/model/module/Lecture.java:30-37 | the constructor stores the four values and the given tag set, which `getTags` (lines 59-61) then shows unchanged |
| Lectures.IsSameLectureByModuleName | src/main/java/seedu/address/model/module/Lecture.java:67-74 | `isSameLecture` holds exactly for a present lecture with an equal module name |
| Lectures.EqualsIsValueEquality | src/main/java/seedu/address/model/module/Lecture.java:80-96 | `equals` holds exactly for a present lecture with all five fields equal |
| Lectures.SamenessIsEquivalence | src/main/java/seedu/address/model/module/Lecture.java:67-96 | both notions are reflexive, symmetric and transitive, and false for null |
| Lectures.EqualsImpliesSameLecture | src/main/java/seedu/address/model/module/Lecture.java:63-96 | the strong notion implies the weak one |
| Lectures.SameLectureNotEqual | src/main/java/seedu/address/model/module/Lecture.java:63-96 | the converse fails: the same module at another venue is the same lecture but not equal |
| JsonAdapted.FromFields | src/main/java/seedu/address/storage/JsonAdaptedModule.java:43-57 | the record keeps the given fields; a null tag list becomes an empty one |
| JsonAdapted.ListingExists | src/main/java/seedu/address/storage/JsonAdaptedModule.java:67-69 | every tag set can be listed in some order without repetition |
| JsonAdapted.FromModule | src/main/java/seedu/address/storage/JsonAdaptedModule.java:62-73 | the record holds each field's stored text, and one tag name per tag of the module, no more |
| JsonAdapted.NoDuplicatesCount | src/main/java/seedu/address/storage/JsonAdaptedModule.java:67-69 | a listing without repetition is as long as the set has elements |
| JsonAdapted.TagToModelType | src/main/java/seedu/address/storage/JsonAdaptedModule.java:83 | a stored tag name converts exactly when it satisfies the tag rule; otherwise the tag constraint message |
| JsonAdapted.ConvertTags | src/main/java/seedu/address/storage/JsonAdaptedModule.java:81-84 | the stored tags convert exactly when all are valid, giving one tag per name in order |
| JsonAdapted.ToModelType | src/main/java/seedu/address/storage/JsonAdaptedModule.java:80-140 | the loop over the stored tags followed by the field checks computes the as-written conversion `ToModelTypeSpec` |
| JsonAdapted.ToModelTypeSpec | src/main/java/seedu/address/storage/JsonAdaptedModule.java:80-140 | `toModelType` as written: tags first, then each field's null and rule checks in source order; the teacher is built unchecked |
| JsonAdapted.ToModelTypeChecked | src/main/java/seedu/address/storage/JsonAdaptedModule.java:127-136 | the corrected conversion: the teacher gets the same missing-field and constraint checks as the deadline |
| JsonAdapted.ToModelTypeOutcome | src/main/java/seedu/address/storage/JsonAdaptedModule.java:80-140 | the conversion succeeds exactly when every field is present and valid (tags, name, resource, time slot, venue, remark present, deadline, teacher); the module is then valid and holds the stored texts and exactly the stored tags |
| JsonAdapted.InvalidTagFailsFirst | src/test/java/seedu/address/storage/JsonAdaptedModuleTest.java:114-122 | an invalid stored tag is the error whatever the other fields hold |
| JsonAdapted.FirstFailingFieldReported | src/main/java/seedu/address/storage/JsonAdaptedModule.java:86-136 | the error is that of the first missing or invalid field in storage order: the missing-field message when null, the constraint message when invalid; for the teacher this holds in the corrected conversion only, the as-written one being covered by `TeacherNotCheckedAsWritten` |
| JsonAdapted.RemarkNotValidated | src/main/java/seedu/address/storage/JsonAdaptedModule.java:122-125 | any present remark text is accepted and stored unchanged |
| JsonAdapted.RoundTrip | src/test/java/seedu/address/storage/JsonAdaptedModuleTest.java:40-44 | a valid module stored and converted back is the same module, in whatever order its tags are listed |
| JsonAdapted.TeacherNotCheckedAsWritten | src/main/java/seedu/address/storage/JsonAdaptedModule.java:136 | as written, an invalid teacher ("Prof Damyth") ends in an unchecked argument error, and a missing one in a null-pointer error; the corrected conversion reports the constraint and missing-field messages |
| JsonAdapted.CheckedConversionAgrees | src/main/java/seedu/address/storage/JsonAdaptedModule.java:80-140 | the corrected conversion only ever fails with a missing-field or constraint message, and agrees with the as-written one whenever the stored teacher is valid |

## Left out

- The argument tokenizer, which splits the command text into preamble and prefixed values, is not part of this model. Both parsers start from an `ArgumentMultimap`.
- `StringUtil`, `Index`, `Module`, `EditModuleDescriptor`, `JsonAdaptedTag`, `Name`, `Resource`, `TimeSlot`, `Venue`, `Tag`, `Remark`, `Deadline`, `ModuleName` and `Time` are not part of this model. The model uses their behaviour as the code above relies on it:
  - the one-based/zero-based index;
  - a module as a record of its eight values;
  - a descriptor of optional values;
  - a stored tag converted without trimming, by the tag rule;
  - each value class holding its text, with `toString` giving that text.
- The validation rules of those value classes are parameters (`Formats`), not regular expressions. The venue rule is modelled as "not blank".
- ParserUtil.ParseIndex: digits are read as ASCII only. Java's `Integer.parseInt` also accepts other Unicode decimal digits, so an index such as "\u0661" (Arabic-Indic one) would be accepted by Java and is refused by the model.
- JavaString.IsNonZeroUnsignedInteger: `StringUtil` is not part of this model. Its check is taken as ASCII digits, no sign, value in 1..2147483647.
- JavaString.StringHash: the hash is taken over the characters as given, not over UTF-16 code units, so characters outside the Basic Multilingual Plane hash differently.
- ModuleTeacher.TeacherObject.EqualsAsWritten: the argument is typed as a teacher object, so the source's second branch is not modelled: an argument that is a `Phone` (a class that is not part of this model) with an equal value makes `equals` true, and the relation is then asymmetric.
- PersonTeacher.TeacherObject.EqualsAsWritten: the same `Phone` branch is not modelled.
- LectureProfessor.ProfessorObject.EqualsAsWritten: the same `Phone` branch is not modelled.
- ParserUtil.ParseModuleName: the source's `ParserUtil` has no `parseModuleName`, although `AddLectureCommandParser` calls it. It is assumed to work like the other field parsers: trim, apply the module-name rule, and report the `ModuleName` constraint message.
- ParserUtil.ParseTime: likewise absent from the source's `ParserUtil`. It is assumed to trim, apply the time rule, and report the `Time` constraint message.
- `Lecture.hashCode` and `Lecture.toString` are left out: they only format or hash the fields.
- The iteration order of a `HashSet` is unspecified. `JsonAdapted.FromModule` takes the order of the tags as a parameter, and the round trip is proved for every order.
- JSON (de)serialisation, file I/O and the UI are left out.
- The edit descriptor is mutated in place by setters in the source. In the model it is a value that each step replaces. The command object and its execution against the model are left out.
- `requireNonNull` checks on arguments that are never null in the modelled calls are left out. The argument values are non-null strings by construction. The nulls the source does handle (stored record fields) are `Option`.
- The person teacher's constraint message says names contain only alphabets, but its rule `[^\s].*` accepts any one-line text that starts with a non-whitespace character. The model follows the rule.
- Lectures.EqualsIsValueEquality: teachers are compared by the corrected value equality. With the teacher `equals` as written, two lectures holding distinct but equal teacher objects would compare unequal (see Findings).
- Lectures.Lecture.Equals: same restriction; its teacher comparison is `ModuleTeacher.Teacher.Equals`, not the identity-only `equals` as written.

## Findings

| source | as written | input that shows it | evidently intended | confidence | as-written member | corrected member |
|---|---|---|---|---|---|---|
| src/main/java/seedu/address/model/module/Teacher.java:38-43 | `equals` tests `instanceof Phone`, which a teacher argument never is, so between teachers only the same object is equal (while a `Phone` with the same text is equal, making the relation asymmetric) | two teachers both built from "123" | equal exactly when the values are equal | high; not executed | ModuleTeacher.SameValueTeachersUnequal | ModuleTeacher.EqualsIsValueEquality |
| src/main/java/seedu/address/model/person/Teacher.java:41-44 | same `instanceof Phone` test | two teachers both built from "Prof. Z" | equal exactly when the values are equal | high; not executed | PersonTeacher.SameValueTeachersUnequal | PersonTeacher.EqualsIsValueEquality |
| src/main/java/seedu/address/model/lecture/Professor.java:38-43 | same `instanceof Phone` test | two professors both built from "123" | equal exactly when the values are equal | high; not executed | LectureProfessor.SameValueProfessorsUnequal | LectureProfessor.EqualsIsValueEquality |
| src/main/java/seedu/address/storage/JsonAdaptedModule.java:136 | the teacher is passed to the constructor unchecked: a null teacher throws a null-pointer error and an invalid one an unchecked argument error, not the storage error the other fields give | a stored record with teacher "Prof Damyth" (the value the storage tests use) or with no teacher | missing-field and constraint messages, as for every other field | high; not executed | JsonAdapted.TeacherNotCheckedAsWritten | JsonAdapted.CheckedConversionAgrees |
