/**
 * ParserUtil: the field-level parse functions. Each one trims its argument,
 * checks the trimmed string against the field class's rule, and either wraps it
 * or fails with that class's constraint message.
 */
module ParserUtil {
  import opened JavaString
  import opened Messages
  import opened FieldValues
  import ModuleTeacher

  /** A position in a displayed list, stored zero-based. */
  datatype Index = Index(zeroBased: nat)
  {
    function OneBased(): nat { zeroBased + 1 }
  }

  /** `Index.fromOneBased`, defined for positive numbers. */
  function FromOneBased(oneBased: int): (i: Index)
    requires oneBased >= 1
    ensures i.OneBased() == oneBased
  {
    Index(oneBased - 1)
  }

  /** `parseIndex`: the trimmed string must be a non-zero unsigned int. */
  function ParseIndex(oneBasedIndex: string): (r: Result<Index>)
    ensures r.Ok? <==> IsNonZeroUnsignedInteger(Trim(oneBasedIndex))
    ensures r.Ok? ==> r.value.OneBased() == ParseInt(Trim(oneBasedIndex))
    ensures r.Err? ==> r.error == InvalidIndex
  {
    var trimmedIndex := Trim(oneBasedIndex);
    if !IsNonZeroUnsignedInteger(trimmedIndex) then Err(InvalidIndex)
    else Ok(FromOneBased(ParseInt(trimmedIndex)))
  }

  function ParseName(fmt: Formats, name: string): (r: Result<Name>)
    ensures r.Ok? <==> fmt.name(Trim(name))
    ensures r.Ok? ==> r.value.fullName == Trim(name)
    ensures r.Err? ==> r.error == Constraints(NameField)
  {
    var trimmedName := Trim(name);
    if !fmt.name(trimmedName) then Err(Constraints(NameField)) else Ok(Name(trimmedName))
  }

  function ParseResource(fmt: Formats, resource: string): (r: Result<Resource>)
    ensures r.Ok? <==> fmt.resource(Trim(resource))
    ensures r.Ok? ==> r.value.value == Trim(resource)
    ensures r.Err? ==> r.error == Constraints(ResourceField)
  {
    var trimmedResource := Trim(resource);
    if !fmt.resource(trimmedResource) then Err(Constraints(ResourceField)) else Ok(Resource(trimmedResource))
  }

  function ParseVenue(venue: string): (r: Result<Venue>)
    ensures r.Ok? <==> IsValidVenue(Trim(venue))
    ensures r.Ok? ==> r.value.value == Trim(venue)
    ensures r.Err? ==> r.error == Constraints(VenueField)
  {
    var trimmedVenue := Trim(venue);
    if !IsValidVenue(trimmedVenue) then Err(Constraints(VenueField)) else Ok(Venue(trimmedVenue))
  }

  function ParseTimeSlot(fmt: Formats, timeSlot: string): (r: Result<TimeSlot>)
    ensures r.Ok? <==> fmt.timeSlot(Trim(timeSlot))
    ensures r.Ok? ==> r.value.value == Trim(timeSlot)
    ensures r.Err? ==> r.error == Constraints(TimeSlotField)
  {
    var trimmedTimeSlot := Trim(timeSlot);
    if !fmt.timeSlot(trimmedTimeSlot) then Err(Constraints(TimeSlotField)) else Ok(TimeSlot(trimmedTimeSlot))
  }

  function ParseDeadline(fmt: Formats, deadline: string): (r: Result<Deadline>)
    ensures r.Ok? <==> fmt.deadline(Trim(deadline))
    ensures r.Ok? ==> r.value.value == Trim(deadline)
    ensures r.Err? ==> r.error == Constraints(DeadlineField)
  {
    var trimmedDeadline := Trim(deadline);
    if !fmt.deadline(trimmedDeadline) then Err(Constraints(DeadlineField)) else Ok(Deadline(trimmedDeadline))
  }

  /** `parseRemark` never fails. */
  function ParseRemark(remark: string): (r: Remark)
    ensures r.value == Trim(remark)
    ensures IsTrimmed(r.value)
  {
    TrimIsTrimmed(remark);
    Remark(Trim(remark))
  }

  function ParseTeacher(teacher: string): (r: Result<ModuleTeacher.Teacher>)
    ensures r.Ok? <==> ModuleTeacher.IsValidTeacher(Trim(teacher))
    ensures r.Ok? ==> r.value.value == Trim(teacher)
    ensures r.Err? ==> r.error == Constraints(TeacherField)
  {
    var trimmedTeacher := Trim(teacher);
    if !ModuleTeacher.IsValidTeacher(trimmedTeacher) then Err(Constraints(TeacherField))
    else Ok(ModuleTeacher.NewTeacher(trimmedTeacher))
  }

  function ParseTag(fmt: Formats, tag: string): (r: Result<Tag>)
    ensures r.Ok? <==> fmt.tag(Trim(tag))
    ensures r.Ok? ==> r.value.tagName == Trim(tag)
    ensures r.Err? ==> r.error == Constraints(TagField)
  {
    var trimmedTag := Trim(tag);
    if !fmt.tag(trimmedTag) then Err(Constraints(TagField)) else Ok(Tag(trimmedTag))
  }

  /** `parseModuleName`, which the lecture parser calls; built like the other parse functions. */
  function ParseModuleName(fmt: Formats, moduleName: string): (r: Result<ModuleName>)
    ensures r.Ok? <==> fmt.moduleName(Trim(moduleName))
    ensures r.Ok? ==> r.value.value == Trim(moduleName)
    ensures r.Err? ==> r.error == Constraints(ModuleNameField)
  {
    var trimmed := Trim(moduleName);
    if !fmt.moduleName(trimmed) then Err(Constraints(ModuleNameField)) else Ok(ModuleName(trimmed))
  }

  /** `parseTime`, which the lecture parser calls; built like the other parse functions. */
  function ParseTime(fmt: Formats, time: string): (r: Result<Time>)
    ensures r.Ok? <==> fmt.time(Trim(time))
    ensures r.Ok? ==> r.value.value == Trim(time)
    ensures r.Err? ==> r.error == Constraints(TimeField)
  {
    var trimmed := Trim(time);
    if !fmt.time(trimmed) then Err(Constraints(TimeField)) else Ok(Time(trimmed))
  }

  /**
   * The set `parseTags` builds: the tags of all the strings, left to right,
   * failing with the tag message at the first string that is not a valid tag.
   */
  function TagSet(fmt: Formats, tags: seq<string>): (r: Result<set<Tag>>)
    ensures r.Ok? <==> forall i :: 0 <= i < |tags| ==> fmt.tag(Trim(tags[i]))
    ensures r.Err? ==> r.error == Constraints(TagField)
    ensures r.Ok? ==> forall t :: t in r.value <==> exists i :: 0 <= i < |tags| && t == Tag(Trim(tags[i]))
  {
    if tags == [] then Ok({})
    else
      var tag :- ParseTag(fmt, tags[0]);
      var rest :- TagSet(fmt, tags[1..]);
      assert forall t :: t in rest ==> exists i :: 0 <= i < |tags| && t == Tag(Trim(tags[i])) by {
        forall t | t in rest ensures exists i :: 0 <= i < |tags| && t == Tag(Trim(tags[i])) {
          var j :| 0 <= j < |tags[1..]| && t == Tag(Trim(tags[1..][j]));
          assert tags[j + 1] == tags[1..][j];
        }
      }
      assert forall i :: 1 <= i < |tags| ==> Tag(Trim(tags[i])) in rest by {
        forall i | 1 <= i < |tags| ensures Tag(Trim(tags[i])) in rest {
          assert tags[i] == tags[1..][i - 1];
        }
      }
      Ok({tag} + rest)
  }

  /** `parseTags`: adds the tag of each string to a set, in order. */
  method ParseTags(fmt: Formats, tags: seq<string>) returns (r: Result<set<Tag>>)
    ensures r == TagSet(fmt, tags)
  {
    var tagSet: set<Tag> := {};
    for i := 0 to |tags|
      invariant forall j :: 0 <= j < i ==> fmt.tag(Trim(tags[j]))
      invariant forall t :: t in tagSet <==> exists j :: 0 <= j < i && t == Tag(Trim(tags[j]))
    {
      var tag := ParseTag(fmt, tags[i]);
      if tag.Err? {
        return Err(tag.error);
      }
      tagSet := tagSet + {tag.value};
    }
    var expected := TagSet(fmt, tags);
    assert tagSet == expected.value;
    return Ok(tagSet);
  }

  /** Printing a one-based index and parsing it back gives the same index. */
  lemma ParseIndexRoundTrip(i: Index)
    requires i.OneBased() <= INT_MAX
    ensures ParseIndex(DecimalString(i.OneBased())) == Ok(i)
  {
    DecimalStringIsUnsigned(i.OneBased());
    DigitsAreTrimmed(DecimalString(i.OneBased()));
  }

  /** A number beyond `Integer.MAX_VALUE` is not an index, however it is written. */
  lemma ParseIndexRejectsOverflow(n: nat)
    requires n > INT_MAX
    ensures ParseIndex(DecimalString(n)) == Err(InvalidIndex)
  {
    DecimalStringValue(n);
    DigitsAreTrimmed(DecimalString(n));
  }

  /** A signed or non-numeric preamble is not an index; neither is the empty string. */
  lemma ParseIndexRejectsNonDigits(s: string)
    requires exists i :: 0 <= i < |Trim(s)| && !IsDigit(Trim(s)[i])
    ensures ParseIndex(s) == Err(InvalidIndex)
  {
  }

  /** The cases the source's tests name: "10 a", the negative number the overflow test builds, "", "0" and "  1  ". */
  lemma ParseIndexExamples()
    ensures ParseIndex("10 a") == Err(InvalidIndex)
    ensures ParseIndex("-2147483648") == Err(InvalidIndex)
    ensures ParseIndex("") == Err(InvalidIndex)
    ensures ParseIndex("0") == Err(InvalidIndex)
    ensures ParseIndex("  1  ") == ParseIndex("1") == Ok(Index(0))
  {
    assert Trim("10 a") == "10 a" by { TrimOfTrimmed("10 a"); }
    assert !IsDigit("10 a"[2]);
    assert Trim("-2147483648") == "-2147483648" by { TrimOfTrimmed("-2147483648"); }
    assert !IsDigit("-2147483648"[0]);
    assert Trim("0") == "0" by { TrimOfTrimmed("0"); }
    assert DigitsValue("0") == 0 by { assert "0"[..0] == []; }
    assert "  1  " == "  " + "1" + "  ";
    TrimIgnoresPadding("  ", "1", "  ");
    ParseIndexRoundTrip(Index(0));
    assert DecimalString(1) == "1";
  }

  /** Whitespace around the argument never changes what a parse function returns. */
  lemma ParsingIgnoresPadding(fmt: Formats, p: string, s: string, q: string)
    requires AllTrimmable(p) && AllTrimmable(q)
    ensures ParseIndex(p + s + q) == ParseIndex(s)
    ensures ParseName(fmt, p + s + q) == ParseName(fmt, s)
    ensures ParseResource(fmt, p + s + q) == ParseResource(fmt, s)
    ensures ParseVenue(p + s + q) == ParseVenue(s)
    ensures ParseTimeSlot(fmt, p + s + q) == ParseTimeSlot(fmt, s)
    ensures ParseDeadline(fmt, p + s + q) == ParseDeadline(fmt, s)
    ensures ParseRemark(p + s + q) == ParseRemark(s)
    ensures ParseTeacher(p + s + q) == ParseTeacher(s)
    ensures ParseTag(fmt, p + s + q) == ParseTag(fmt, s)
  {
    TrimIgnoresPadding(p, s, q);
  }

  /** A stored value that is already trimmed and valid parses back to itself. */
  lemma ParsingRoundTrips(fmt: Formats, s: string)
    requires IsTrimmed(s)
    ensures fmt.name(s) ==> ParseName(fmt, s) == Ok(Name(s))
    ensures fmt.resource(s) ==> ParseResource(fmt, s) == Ok(Resource(s))
    ensures IsValidVenue(s) ==> ParseVenue(s) == Ok(Venue(s))
    ensures fmt.timeSlot(s) ==> ParseTimeSlot(fmt, s) == Ok(TimeSlot(s))
    ensures fmt.deadline(s) ==> ParseDeadline(fmt, s) == Ok(Deadline(s))
    ensures ParseRemark(s) == Remark(s)
    ensures fmt.tag(s) ==> ParseTag(fmt, s) == Ok(Tag(s))
    ensures ModuleTeacher.IsValidTeacher(s) ==> ParseTeacher(s) == Ok(ModuleTeacher.Teacher(s))
  {
    TrimOfTrimmed(s);
  }

  /** What a teacher's `toString` prints, `parseTeacher` reads back as the same teacher. */
  lemma TeacherToStringParsesBack(t: ModuleTeacher.Teacher)
    requires ModuleTeacher.IsValidTeacher(t.value)
    ensures ParseTeacher(t.ToString()) == Ok(t)
  {
    ModuleTeacher.ValidTeacherIsTrimmed(t.value);
  }

  /** A blank venue, whitespace only, is rejected with the venue message. */
  lemma ParseVenueRejectsBlank(venue: string)
    requires AllTrimmable(venue)
    ensures ParseVenue(venue) == Err(Constraints(VenueField))
  {
    BlankVenueInvalid(venue);
  }

  /** The empty collection gives the empty set; a collection with an invalid tag fails. */
  lemma TagSetExamples(fmt: Formats, valid: string, invalid: string)
    requires fmt.tag(Trim(valid)) && !fmt.tag(Trim(invalid))
    ensures TagSet(fmt, []) == Ok({})
    ensures TagSet(fmt, [valid, invalid]) == Err(Constraints(TagField))
    ensures TagSet(fmt, [valid, valid]) == Ok({Tag(Trim(valid))})
  {
    var r := TagSet(fmt, [valid, valid]);
    assert [valid, valid][1] == valid;
    assert r.Ok?;
    assert forall t :: t in r.value <==> t == Tag(Trim(valid));
    assert r.value == {Tag(Trim(valid))};
  }
}
