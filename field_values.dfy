/**
 * The single-string field value classes a module record is built from (Name,
 * Resource, TimeSlot, Venue, Tag, Remark, Deadline, ModuleName, Time). Their
 * classes are outside this model; each is a wrapper that stores the string it
 * was built from. The format rules of most of them are regular expressions not
 * shown here, so they are parameters: a `Formats` value says which strings each
 * such class accepts, and every result below holds whatever those rules are.
 */
module FieldValues {
  import opened JavaString
  import opened Messages
  import ModuleTeacher

  /** The format rules of the field classes whose validation pattern is not modelled. */
  datatype Formats = Formats(
    name: string -> bool,
    resource: string -> bool,
    timeSlot: string -> bool,
    tag: string -> bool,
    deadline: string -> bool,
    moduleName: string -> bool,
    time: string -> bool)

  datatype Name = Name(fullName: string)
  datatype Resource = Resource(value: string)
  datatype TimeSlot = TimeSlot(value: string)
  datatype Venue = Venue(value: string)
  datatype Tag = Tag(tagName: string)
  datatype Remark = Remark(value: string)
  datatype Deadline = Deadline(value: string)
  datatype ModuleName = ModuleName(value: string)
  datatype Time = Time(value: string)

  /** `Venue.isValidVenue`: the venue is not blank. */
  predicate IsValidVenue(test: string)
  {
    !AllTrimmable(test)
  }

  /**
   * Whether the field class `f` accepts `s`. Teacher is the module-package
   * Teacher with its digit rule; a Remark accepts every string.
   */
  predicate IsValid(fmt: Formats, f: Field, s: string)
  {
    match f
    case NameField => fmt.name(s)
    case ResourceField => fmt.resource(s)
    case TimeSlotField => fmt.timeSlot(s)
    case VenueField => IsValidVenue(s)
    case TagField => fmt.tag(s)
    case RemarkField => true
    case DeadlineField => fmt.deadline(s)
    case TeacherField => ModuleTeacher.IsValidTeacher(s)
    case ModuleNameField => fmt.moduleName(s)
    case TimeField => fmt.time(s)
  }

  /** The empty string, and every string of whitespace, is not a valid venue. */
  lemma BlankVenueInvalid(s: string)
    requires AllTrimmable(s)
    ensures !IsValidVenue(s) && !IsValidVenue(Trim(s))
  {
    TrimIsTrimmed(s);
  }

  /** A venue is valid exactly when its trimmed form is. */
  lemma VenueValidityIgnoresTrim(s: string)
    ensures IsValidVenue(Trim(s)) <==> IsValidVenue(s)
  {
    TrimIsTrimmed(s);
    if !AllTrimmable(s) {
      var t := Trim(s);
      assert !IsTrimmable(t[0]);
    }
  }
}
