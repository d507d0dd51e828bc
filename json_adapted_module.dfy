/**
 * JsonAdaptedModule: the storage form of a module record, with every field a
 * possibly-null string and the tags a list of tag names. `FromModule` projects a
 * record into it; `ToModelType` validates it back: the tags first, then name,
 * resource, time slot, venue, remark, deadline and teacher, the first failure
 * deciding the outcome. A missing field yields the missing-field message naming
 * its class, a malformed one that class's constraint message.
 */
module JsonAdapted {
  import opened Messages
  import opened FieldValues
  import opened Modules
  import ModuleTeacher

  /** The adapted record; `None` stands for a null field. */
  datatype JsonAdaptedModule = JsonAdaptedModule(
    name: Option<string>,
    resource: Option<string>,
    timeSlot: Option<string>,
    venue: Option<string>,
    tagged: seq<string>,
    remark: Option<string>,
    deadline: Option<string>,
    teacher: Option<string>)

  /** The field-by-field constructor: it keeps each value and reads a null tag list as an empty one. */
  function FromFields(
    name: Option<string>, resource: Option<string>, timeSlot: Option<string>, venue: Option<string>,
    tagged: Option<seq<string>>, remark: Option<string>, deadline: Option<string>, teacher: Option<string>)
    : (j: JsonAdaptedModule)
    ensures tagged.None? ==> j.tagged == []
    ensures tagged.Some? ==> j.tagged == tagged.value
    ensures j == JsonAdaptedModule(name, resource, timeSlot, venue, j.tagged, remark, deadline, teacher)
  {
    JsonAdaptedModule(name, resource, timeSlot, venue, if tagged.Some? then tagged.value else [], remark, deadline, teacher)
  }

  /** `order` lists the elements of `tags`, each once: one iteration order of the tag set. */
  ghost predicate IsListing(order: seq<Tag>, tags: set<Tag>)
  {
    && (forall i, k :: 0 <= i < k < |order| ==> order[i] != order[k])
    && (forall t :: t in tags <==> t in order)
  }

  /** Every tag set has an iteration order. */
  lemma {:induction false} ListingExists(tags: set<Tag>)
    ensures exists order :: IsListing(order, tags)
    decreases |tags|
  {
    if tags == {} {
      assert IsListing([], tags);
    } else {
      var t :| t in tags;
      ListingExists(tags - {t});
      var rest :| IsListing(rest, tags - {t});
      assert IsListing([t] + rest, tags);
    }
  }

  function TagNames(order: seq<Tag>): (names: seq<string>)
    ensures |names| == |order|
    ensures forall i :: 0 <= i < |order| ==> names[i] == order[i].tagName
  {
    seq(|order|, i requires 0 <= i < |order| => order[i].tagName)
  }

  /**
   * The projection constructor: each field becomes its stored string and the
   * tags are listed, by name, in the set's iteration order `order`.
   */
  function FromModule(m: Module, order: seq<Tag>): (j: JsonAdaptedModule)
    requires IsListing(order, m.tags)
    ensures j.name == Some(m.name.fullName) && j.resource == Some(m.resource.value)
    ensures j.timeSlot == Some(m.timeSlot.value) && j.venue == Some(m.venue.value)
    ensures j.remark == Some(m.remark.value) && j.deadline == Some(m.deadline.value)
    ensures j.teacher == Some(m.teacher.value)
    ensures |j.tagged| == |m.tags|
    ensures forall t :: t in m.tags <==> exists i :: 0 <= i < |j.tagged| && j.tagged[i] == t.tagName
  {
    NoDuplicatesCount(order, m.tags);
    var names := TagNames(order);
    assert forall t :: t in m.tags ==> exists i :: 0 <= i < |names| && names[i] == t.tagName by {
      forall t | t in m.tags ensures exists i :: 0 <= i < |names| && names[i] == t.tagName {
        var i :| 0 <= i < |order| && order[i] == t;
        assert names[i] == t.tagName;
      }
    }
    JsonAdaptedModule(
      Some(m.name.fullName), Some(m.resource.value), Some(m.timeSlot.value), Some(m.venue.value),
      names, Some(m.remark.value), Some(m.deadline.value), Some(m.teacher.value))
  }

  /** A listing of a set is as long as the set is large. */
  lemma {:induction false} NoDuplicatesCount(order: seq<Tag>, tags: set<Tag>)
    requires IsListing(order, tags)
    ensures |order| == |tags|
    decreases |order|
  {
    if order != [] {
      var t := order[0];
      var rest := order[1..];
      assert forall u :: u in tags - {t} <==> u in rest by {
        forall u ensures u in tags - {t} <==> u in rest {
          if u in rest {
            var k :| 0 <= k < |rest| && rest[k] == u;
            assert order[k + 1] == u;
          }
        }
      }
      NoDuplicatesCount(rest, tags - {t});
    }
  }

  /** `JsonAdaptedTag.toModelType`: the stored name must satisfy the tag rule. */
  function TagToModelType(fmt: Formats, tagName: string): (r: Result<Tag>)
    ensures r.Ok? <==> fmt.tag(tagName)
    ensures r.Ok? ==> r.value.tagName == tagName
    ensures r.Err? ==> r.error == Constraints(TagField)
  {
    if !fmt.tag(tagName) then Err(Constraints(TagField)) else Ok(Tag(tagName))
  }

  /** The tag loop of `toModelType`: every stored name converted in order, or the tag error. */
  function ConvertTags(fmt: Formats, tagged: seq<string>): (r: Result<seq<Tag>>)
    ensures r.Ok? <==> forall i :: 0 <= i < |tagged| ==> fmt.tag(tagged[i])
    ensures r.Ok? ==> |r.value| == |tagged| && forall i :: 0 <= i < |tagged| ==> r.value[i] == Tag(tagged[i])
    ensures r.Err? ==> r.error == Constraints(TagField)
  {
    if tagged == [] then Ok([])
    else
      var init :- ConvertTags(fmt, tagged[..|tagged| - 1]);
      var tag :- TagToModelType(fmt, tagged[|tagged| - 1]);
      Ok(init + [tag])
  }

  /**
   * The checks after the tag loop, in source order. With `teacherChecked` false
   * the teacher goes straight to its constructor, as the source does: a null
   * teacher is a null-pointer failure and an invalid one an illegal-argument
   * failure. With `teacherChecked` true it is checked like the other fields.
   */
  function ModelFrom(fmt: Formats, j: JsonAdaptedModule, moduleTags: seq<Tag>, teacherChecked: bool)
    : Result<Module>
  {
    if j.name.None? then Err(MissingField(NameField))
    else if !fmt.name(j.name.value) then Err(Constraints(NameField))
    else if j.resource.None? then Err(MissingField(ResourceField))
    else if !fmt.resource(j.resource.value) then Err(Constraints(ResourceField))
    else if j.timeSlot.None? then Err(MissingField(TimeSlotField))
    else if !fmt.timeSlot(j.timeSlot.value) then Err(Constraints(TimeSlotField))
    else if j.venue.None? then Err(MissingField(VenueField))
    else if !IsValidVenue(j.venue.value) then Err(Constraints(VenueField))
    else if j.remark.None? then Err(MissingField(RemarkField))
    else if j.deadline.None? then Err(MissingField(DeadlineField))
    else if !fmt.deadline(j.deadline.value) then Err(Constraints(DeadlineField))
    else if j.teacher.None? then (if teacherChecked then Err(MissingField(TeacherField)) else Err(NullPointer))
    else if !ModuleTeacher.IsValidTeacher(j.teacher.value) then
      (if teacherChecked then Err(Constraints(TeacherField)) else Err(IllegalArgument(TeacherField)))
    else
      Ok(Module(
        Name(j.name.value), Resource(j.resource.value), TimeSlot(j.timeSlot.value), Venue(j.venue.value),
        (set t | t in moduleTags), Remark(j.remark.value), Deadline(j.deadline.value),
        ModuleTeacher.NewTeacher(j.teacher.value)))
  }

  /** `toModelType` as written. */
  function ToModelTypeSpec(fmt: Formats, j: JsonAdaptedModule): Result<Module>
  {
    var moduleTags :- ConvertTags(fmt, j.tagged);
    ModelFrom(fmt, j, moduleTags, false)
  }

  /** `toModelType` with the teacher checked like every other field. */
  function ToModelTypeChecked(fmt: Formats, j: JsonAdaptedModule): Result<Module>
  {
    var moduleTags :- ConvertTags(fmt, j.tagged);
    ModelFrom(fmt, j, moduleTags, true)
  }

  /** `toModelType`: the tag loop appends each converted tag, then the field checks run. */
  method ToModelType(fmt: Formats, j: JsonAdaptedModule) returns (r: Result<Module>)
    ensures r == ToModelTypeSpec(fmt, j)
  {
    var moduleTags: seq<Tag> := [];
    for i := 0 to |j.tagged|
      invariant ConvertTags(fmt, j.tagged[..i]) == Ok(moduleTags)
    {
      assert j.tagged[..i + 1][..i] == j.tagged[..i];
      var tag := TagToModelType(fmt, j.tagged[i]);
      if tag.Err? {
        return Err(tag.error);
      }
      moduleTags := moduleTags + [tag.value];
    }
    assert j.tagged[..|j.tagged|] == j.tagged;
    r := ModelFrom(fmt, j, moduleTags, false);
  }

  /** Every stored field is present and satisfies its class's rule, and so does every tag name. */
  predicate AllFieldsValid(fmt: Formats, j: JsonAdaptedModule)
  {
    && (forall i :: 0 <= i < |j.tagged| ==> fmt.tag(j.tagged[i]))
    && j.name.Some? && fmt.name(j.name.value)
    && j.resource.Some? && fmt.resource(j.resource.value)
    && j.timeSlot.Some? && fmt.timeSlot(j.timeSlot.value)
    && j.venue.Some? && IsValidVenue(j.venue.value)
    && j.remark.Some?
    && j.deadline.Some? && fmt.deadline(j.deadline.value)
    && j.teacher.Some? && ModuleTeacher.IsValidTeacher(j.teacher.value)
  }

  /**
   * Conversion succeeds exactly when every field is valid, and then the record
   * holds the stored strings and the set of the stored tag names.
   */
  lemma ToModelTypeOutcome(fmt: Formats, j: JsonAdaptedModule)
    ensures ToModelTypeSpec(fmt, j).Ok? <==> AllFieldsValid(fmt, j)
    ensures ToModelTypeSpec(fmt, j).Ok? ==>
              var m := ToModelTypeSpec(fmt, j).value;
              && ValidModule(fmt, m)
              && Some(m.name.fullName) == j.name && Some(m.resource.value) == j.resource
              && Some(m.timeSlot.value) == j.timeSlot && Some(m.venue.value) == j.venue
              && Some(m.remark.value) == j.remark && Some(m.deadline.value) == j.deadline
              && Some(m.teacher.value) == j.teacher
              && (forall t :: t in m.tags <==> exists i :: 0 <= i < |j.tagged| && t == Tag(j.tagged[i]))
  {
    var tags := ConvertTags(fmt, j.tagged);
    if tags.Ok? && AllFieldsValid(fmt, j) {
      var m := ToModelTypeSpec(fmt, j).value;
      forall t | t in m.tags ensures exists i :: 0 <= i < |j.tagged| && t == Tag(j.tagged[i]) {
        var i :| 0 <= i < |tags.value| && tags.value[i] == t;
      }
      forall i | 0 <= i < |j.tagged| ensures Tag(j.tagged[i]) in m.tags {
        assert tags.value[i] == Tag(j.tagged[i]);
      }
    }
  }

  /** Tags are converted first: an invalid tag name is the error whatever the other fields hold. */
  lemma InvalidTagFailsFirst(fmt: Formats, j: JsonAdaptedModule, i: nat)
    requires i < |j.tagged| && !fmt.tag(j.tagged[i])
    ensures ToModelTypeSpec(fmt, j) == Err(Constraints(TagField))
    ensures ToModelTypeChecked(fmt, j) == Err(Constraints(TagField))
  {
  }

  /** The fields after the tags, in the order they are checked. */
  const FIELD_ORDER: seq<Field> :=
    [NameField, ResourceField, TimeSlotField, VenueField, RemarkField, DeadlineField, TeacherField]

  /** The stored value of field `f`. */
  function Stored(j: JsonAdaptedModule, f: Field): Option<string>
  {
    match f
    case NameField => j.name
    case ResourceField => j.resource
    case TimeSlotField => j.timeSlot
    case VenueField => j.venue
    case RemarkField => j.remark
    case DeadlineField => j.deadline
    case TeacherField => j.teacher
    case _ => None
  }

  /** Whether field `f` passes: present and, except for a remark, valid. */
  predicate FieldPasses(fmt: Formats, j: JsonAdaptedModule, f: Field)
  {
    Stored(j, f).Some? && (f == RemarkField || IsValid(fmt, f, Stored(j, f).value))
  }

  /** The checked-exception message for a field that does not pass. */
  function FieldError(j: JsonAdaptedModule, f: Field): Message
  {
    if Stored(j, f).None? then MissingField(f) else Constraints(f)
  }

  /**
   * First error wins: with valid tags, the first field in check order that is
   * missing or malformed decides the message, with the teacher checked.
   */
  lemma FirstFailingFieldReported(fmt: Formats, j: JsonAdaptedModule, k: nat)
    requires forall i :: 0 <= i < |j.tagged| ==> fmt.tag(j.tagged[i])
    requires k < |FIELD_ORDER| && !FieldPasses(fmt, j, FIELD_ORDER[k])
    requires forall i :: 0 <= i < k ==> FieldPasses(fmt, j, FIELD_ORDER[i])
    ensures ToModelTypeChecked(fmt, j) == Err(FieldError(j, FIELD_ORDER[k]))
    ensures k < |FIELD_ORDER| - 1 ==> ToModelTypeSpec(fmt, j) == Err(FieldError(j, FIELD_ORDER[k]))
  {
    if k > 0 { assert FieldPasses(fmt, j, FIELD_ORDER[0]); }
    if k > 1 { assert FieldPasses(fmt, j, FIELD_ORDER[1]); }
    if k > 2 { assert FieldPasses(fmt, j, FIELD_ORDER[2]); }
    if k > 3 { assert FieldPasses(fmt, j, FIELD_ORDER[3]); }
    if k > 4 { assert FieldPasses(fmt, j, FIELD_ORDER[4]); }
    if k > 5 { assert FieldPasses(fmt, j, FIELD_ORDER[5]); }
  }

  /** A stored remark is never validated: any text, even blank, is accepted. */
  lemma RemarkNotValidated(fmt: Formats, j: JsonAdaptedModule, text: string)
    requires AllFieldsValid(fmt, j)
    ensures ToModelTypeSpec(fmt, j.(remark := Some(text))).Ok?
    ensures ToModelTypeSpec(fmt, j.(remark := Some(text))).value.remark == Remark(text)
  {
    ToModelTypeOutcome(fmt, j.(remark := Some(text)));
  }

  /** Round trip: projecting a valid record and converting it back gives the record, for every tag order. */
  lemma RoundTrip(fmt: Formats, m: Module, order: seq<Tag>)
    requires ValidModule(fmt, m) && IsListing(order, m.tags)
    ensures ToModelTypeSpec(fmt, FromModule(m, order)) == Ok(m)
    ensures ToModelTypeChecked(fmt, FromModule(m, order)) == Ok(m)
  {
    var j := FromModule(m, order);
    forall i | 0 <= i < |j.tagged| ensures fmt.tag(j.tagged[i]) {
      assert order[i] in m.tags;
    }
    ToModelTypeOutcome(fmt, j);
    var back := ToModelTypeSpec(fmt, j).value;
    assert back.tags == m.tags by {
      forall t ensures t in back.tags <==> t in m.tags {
        if t in back.tags {
          var i :| 0 <= i < |j.tagged| && t == Tag(j.tagged[i]);
          assert j.tagged[i] == order[i].tagName;
        }
        if t in m.tags {
          var i :| 0 <= i < |order| && order[i] == t;
          assert Tag(j.tagged[i]) == t;
        }
      }
    }
  }

  /**
   * The teacher finding as written: a record whose other fields are valid but
   * whose teacher is "Prof Damyth" (the teacher of the adapter's own test data)
   * fails with an unchecked illegal-argument failure, and a null teacher with a
   * null-pointer failure, where the checked conversion reports the teacher's
   * constraint and missing-field messages.
   */
  lemma TeacherNotCheckedAsWritten(fmt: Formats, j: JsonAdaptedModule)
    requires AllFieldsValid(fmt, j.(teacher := Some("123")))
    ensures ToModelTypeSpec(fmt, j.(teacher := Some("Prof Damyth"))) == Err(IllegalArgument(TeacherField))
    ensures ToModelTypeChecked(fmt, j.(teacher := Some("Prof Damyth"))) == Err(Constraints(TeacherField))
    ensures ToModelTypeSpec(fmt, j.(teacher := None)) == Err(NullPointer)
    ensures ToModelTypeChecked(fmt, j.(teacher := None)) == Err(MissingField(TeacherField))
  {
    ModuleTeacher.TeacherRuleExamples();
  }

  /**
   * The checked conversion fails only with checked messages, and agrees with the
   * source's conversion on every record whose teacher is present and valid.
   */
  lemma CheckedConversionAgrees(fmt: Formats, j: JsonAdaptedModule)
    ensures ToModelTypeChecked(fmt, j).Err? ==>
              ToModelTypeChecked(fmt, j).error.MissingField? || ToModelTypeChecked(fmt, j).error.Constraints?
    ensures j.teacher.Some? && ModuleTeacher.IsValidTeacher(j.teacher.value) ==>
              ToModelTypeChecked(fmt, j) == ToModelTypeSpec(fmt, j)
  {
  }
}
