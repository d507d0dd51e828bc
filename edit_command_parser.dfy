/**
 * EditCommandParser: turns tokenised arguments into the index of the module to
 * edit and a descriptor of the fields to change. The preamble must be an index;
 * each field prefix that is present is validated, in a fixed order, from its
 * last value; the tag prefix replaces or clears the whole tag set; an edit
 * that changes nothing is refused.
 */
module EditCommandParser {
  import opened JavaString
  import opened Messages
  import opened FieldValues
  import opened ParserUtil
  import opened Arguments
  import ModuleTeacher

  /** A partial update: one optional override per module field. */
  datatype EditModuleDescriptor = EditModuleDescriptor(
    name: Option<Name>,
    resource: Option<Resource>,
    timeSlot: Option<TimeSlot>,
    venue: Option<Venue>,
    tags: Option<set<Tag>>,
    remark: Option<Remark>,
    deadline: Option<Deadline>,
    teacher: Option<ModuleTeacher.Teacher>)
  {
    predicate IsAnyFieldEdited()
    {
      name.Some? || resource.Some? || timeSlot.Some? || venue.Some? || tags.Some?
      || remark.Some? || deadline.Some? || teacher.Some?
    }
  }

  const NO_EDITS: EditModuleDescriptor := EditModuleDescriptor(None, None, None, None, None, None, None, None)

  datatype EditCommand = EditCommand(index: Index, descriptor: EditModuleDescriptor)

  /** The order in which the parser validates the fields. */
  const EDIT_ORDER: seq<Field> :=
    [NameField, ResourceField, TimeSlotField, VenueField, TagField, RemarkField, DeadlineField, TeacherField]

  /**
   * `parseTagsForEdit`: no tag values leave the tags alone; a single empty value
   * clears them; any other values replace the whole set.
   */
  function ParseTagsForEdit(fmt: Formats, tags: seq<string>): (r: Result<Option<set<Tag>>>)
    ensures tags == [] ==> r == Ok(None)
    ensures tags == [""] ==> r == Ok(Some({}))
    ensures tags != [] && tags != [""] ==>
              (r.Ok? <==> TagSet(fmt, tags).Ok?) && (r.Ok? ==> r.value == Some(TagSet(fmt, tags).value))
    ensures r.Err? ==> r.error == Constraints(TagField)
  {
    if tags == [] then Ok(None)
    else
      var tagSet := if |tags| == 1 && "" in tags then [] else tags;
      var parsed :- TagSet(fmt, tagSet);
      Ok(Some(parsed))
  }

  /** Whether the parser's check of field `f` passes (a field whose prefix is absent passes). */
  predicate EditFieldAccepted(fmt: Formats, args: ArgumentMultimap, f: Field)
  {
    match f
    case NameField => args.GetValue(PrefixName).None? || ParseName(fmt, args.GetValue(PrefixName).value).Ok?
    case ResourceField =>
      args.GetValue(PrefixResource).None? || ParseResource(fmt, args.GetValue(PrefixResource).value).Ok?
    case TimeSlotField =>
      args.GetValue(PrefixTimeSlot).None? || ParseTimeSlot(fmt, args.GetValue(PrefixTimeSlot).value).Ok?
    case VenueField => args.GetValue(PrefixVenue).None? || ParseVenue(args.GetValue(PrefixVenue).value).Ok?
    case TagField => ParseTagsForEdit(fmt, args.GetAllValues(PrefixTag)).Ok?
    case DeadlineField =>
      args.GetValue(PrefixDeadline).None? || ParseDeadline(fmt, args.GetValue(PrefixDeadline).value).Ok?
    case TeacherField => args.GetValue(PrefixTeacher).None? || ParseTeacher(args.GetValue(PrefixTeacher).value).Ok?
    case _ => true
  }

  /** Whether any field prefix was given at all. */
  predicate AnyFieldGiven(args: ArgumentMultimap)
  {
    args.GetValue(PrefixName).Some? || args.GetValue(PrefixResource).Some?
    || args.GetValue(PrefixTimeSlot).Some? || args.GetValue(PrefixVenue).Some?
    || args.GetAllValues(PrefixTag) != [] || args.GetValue(PrefixRemark).Some?
    || args.GetValue(PrefixDeadline).Some? || args.GetValue(PrefixTeacher).Some?
  }

  /**
   * The descriptor overrides exactly the fields whose prefix was given, each with
   * what its parse function makes of the prefix's last value (of all tag values, for tags).
   */
  predicate DescribesArguments(fmt: Formats, args: ArgumentMultimap, d: EditModuleDescriptor)
  {
    && (d.name.Some? <==> args.GetValue(PrefixName).Some?)
    && (d.name.Some? ==> ParseName(fmt, args.GetValue(PrefixName).value) == Ok(d.name.value))
    && (d.resource.Some? <==> args.GetValue(PrefixResource).Some?)
    && (d.resource.Some? ==> ParseResource(fmt, args.GetValue(PrefixResource).value) == Ok(d.resource.value))
    && (d.timeSlot.Some? <==> args.GetValue(PrefixTimeSlot).Some?)
    && (d.timeSlot.Some? ==> ParseTimeSlot(fmt, args.GetValue(PrefixTimeSlot).value) == Ok(d.timeSlot.value))
    && (d.venue.Some? <==> args.GetValue(PrefixVenue).Some?)
    && (d.venue.Some? ==> ParseVenue(args.GetValue(PrefixVenue).value) == Ok(d.venue.value))
    && (d.tags.Some? <==> args.GetAllValues(PrefixTag) != [])
    && (d.tags.Some? ==> ParseTagsForEdit(fmt, args.GetAllValues(PrefixTag)) == Ok(d.tags))
    && (d.remark.Some? <==> args.GetValue(PrefixRemark).Some?)
    && (d.remark.Some? ==> d.remark.value == ParseRemark(args.GetValue(PrefixRemark).value))
    && (d.deadline.Some? <==> args.GetValue(PrefixDeadline).Some?)
    && (d.deadline.Some? ==> ParseDeadline(fmt, args.GetValue(PrefixDeadline).value) == Ok(d.deadline.value))
    && (d.teacher.Some? <==> args.GetValue(PrefixTeacher).Some?)
    && (d.teacher.Some? ==> ParseTeacher(args.GetValue(PrefixTeacher).value) == Ok(d.teacher.value))
  }

  /**
   * One setter step of `parse`: if the arguments carry field `f`, parse it and set
   * it in the descriptor; otherwise leave the descriptor as it is.
   */
  function ApplyEdit(fmt: Formats, args: ArgumentMultimap, f: Field, d: EditModuleDescriptor): Result<EditModuleDescriptor>
  {
    match f
    case NameField =>
      if args.GetValue(PrefixName).None? then Ok(d)
      else var v :- ParseName(fmt, args.GetValue(PrefixName).value); Ok(d.(name := Some(v)))
    case ResourceField =>
      if args.GetValue(PrefixResource).None? then Ok(d)
      else var v :- ParseResource(fmt, args.GetValue(PrefixResource).value); Ok(d.(resource := Some(v)))
    case TimeSlotField =>
      if args.GetValue(PrefixTimeSlot).None? then Ok(d)
      else var v :- ParseTimeSlot(fmt, args.GetValue(PrefixTimeSlot).value); Ok(d.(timeSlot := Some(v)))
    case VenueField =>
      if args.GetValue(PrefixVenue).None? then Ok(d)
      else var v :- ParseVenue(args.GetValue(PrefixVenue).value); Ok(d.(venue := Some(v)))
    case TagField =>
      var t :- ParseTagsForEdit(fmt, args.GetAllValues(PrefixTag));
      Ok(if t.Some? then d.(tags := t) else d)
    case RemarkField =>
      if args.GetValue(PrefixRemark).None? then Ok(d)
      else Ok(d.(remark := Some(ParseRemark(args.GetValue(PrefixRemark).value))))
    case DeadlineField =>
      if args.GetValue(PrefixDeadline).None? then Ok(d)
      else var v :- ParseDeadline(fmt, args.GetValue(PrefixDeadline).value); Ok(d.(deadline := Some(v)))
    case TeacherField =>
      if args.GetValue(PrefixTeacher).None? then Ok(d)
      else var v :- ParseTeacher(args.GetValue(PrefixTeacher).value); Ok(d.(teacher := Some(v)))
    case _ => Ok(d)
  }

  /** The rest of `parse` from step `k` on, with the descriptor built so far. */
  function EditFrom(fmt: Formats, args: ArgumentMultimap, index: Index, k: nat, d: EditModuleDescriptor)
    : Result<EditCommand>
    requires k <= |EDIT_ORDER|
    decreases |EDIT_ORDER| - k
  {
    if k == |EDIT_ORDER| then
      if !d.IsAnyFieldEdited() then Err(NotEdited) else Ok(EditCommand(index, d))
    else
      var next :- ApplyEdit(fmt, args, EDIT_ORDER[k], d);
      EditFrom(fmt, args, index, k + 1, next)
  }

  /** The outcome of `parse`, as a function of the tokenised arguments. */
  function ParsedEdit(fmt: Formats, args: ArgumentMultimap): Result<EditCommand>
  {
    var index := ParseIndex(args.GetPreamble());
    if index.Err? then Err(InvalidCommandFormat(EditUsage))
    else EditFrom(fmt, args, index.value, 0, NO_EDITS)
  }

  /** One setter block of `parse`: parse field `f` if its prefix is present and set it in `d`. */
  method SetField(fmt: Formats, args: ArgumentMultimap, f: Field, d: EditModuleDescriptor)
    returns (r: Result<EditModuleDescriptor>)
    ensures r == ApplyEdit(fmt, args, f, d)
  {
    r := Ok(d);
    match f {
      case NameField =>
        if args.GetValue(PrefixName).Some? {
          var name := ParseName(fmt, args.GetValue(PrefixName).value);
          if name.Err? { return Err(name.error); }
          r := Ok(d.(name := Some(name.value)));
        }
      case ResourceField =>
        if args.GetValue(PrefixResource).Some? {
          var resource := ParseResource(fmt, args.GetValue(PrefixResource).value);
          if resource.Err? { return Err(resource.error); }
          r := Ok(d.(resource := Some(resource.value)));
        }
      case TimeSlotField =>
        if args.GetValue(PrefixTimeSlot).Some? {
          var timeSlot := ParseTimeSlot(fmt, args.GetValue(PrefixTimeSlot).value);
          if timeSlot.Err? { return Err(timeSlot.error); }
          r := Ok(d.(timeSlot := Some(timeSlot.value)));
        }
      case VenueField =>
        if args.GetValue(PrefixVenue).Some? {
          var venue := ParseVenue(args.GetValue(PrefixVenue).value);
          if venue.Err? { return Err(venue.error); }
          r := Ok(d.(venue := Some(venue.value)));
        }
      case TagField =>
        var tags := ParseTagsForEdit(fmt, args.GetAllValues(PrefixTag));
        if tags.Err? { return Err(tags.error); }
        if tags.value.Some? {
          r := Ok(d.(tags := tags.value));
        }
      case RemarkField =>
        if args.GetValue(PrefixRemark).Some? {
          r := Ok(d.(remark := Some(ParseRemark(args.GetValue(PrefixRemark).value))));
        }
      case DeadlineField =>
        if args.GetValue(PrefixDeadline).Some? {
          var deadline := ParseDeadline(fmt, args.GetValue(PrefixDeadline).value);
          if deadline.Err? { return Err(deadline.error); }
          r := Ok(d.(deadline := Some(deadline.value)));
        }
      case TeacherField =>
        if args.GetValue(PrefixTeacher).Some? {
          var teacher := ParseTeacher(args.GetValue(PrefixTeacher).value);
          if teacher.Err? { return Err(teacher.error); }
          r := Ok(d.(teacher := Some(teacher.value)));
        }
      case _ =>
    }
  }

  /**
   * `parse`: a usage error unless the preamble is an index; then the setter blocks
   * in source order, stopping at the first failure; then the not-edited check.
   */
  method Parse(fmt: Formats, args: ArgumentMultimap) returns (r: Result<EditCommand>)
    ensures r == ParsedEdit(fmt, args)
  {
    var index := ParseIndex(args.GetPreamble());
    if index.Err? {
      return Err(InvalidCommandFormat(EditUsage));
    }
    var descriptor := NO_EDITS;
    var step: Result<EditModuleDescriptor>;
    step := SetField(fmt, args, NameField, descriptor);
    if step.Err? { return Err(step.error); }
    descriptor := step.value;
    assert ParsedEdit(fmt, args) == EditFrom(fmt, args, index.value, 1, descriptor);
    step := SetField(fmt, args, ResourceField, descriptor);
    if step.Err? { return Err(step.error); }
    descriptor := step.value;
    assert ParsedEdit(fmt, args) == EditFrom(fmt, args, index.value, 2, descriptor);
    step := SetField(fmt, args, TimeSlotField, descriptor);
    if step.Err? { return Err(step.error); }
    descriptor := step.value;
    assert ParsedEdit(fmt, args) == EditFrom(fmt, args, index.value, 3, descriptor);
    step := SetField(fmt, args, VenueField, descriptor);
    if step.Err? { return Err(step.error); }
    descriptor := step.value;
    assert ParsedEdit(fmt, args) == EditFrom(fmt, args, index.value, 4, descriptor);
    step := SetField(fmt, args, TagField, descriptor);
    if step.Err? { return Err(step.error); }
    descriptor := step.value;
    assert ParsedEdit(fmt, args) == EditFrom(fmt, args, index.value, 5, descriptor);
    step := SetField(fmt, args, RemarkField, descriptor);
    if step.Err? { return Err(step.error); }
    descriptor := step.value;
    assert ParsedEdit(fmt, args) == EditFrom(fmt, args, index.value, 6, descriptor);
    step := SetField(fmt, args, DeadlineField, descriptor);
    if step.Err? { return Err(step.error); }
    descriptor := step.value;
    assert ParsedEdit(fmt, args) == EditFrom(fmt, args, index.value, 7, descriptor);
    step := SetField(fmt, args, TeacherField, descriptor);
    if step.Err? { return Err(step.error); }
    descriptor := step.value;
    assert ParsedEdit(fmt, args) == EditFrom(fmt, args, index.value, 8, descriptor);
    if !descriptor.IsAnyFieldEdited() {
      return Err(NotEdited);
    }
    return Ok(EditCommand(index.value, descriptor));
  }

  /** What one setter step does: it fails exactly when the field's check fails, with that field's message. */
  lemma ApplyEditOutcome(fmt: Formats, args: ArgumentMultimap, f: Field, d: EditModuleDescriptor)
    ensures ApplyEdit(fmt, args, f, d).Ok? <==> EditFieldAccepted(fmt, args, f)
    ensures ApplyEdit(fmt, args, f, d).Err? ==> ApplyEdit(fmt, args, f, d).error == Constraints(f)
  {
  }

  /** If some field from step `j` on fails its check, the rest of `parse` fails with a constraint message. */
  lemma {:induction false} LaterRejectionFails(
    fmt: Formats, args: ArgumentMultimap, index: Index, j: nat, d: EditModuleDescriptor)
    requires j <= |EDIT_ORDER|
    requires exists i :: j <= i < |EDIT_ORDER| && !EditFieldAccepted(fmt, args, EDIT_ORDER[i])
    ensures EditFrom(fmt, args, index, j, d).Err? && EditFrom(fmt, args, index, j, d).error.Constraints?
    decreases |EDIT_ORDER| - j
  {
    ApplyEditOutcome(fmt, args, EDIT_ORDER[j], d);
    if EditFieldAccepted(fmt, args, EDIT_ORDER[j]) {
      LaterRejectionFails(fmt, args, index, j + 1, ApplyEdit(fmt, args, EDIT_ORDER[j], d).value);
    }
  }

  /** From step `j` on, the first field whose check fails decides the error. */
  lemma {:induction false} FirstRejectionReported(
    fmt: Formats, args: ArgumentMultimap, index: Index, j: nat, k: nat, d: EditModuleDescriptor)
    requires j <= k < |EDIT_ORDER| && !EditFieldAccepted(fmt, args, EDIT_ORDER[k])
    requires forall i :: j <= i < k ==> EditFieldAccepted(fmt, args, EDIT_ORDER[i])
    ensures EditFrom(fmt, args, index, j, d) == Err(Constraints(EDIT_ORDER[k]))
    decreases k - j
  {
    ApplyEditOutcome(fmt, args, EDIT_ORDER[j], d);
    if j < k {
      FirstRejectionReported(fmt, args, index, j + 1, k, ApplyEdit(fmt, args, EDIT_ORDER[j], d).value);
    }
  }

  /**
   * First error wins: with a valid index, the error is the constraint message of
   * the first field, in source order, whose check fails.
   */
  lemma FirstFailingFieldReported(fmt: Formats, args: ArgumentMultimap, k: nat)
    requires ParseIndex(args.GetPreamble()).Ok?
    requires k < |EDIT_ORDER| && !EditFieldAccepted(fmt, args, EDIT_ORDER[k])
    requires forall i :: 0 <= i < k ==> EditFieldAccepted(fmt, args, EDIT_ORDER[i])
    ensures ParsedEdit(fmt, args) == Err(Constraints(EDIT_ORDER[k]))
  {
    FirstRejectionReported(fmt, args, ParseIndex(args.GetPreamble()).value, 0, k, NO_EDITS);
  }

  predicate AllFieldsAccepted(fmt: Formats, args: ArgumentMultimap)
  {
    forall f :: f in EDIT_ORDER ==> EditFieldAccepted(fmt, args, f)
  }

  /** The parsed value, when parsing succeeded. */
  function Parsed<T>(r: Result<T>): Option<T>
  {
    if r.Ok? then Some(r.value) else None
  }

  /** The descriptor `parse` builds when every field passes its check. */
  function Described(fmt: Formats, args: ArgumentMultimap): EditModuleDescriptor
  {
    var name, resource := args.GetValue(PrefixName), args.GetValue(PrefixResource);
    var timeSlot, venue := args.GetValue(PrefixTimeSlot), args.GetValue(PrefixVenue);
    var remark, deadline := args.GetValue(PrefixRemark), args.GetValue(PrefixDeadline);
    var teacher := args.GetValue(PrefixTeacher);
    EditModuleDescriptor(
      if name.Some? then Parsed(ParseName(fmt, name.value)) else None,
      if resource.Some? then Parsed(ParseResource(fmt, resource.value)) else None,
      if timeSlot.Some? then Parsed(ParseTimeSlot(fmt, timeSlot.value)) else None,
      if venue.Some? then Parsed(ParseVenue(venue.value)) else None,
      match ParseTagsForEdit(fmt, args.GetAllValues(PrefixTag)) case Ok(tags) => tags case Err(_) => None,
      if remark.Some? then Some(ParseRemark(remark.value)) else None,
      if deadline.Some? then Parsed(ParseDeadline(fmt, deadline.value)) else None,
      if teacher.Some? then Parsed(ParseTeacher(teacher.value)) else None)
  }

  /** The first four fields of the final descriptor: name, resource, time slot and venue. */
  lemma DescribedLeadingFields(fmt: Formats, args: ArgumentMultimap)
    requires AllFieldsAccepted(fmt, args)
    ensures var d := Described(fmt, args);
            && (d.name.Some? <==> args.GetValue(PrefixName).Some?)
            && (d.name.Some? ==> ParseName(fmt, args.GetValue(PrefixName).value) == Ok(d.name.value))
            && (d.resource.Some? <==> args.GetValue(PrefixResource).Some?)
            && (d.resource.Some? ==> ParseResource(fmt, args.GetValue(PrefixResource).value) == Ok(d.resource.value))
            && (d.timeSlot.Some? <==> args.GetValue(PrefixTimeSlot).Some?)
            && (d.timeSlot.Some? ==> ParseTimeSlot(fmt, args.GetValue(PrefixTimeSlot).value) == Ok(d.timeSlot.value))
            && (d.venue.Some? <==> args.GetValue(PrefixVenue).Some?)
            && (d.venue.Some? ==> ParseVenue(args.GetValue(PrefixVenue).value) == Ok(d.venue.value))
  {
    assert EditFieldAccepted(fmt, args, NameField);
    assert EditFieldAccepted(fmt, args, ResourceField);
    assert EditFieldAccepted(fmt, args, TimeSlotField);
    assert EditFieldAccepted(fmt, args, VenueField);
  }

  /** The last four fields of the final descriptor: tags, remark, deadline and teacher. */
  lemma DescribedTrailingFields(fmt: Formats, args: ArgumentMultimap)
    requires AllFieldsAccepted(fmt, args)
    ensures var d := Described(fmt, args);
            && (d.tags.Some? <==> args.GetAllValues(PrefixTag) != [])
            && (d.tags.Some? ==> ParseTagsForEdit(fmt, args.GetAllValues(PrefixTag)) == Ok(d.tags))
            && (d.remark.Some? <==> args.GetValue(PrefixRemark).Some?)
            && (d.remark.Some? ==> d.remark.value == ParseRemark(args.GetValue(PrefixRemark).value))
            && (d.deadline.Some? <==> args.GetValue(PrefixDeadline).Some?)
            && (d.deadline.Some? ==> ParseDeadline(fmt, args.GetValue(PrefixDeadline).value) == Ok(d.deadline.value))
            && (d.teacher.Some? <==> args.GetValue(PrefixTeacher).Some?)
            && (d.teacher.Some? ==> ParseTeacher(args.GetValue(PrefixTeacher).value) == Ok(d.teacher.value))
  {
    var tags := args.GetAllValues(PrefixTag);
    assert EditFieldAccepted(fmt, args, TagField);
    assert EditFieldAccepted(fmt, args, DeadlineField);
    assert EditFieldAccepted(fmt, args, TeacherField);
    assert ParseTagsForEdit(fmt, tags).value.Some? <==> tags != [];
  }

  /** The final descriptor overrides exactly the given fields, with their parsed values. */
  lemma DescribedDescribes(fmt: Formats, args: ArgumentMultimap)
    requires AllFieldsAccepted(fmt, args)
    ensures DescribesArguments(fmt, args, Described(fmt, args))
    ensures Described(fmt, args).IsAnyFieldEdited() <==> AnyFieldGiven(args)
  {
    DescribedLeadingFields(fmt, args);
    DescribedTrailingFields(fmt, args);
  }

  /** `d` with only the fields of the first `k` setter steps kept. */
  function UpTo(d: EditModuleDescriptor, k: nat): EditModuleDescriptor
  {
    EditModuleDescriptor(
      if k > 0 then d.name else None,
      if k > 1 then d.resource else None,
      if k > 2 then d.timeSlot else None,
      if k > 3 then d.venue else None,
      if k > 4 then d.tags else None,
      if k > 5 then d.remark else None,
      if k > 6 then d.deadline else None,
      if k > 7 then d.teacher else None)
  }

  /** With every check passing, step `k` adds exactly field `k` of the final descriptor. */
  lemma AcceptedStep(fmt: Formats, args: ArgumentMultimap, k: nat)
    requires AllFieldsAccepted(fmt, args) && k < |EDIT_ORDER|
    ensures ApplyEdit(fmt, args, EDIT_ORDER[k], UpTo(Described(fmt, args), k))
            == Ok(UpTo(Described(fmt, args), k + 1))
  {
    assert EditFieldAccepted(fmt, args, EDIT_ORDER[k]);
  }

  lemma {:induction false} AcceptedFrom(fmt: Formats, args: ArgumentMultimap, index: Index, k: nat)
    requires AllFieldsAccepted(fmt, args) && k <= |EDIT_ORDER|
    ensures var d := Described(fmt, args);
            EditFrom(fmt, args, index, k, UpTo(d, k))
            == if d.IsAnyFieldEdited() then Ok(EditCommand(index, d)) else Err(NotEdited)
    decreases |EDIT_ORDER| - k
  {
    var d := Described(fmt, args);
    if k < |EDIT_ORDER| {
      AcceptedStep(fmt, args, k);
      AcceptedFrom(fmt, args, index, k + 1);
    } else {
      assert UpTo(d, k) == d;
    }
  }

  /**
   * The outcome of `parse`: a usage error for a bad index; otherwise an edit
   * command exactly when every given field passes its check and at least one
   * field is given, carrying the parsed index and a descriptor that overrides
   * exactly the given fields with their parsed last values.
   */
  lemma ParsedEditOutcome(fmt: Formats, args: ArgumentMultimap)
    ensures ParseIndex(args.GetPreamble()).Err? ==> ParsedEdit(fmt, args) == Err(InvalidCommandFormat(EditUsage))
    ensures ParsedEdit(fmt, args).Ok? <==>
              ParseIndex(args.GetPreamble()).Ok? && AllFieldsAccepted(fmt, args) && AnyFieldGiven(args)
    ensures ParsedEdit(fmt, args).Ok? ==>
              && ParseIndex(args.GetPreamble()) == Ok(ParsedEdit(fmt, args).value.index)
              && ParsedEdit(fmt, args).value.descriptor.IsAnyFieldEdited()
              && DescribesArguments(fmt, args, ParsedEdit(fmt, args).value.descriptor)
    ensures ParseIndex(args.GetPreamble()).Ok? && AllFieldsAccepted(fmt, args) && !AnyFieldGiven(args) ==>
              ParsedEdit(fmt, args) == Err(NotEdited)
  {
    var index := ParseIndex(args.GetPreamble());
    if index.Ok? {
      if AllFieldsAccepted(fmt, args) {
        AcceptedFrom(fmt, args, index.value, 0);
        DescribedDescribes(fmt, args);
        assert UpTo(Described(fmt, args), 0) == NO_EDITS;
      } else {
        var i :| i in EDIT_ORDER && !EditFieldAccepted(fmt, args, i);
        var j :| 0 <= j < |EDIT_ORDER| && EDIT_ORDER[j] == i;
        LaterRejectionFails(fmt, args, index.value, 0, NO_EDITS);
      }
    }
  }

  /** Two argument sets that agree on the index, on every prefix's last value and on the tag values parse alike. */
  lemma {:induction false} SameValuesSameEdit(
    fmt: Formats, a: ArgumentMultimap, b: ArgumentMultimap, index: Index, k: nat, d: EditModuleDescriptor)
    requires forall p :: a.GetValue(p) == b.GetValue(p)
    requires a.GetAllValues(PrefixTag) == b.GetAllValues(PrefixTag)
    requires k <= |EDIT_ORDER|
    ensures EditFrom(fmt, a, index, k, d) == EditFrom(fmt, b, index, k, d)
    decreases |EDIT_ORDER| - k
  {
    if k < |EDIT_ORDER| {
      assert ApplyEdit(fmt, a, EDIT_ORDER[k], d) == ApplyEdit(fmt, b, EDIT_ORDER[k], d);
      var next := ApplyEdit(fmt, a, EDIT_ORDER[k], d);
      if next.Ok? {
        SameValuesSameEdit(fmt, a, b, index, k + 1, next.value);
      }
    }
  }

  /** For a field other than tags only the last value is looked at: earlier values, valid or not, do not matter. */
  lemma OnlyLastValueChecked(fmt: Formats, args: ArgumentMultimap, p: Prefix, earlier: seq<string>, last: string)
    requires p != PrefixTag
    ensures ParsedEdit(fmt, args.With(p, earlier + [last])) == ParsedEdit(fmt, args.With(p, [last]))
  {
    var a, b := args.With(p, earlier + [last]), args.With(p, [last]);
    assert forall q :: a.GetValue(q) == b.GetValue(q);
    var index := ParseIndex(args.GetPreamble());
    if index.Ok? {
      SameValuesSameEdit(fmt, a, b, index.value, 0, NO_EDITS);
    }
  }

  /** An empty tag value next to other tag values is a tag error (when the tag rule rejects ""). */
  lemma EmptyTagAmongOthersRejected(fmt: Formats, tags: seq<string>)
    requires !fmt.tag("") && "" in tags && tags != [""]
    ensures ParseTagsForEdit(fmt, tags) == Err(Constraints(TagField))
  {
    var i :| 0 <= i < |tags| && tags[i] == "";
    assert Trim(tags[i]) == "";
  }

  /** The concrete cases: "1 t/" clears the tags; "1" edits nothing; "" is a usage error. */
  lemma ParseExamples(fmt: Formats)
    ensures ParsedEdit(fmt, ArgumentMultimap("1", map[PrefixTag := [""]]))
            == Ok(EditCommand(Index(0), NO_EDITS.(tags := Some({}))))
    ensures ParsedEdit(fmt, ArgumentMultimap("1", map[])) == Err(NotEdited)
    ensures ParsedEdit(fmt, ArgumentMultimap("", map[])) == Err(InvalidCommandFormat(EditUsage))
  {
    ParseIndexExamples();
    DecimalStringIsUnsigned(1);
    assert DecimalString(1) == "1";
    DigitsAreTrimmed("1");
  }
}
