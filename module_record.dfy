/**
 * The module record the storage adapter converts to and from. Its class is not
 * part of this model: it is taken as a plain record of its eight field values,
 * and `ValidModule` states the field rules its constructors are expected to
 * enforce.
 */
module Modules {
  import opened FieldValues
  import ModuleTeacher

  datatype Module = Module(
    name: Name,
    resource: Resource,
    timeSlot: TimeSlot,
    venue: Venue,
    tags: set<Tag>,
    remark: Remark,
    deadline: Deadline,
    teacher: ModuleTeacher.Teacher)

  /** Every field of `m` satisfies its class's rule (a remark has none). */
  predicate ValidModule(fmt: Formats, m: Module)
  {
    && fmt.name(m.name.fullName)
    && fmt.resource(m.resource.value)
    && fmt.timeSlot(m.timeSlot.value)
    && IsValidVenue(m.venue.value)
    && (forall t :: t in m.tags ==> fmt.tag(t.tagName))
    && fmt.deadline(m.deadline.value)
    && ModuleTeacher.IsValidTeacher(m.teacher.value)
  }
}
