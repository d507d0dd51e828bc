/**
 * Lecture: an immutable record of a module name, a teacher, a time, a venue and
 * a set of tags. Two notions of sameness: `IsSameLecture` compares module names
 * only, `Equals` compares every field.
 */
module Lectures {
  import opened Messages
  import opened FieldValues
  import ModuleTeacher

  datatype Lecture = Lecture(
    moduleName: ModuleName,
    teacher: ModuleTeacher.Teacher,
    time: Time,
    venue: Venue,
    tags: set<Tag>)
  {
    /** The tags given at construction (the source hands out a read-only view of its copy). */
    function GetTags(): (r: set<Tag>)
      ensures r == tags
    {
      tags
    }

    /**
     * `isSameLecture`: the weak notion, true for the same lecture or one with an
     * equal module name; `None` stands for null.
     */
    predicate IsSameLecture(other: Option<Lecture>)
    {
      other == Some(this) || (other.Some? && other.value.moduleName == moduleName)
    }

    /**
     * `equals`: the strong notion, field by field; `None` stands for null or an
     * object that is not a Lecture. Teacher equality is the value equality of the
     * module Teacher.
     */
    predicate Equals(other: Option<Lecture>)
    {
      other == Some(this)
      || (&& other.Some?
          && other.value.moduleName == moduleName
          && other.value.teacher.Equals(teacher)
          && other.value.time == time
          && other.value.venue == venue
          && other.value.GetTags() == GetTags())
    }
  }

  /** The constructor: it stores the four values and a copy of the tag set. */
  function NewLecture(moduleName: ModuleName, teacher: ModuleTeacher.Teacher, time: Time, venue: Venue, tags: set<Tag>)
    : (l: Lecture)
    ensures l.moduleName == moduleName && l.teacher == teacher && l.time == time && l.venue == venue
    ensures l.GetTags() == tags
  {
    Lecture(moduleName, teacher, time, venue, tags)
  }

  /** `isSameLecture` holds exactly for a present lecture with an equal module name. */
  lemma IsSameLectureByModuleName(l: Lecture, other: Option<Lecture>)
    ensures l.IsSameLecture(other) <==> other.Some? && other.value.moduleName == l.moduleName
  {
  }

  /** `equals` holds exactly for a present lecture with the same five fields. */
  lemma EqualsIsValueEquality(l: Lecture, other: Option<Lecture>)
    ensures l.Equals(other) <==> other == Some(l)
  {
    if other.Some? && l.Equals(other) {
      ModuleTeacher.EqualsIsValueEquality(other.value.teacher, l.teacher);
    }
  }

  /** Both notions are equivalences on present lectures, and neither holds for null. */
  lemma SamenessIsEquivalence(a: Lecture, b: Lecture, c: Lecture)
    ensures a.IsSameLecture(Some(a)) && a.Equals(Some(a))
    ensures a.IsSameLecture(Some(b)) ==> b.IsSameLecture(Some(a))
    ensures a.IsSameLecture(Some(b)) && b.IsSameLecture(Some(c)) ==> a.IsSameLecture(Some(c))
    ensures a.Equals(Some(b)) ==> b.Equals(Some(a))
    ensures a.Equals(Some(b)) && b.Equals(Some(c)) ==> a.Equals(Some(c))
    ensures !a.IsSameLecture(None) && !a.Equals(None)
  {
    EqualsIsValueEquality(a, Some(b));
    EqualsIsValueEquality(b, Some(c));
    EqualsIsValueEquality(a, Some(c));
    EqualsIsValueEquality(b, Some(a));
  }

  /** The strong notion implies the weak one. */
  lemma EqualsImpliesSameLecture(l: Lecture, other: Option<Lecture>)
    ensures l.Equals(other) ==> l.IsSameLecture(other)
  {
    EqualsIsValueEquality(l, other);
  }

  /** The converse fails: the same module at another venue is the same lecture but not an equal one. */
  lemma SameLectureNotEqual(l: Lecture, otherVenue: Venue)
    requires otherVenue != l.venue
    ensures l.IsSameLecture(Some(l.(venue := otherVenue)))
    ensures !l.Equals(Some(l.(venue := otherVenue)))
  {
    EqualsIsValueEquality(l, Some(l.(venue := otherVenue)));
  }
}
