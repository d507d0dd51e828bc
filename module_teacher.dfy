/**
 * model/module/Teacher: a teacher identified by a string of at least three
 * decimal digits. This is the Teacher the parsers, the storage adapter and
 * Lecture use.
 */
module ModuleTeacher {
  import opened JavaString

  /** `isValidTeacher`: the whole string matches `\d{3,}`. */
  predicate IsValidTeacher(test: string)
  {
    |test| >= 3 && AllDigits(test)
  }

  /** The value object, with equality by stored value (see `TeacherObject` for the source's equals). */
  datatype Teacher = Teacher(value: string)
  {
    function ToString(): (s: string)
      ensures s == value
    {
      value
    }

    /** `equals` as evidently intended: two teachers are equal when their values are. */
    predicate Equals(other: Teacher)
    {
      value == other.value
    }

    /** `hashCode` is the hash of the stored string. */
    function HashCode(): (h: int)
      ensures -0x8000_0000 <= h <= INT_MAX
    {
      StringHash(value)
    }
  }

  /** The constructor: it demands a valid string and stores it unchanged. */
  function NewTeacher(teacher: string): (t: Teacher)
    requires IsValidTeacher(teacher)
    ensures t.ToString() == teacher
    ensures IsValidTeacher(t.value)
  {
    Teacher(teacher)
  }

  /** Value equality is an equivalence, coincides with identity of the values, and agrees with the hash. */
  lemma EqualsIsValueEquality(a: Teacher, b: Teacher)
    ensures a.Equals(b) <==> a == b
    ensures a.Equals(a)
    ensures a.Equals(b) ==> b.Equals(a) && a.HashCode() == b.HashCode()
  {
  }

  /** A valid teacher string has no surrounding whitespace, so `trim` keeps it. */
  lemma ValidTeacherIsTrimmed(s: string)
    requires IsValidTeacher(s)
    ensures Trim(s) == s
  {
    DigitsAreTrimmed(s);
  }

  /** `toString` hands back a text the constructor accepts and that rebuilds the same teacher. */
  lemma ToStringRoundTrip(t: Teacher)
    requires IsValidTeacher(t.value)
    ensures IsValidTeacher(t.ToString()) && NewTeacher(t.ToString()) == t
  {
  }

  /** Examples of the rule: three digits pass; two digits, a name, or padding do not. */
  lemma TeacherRuleExamples()
    ensures IsValidTeacher("123") && IsValidTeacher("00000")
    ensures !IsValidTeacher("12") && !IsValidTeacher("") && !IsValidTeacher(" 123")
    ensures !IsValidTeacher("Prof Damyth")
  {
    assert !IsDigit(" 123"[0]);
    assert !IsDigit("Prof Damyth"[0]);
  }

  /**
   * The source's Teacher as a heap object. Its `equals` accepts the same object
   * or an instance of `Phone`; a Teacher is never a `Phone`, so only the identity
   * test is left.
   */
  class TeacherObject {
    const value: string

    constructor (teacher: string)
      requires IsValidTeacher(teacher)
      ensures value == teacher
    {
      value := teacher;
    }

    predicate EqualsAsWritten(other: TeacherObject?)
    {
      other == this
    }
  }

  /** Two teachers built from the same string are not equal under the source's `equals`. */
  method SameValueTeachersUnequal() returns (a: TeacherObject, b: TeacherObject)
    ensures a.value == b.value == "123"
    ensures !a.EqualsAsWritten(b)
    ensures Teacher(a.value).Equals(Teacher(b.value))
  {
    a := new TeacherObject("123");
    b := new TeacherObject("123");
  }
}
