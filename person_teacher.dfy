/**
 * model/person/Teacher: a teacher named by free text, accepted when it matches
 * `[^\s].*`. Its constraint message speaks of alphabetic names, but the pattern
 * admits any text that starts with a non-space and stays on one line.
 */
module PersonTeacher {

  /** The characters `\s` stands for in a Java regular expression. */
  predicate IsRegexSpace(c: char)
  {
    c == ' ' || c == '\t' || c == '\n' || c == '\U{B}' || c == '\U{C}' || c == '\r'
  }

  /** The line terminators `.` does not match in a Java regular expression. */
  predicate IsLineTerminator(c: char)
  {
    c == '\n' || c == '\r' || c == '\U{85}' || c == '\U{2028}' || c == '\U{2029}'
  }

  /** `isValidTeacher`: a first character outside `\s`, then any characters but line terminators. */
  predicate IsValidTeacher(test: string)
  {
    |test| >= 1 && !IsRegexSpace(test[0]) && forall i :: 1 <= i < |test| ==> !IsLineTerminator(test[i])
  }

  datatype Teacher = Teacher(value: string)
  {
    function ToString(): (s: string)
      ensures s == value
    {
      value
    }

    /** `equals` as evidently intended: equal stored values. */
    predicate Equals(other: Teacher)
    {
      value == other.value
    }
  }

  /** The constructor: it demands a valid string and stores it unchanged. */
  function NewTeacher(teacher: string): (t: Teacher)
    requires IsValidTeacher(teacher)
    ensures t.ToString() == teacher
    ensures IsValidTeacher(t.value)
  {
    Teacher(teacher)
  }

  /** `toString` hands back a text the constructor accepts and that rebuilds the same teacher. */
  lemma ToStringRoundTrip(t: Teacher)
    requires IsValidTeacher(t.value)
    ensures IsValidTeacher(t.ToString()) && NewTeacher(t.ToString()) == t
  {
  }

  lemma EqualsIsValueEquality(a: Teacher, b: Teacher)
    ensures a.Equals(b) <==> a == b
  {
  }

  /**
   * Examples of the rule: a name with inner spaces and punctuation passes, as does
   * text that is not alphabetic; empty, leading-space and two-line text do not.
   */
  lemma TeacherRuleExamples()
    ensures IsValidTeacher("Prof. Z") && IsValidTeacher("Prof Damyth") && IsValidTeacher("123")
    ensures !IsValidTeacher("") && !IsValidTeacher(" Z") && !IsValidTeacher("Prof\nZ")
  {
    assert IsLineTerminator("Prof\nZ"[4]);
  }

  /** The source's Teacher as a heap object; its `equals` only recognises the same object. */
  class TeacherObject {
    const value: string

    constructor (teacher: string)
      requires IsValidTeacher(teacher)
      ensures value == teacher
    {
      value := teacher;
    }

    predicate EqualsAsWritten(other: TeacherObject?)
    {
      other == this
    }
  }

  /** Two teachers built from the same text are not equal under the source's `equals`. */
  method SameValueTeachersUnequal() returns (a: TeacherObject, b: TeacherObject)
    ensures a.value == b.value == "Prof. Z"
    ensures !a.EqualsAsWritten(b)
    ensures Teacher(a.value).Equals(Teacher(b.value))
  {
    a := new TeacherObject("Prof. Z");
    b := new TeacherObject("Prof. Z");
  }
}
