/**
 * model/lecture/Professor: a professor identified by a string of at least
 * three decimal digits, the same rule as the module-package Teacher with its
 * own message.
 */
module LectureProfessor {
  import opened JavaString
  import ModuleTeacher

  /** `isValidProfessor`: the whole string matches `\d{3,}`. */
  predicate IsValidProfessor(test: string)
  {
    |test| >= 3 && AllDigits(test)
  }

  datatype Professor = Professor(value: string)
  {
    function ToString(): (s: string)
      ensures s == value
    {
      value
    }

    /** `equals` as evidently intended: equal stored values. */
    predicate Equals(other: Professor)
    {
      value == other.value
    }
  }

  /** The constructor: it demands a valid string and stores it unchanged. */
  function NewProfessor(professor: string): (p: Professor)
    requires IsValidProfessor(professor)
    ensures p.ToString() == professor
    ensures IsValidProfessor(p.value)
  {
    Professor(professor)
  }

  /** `toString` hands back a text the constructor accepts and that rebuilds the same professor. */
  lemma ToStringRoundTrip(p: Professor)
    requires IsValidProfessor(p.value)
    ensures IsValidProfessor(p.ToString()) && NewProfessor(p.ToString()) == p
  {
  }

  lemma EqualsIsValueEquality(a: Professor, b: Professor)
    ensures a.Equals(b) <==> a == b
  {
  }

  /** The professor rule and the module-package teacher rule accept the same strings. */
  lemma SameRuleAsModuleTeacher(s: string)
    ensures IsValidProfessor(s) <==> ModuleTeacher.IsValidTeacher(s)
  {
  }

  /** Examples of the rule. */
  lemma ProfessorRuleExamples()
    ensures IsValidProfessor("123") && !IsValidProfessor("12") && !IsValidProfessor("12a")
  {
    assert !IsDigit("12a"[2]);
  }

  /** The source's Professor as a heap object; its `equals` only recognises the same object. */
  class ProfessorObject {
    const value: string

    constructor (professor: string)
      requires IsValidProfessor(professor)
      ensures value == professor
    {
      value := professor;
    }

    predicate EqualsAsWritten(other: ProfessorObject?)
    {
      other == this
    }
  }

  /** Two professors built from the same string are not equal under the source's `equals`. */
  method SameValueProfessorsUnequal() returns (a: ProfessorObject, b: ProfessorObject)
    ensures a.value == b.value == "123"
    ensures !a.EqualsAsWritten(b)
    ensures Professor(a.value).Equals(Professor(b.value))
  {
    a := new ProfessorObject("123");
    b := new ProfessorObject("123");
  }
}
