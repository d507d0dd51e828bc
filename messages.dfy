/**
 * Outcomes shared by the parsers and the storage adapter: the field kinds of a
 * module record, the messages a failed parse or conversion carries, and the
 * Option/Result wrappers the model uses in place of Java's null, Optional and
 * checked exceptions.
 */
module Messages {

  /** One kind per field value class; `MissingField` and `Constraints` name the class. */
  datatype Field =
    | NameField | ResourceField | TimeSlotField | VenueField | TagField
    | RemarkField | DeadlineField | TeacherField | ModuleNameField | TimeField

  /** The command whose usage text an invalid-format error quotes. */
  datatype Usage = EditUsage | AddLectureUsage

  /**
   * What a failure carries. Each constructor stands for one message constant of
   * the source (the text of most of them lives in classes outside this model).
   */
  datatype Message =
    | InvalidIndex                       // ParserUtil.MESSAGE_INVALID_INDEX
    | Constraints(field: Field)          // <field class>.MESSAGE_CONSTRAINTS
    | InvalidCommandFormat(usage: Usage) // MESSAGE_INVALID_COMMAND_FORMAT around a MESSAGE_USAGE
    | NotEdited                          // EditCommand.MESSAGE_NOT_EDITED
    | MissingField(field: Field)         // MISSING_FIELD_MESSAGE_FORMAT with the class name
    | NullPointer                        // an unchecked NullPointerException
    | IllegalArgument(field: Field)      // an unchecked IllegalArgumentException from a constructor

  datatype Option<T> = None | Some(value: T)

  /** A value, or the message of the first check that failed. */
  datatype Result<T> = Ok(value: T) | Err(error: Message)
  {
    predicate IsFailure() { Err? }

    function PropagateFailure<U>(): Result<U>
      requires Err?
    {
      Err(error)
    }

    function Extract(): T
      requires Ok?
    {
      value
    }
  }
}
