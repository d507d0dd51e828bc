/**
 * The tokenizer's output, which the command parsers consume: the preamble (the
 * text before the first prefix) and, for each prefix, the values that followed
 * its occurrences, in order of appearance. The tokenizer itself is not part of
 * this model.
 */
module Arguments {
  import opened Messages

  /** The prefix markers the two parsers recognise. */
  datatype Prefix =
    | PrefixName | PrefixResource | PrefixTimeSlot | PrefixVenue | PrefixTag
    | PrefixRemark | PrefixDeadline | PrefixTeacher | PrefixPhone | PrefixEmail | PrefixAddress

  datatype ArgumentMultimap = ArgumentMultimap(preamble: string, values: map<Prefix, seq<string>>)
  {
    function GetPreamble(): string { preamble }

    /** The value of a prefix is the last value given for it. */
    function GetValue(prefix: Prefix): (r: Option<string>)
      ensures r.Some? <==> GetAllValues(prefix) != []
      ensures r.Some? ==> r.value == GetAllValues(prefix)[|GetAllValues(prefix)| - 1]
    {
      if prefix in values && |values[prefix]| > 0 then Some(values[prefix][|values[prefix]| - 1]) else None
    }

    function GetAllValues(prefix: Prefix): seq<string>
    {
      if prefix in values then values[prefix] else []
    }

    /** The same arguments with the values of one prefix replaced. */
    function With(prefix: Prefix, given: seq<string>): (a: ArgumentMultimap)
      ensures a.GetAllValues(prefix) == given
      ensures forall p :: p != prefix ==> a.GetAllValues(p) == GetAllValues(p)
      ensures a.preamble == preamble
    {
      ArgumentMultimap(preamble, values[prefix := given])
    }
  }
}
