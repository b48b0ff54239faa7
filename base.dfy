/** Option and Result values used throughout the model in place of Python's None and exceptions. */
module Base {

  datatype Option<+T> = None | Some(value: T)

  datatype Result<+T, +E> = Ok(value: T) | Err(error: E)

  /** The contents of one log file as the program sees it: a file that cannot be opened, a file whose
      bytes are not text, or the sequence of its lines. Reading and decompression are outside the model. */
  datatype FileContent = Unreadable | Undecodable | Lines(lines: seq<string>)

  /** Rule matching (`re.search` of a rule's pattern against a line, optionally ignoring case) is left
      uninterpreted: the analyzers take it as a parameter. */
  type Matcher = (string, string, bool) -> bool

  /** One entry of a rule table: the message name (the dictionary key) and its pattern. */
  datatype Rule = Rule(name: string, pattern: string)

  /** Dictionary keys are unique, so a rule table never names a message twice. */
  ghost predicate DistinctNames(rules: seq<Rule>)
  {
    forall i, j :: 0 <= i < j < |rules| ==> rules[i].name != rules[j].name
  }
}
