/** Which error a refused character gives, by the place in the document where it stands. */
module JsonErrors {
  import opened JsonMachine
  import opened JsonGrammar
  import opened JsonPrefix
  import opened JsonSteps
  import opened JsonAgreement

  /** The error for a character that cannot stand at this place at all. */
  function ErrorAt(z: Prefix, c: int): Error {
    match z.here
    case Gap(_) =>
      (match z.spine
       case Root => if c in [0x5B, 0x5D, 0x7B, 0x7D] then E_UNBALANCED_COLLECTION else E_INVALID_CHAR
       case InArray(_, _, items) => if items == NoItems then E_UNBALANCED_COLLECTION else E_INVALID_CHAR
       case InKey(_, _, _) => E_EXPECTED_KEY
       case InValue(_, _, _, _, _, _) => E_INVALID_CHAR)
    case InString(_, _, tail) => if |tail| >= 2 then E_INVALID_UNICODE_SEQUENCE else E_INVALID_CHAR
    case InNumber(_, n) => if n.frac == Some([]) && n.exp.None? then E_INVALID_CHAR else E_INVALID_NUMBER
    case InWord(_, _, _) => E_INVALID_KEYWORD
    case AfterKey(_, _, _) => E_EXPECTED_COLON
    case AfterValue(_, _, _) => E_INVALID_CHAR
  }

  /** The table has no edge for this character: no class, or an error entry. */
  predicate Stray(s: State, c: int) {
    Classify(c).None? || Table(s, Classify(c).value).Err?
  }

  /** Such a character is refused with the error of its place, unless it stands behind a backslash. */
  lemma StrayIsNamed(cfg: Config, z: Prefix, before: State, c: int)
    requires WellFormedPrefix(cfg, z) && c >= 0 && Stray(StateOf(z, before).state, c)
    requires z.here.InString? ==> |z.here.tail| != 1
    ensures Step(cfg, StateOf(z, before), c) == Reject(ErrorAt(z, c))
  {
    hide Classify, Table, Perform, SetError, ErrorAt, StateOf;
    PlaceOfState(cfg, z, before, c);
    OnlyEscaped(z, before);
    var s := StateOf(z, before);
    assert Step(cfg, s, c) == Reject(SetError(s.state, c));
  }

  lemma OnlyEscaped(z: Prefix, before: State)
    ensures !StateOf(z, before).comment
    ensures StateOf(z, before).escaped <==> z.here.InString? && |z.here.tail| == 1
  {
  }

  lemma PlaceOfState(cfg: Config, z: Prefix, before: State, c: int)
    requires WellFormedPrefix(cfg, z)
    ensures SetError(StateOf(z, before).state, c) == ErrorAt(z, c)
  {
    hide SpineStack, SpineTrace, Payload, Text, NumberText, WordText, TailHigh, ReportedTrace, WellFormedSpine;
    match z.here
    case Gap(_) =>
    case InString(_, _, tail) =>
      assert |tail| <= 11;
      TailPlace(|tail|, c);
    case InNumber(_, n) => NumberPlace(n, c);
    case InWord(_, w, k) => WordPlace(w, k, c);
    case AfterKey(_, _, _) =>
    case AfterValue(_, _, _) =>
  }

  lemma TailPlace(n: nat, c: int)
    ensures SetError(StringState(n), c) == if n >= 2 then E_INVALID_UNICODE_SEQUENCE else E_INVALID_CHAR
  {
    assert n <= 10 ==> n == 0 || n == 1 || n == 2 || n == 3 || n == 4 || n == 5
                       || n == 6 || n == 7 || n == 8 || n == 9 || n == 10;
  }

  lemma NumberPlace(n: Number, c: int)
    ensures SetError(NumberState(n), c) ==
            if n.frac == Some([]) && n.exp.None? then E_INVALID_CHAR else E_INVALID_NUMBER
  {
  }

  lemma WordPlace(w: Word, k: nat, c: int)
    ensures SetError(WordState(w, k), c) == E_INVALID_KEYWORD
  {
  }

  /** Behind a backslash every printable character but the nine escapes is an invalid escape. */
  lemma BadEscapeIsNamed(cfg: Config, z: Prefix, before: State, c: int)
    requires WellFormedPrefix(cfg, z) && c >= 0 && Classify(c).Some?
    requires z.here.InString? && |z.here.tail| == 1
    ensures Step(cfg, StateOf(z, before), c) == Reject(E_INVALID_ESCAPE_SEQUENCE) <==>
            SimpleEscape(c).None? && c != 0x75
  {
    hide Step, Classify;
    var s := StateOf(z, before);
    assert s.buf[|s.buf| - 1] == BACKS;
    StepEscaped(cfg, s, c);
    if SimpleEscape(c).None? && c != 0x75 {
      StepBadEscape(cfg, s, c, Classify(c).value);
    }
  }

  /** A bracket behind a value that does not close the innermost container: the collection is unbalanced. */
  lemma WrongBracketIsNamed(cfg: Config, z: Prefix, before: State, c: int)
    requires WellFormedPrefix(cfg, z) && z.here.AfterValue? && (c == 0x5D || c == 0x7D)
    ensures Step(cfg, StateOf(z, before), c) == Reject(E_UNBALANCED_COLLECTION) <==>
            !(if c == 0x5D then z.spine.InArray? else z.spine.InValue?)
  {
    hide Step;
    StackShape(z.spine);
    StepClose(cfg, StateOf(z, before), c);
  }
}
