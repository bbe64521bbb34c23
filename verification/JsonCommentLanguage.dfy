/** The language with comments on: documents with comments in them, and keywords that a comment cuts short. */
module JsonCommentLanguage {
  import opened JsonMachine
  import opened JsonGrammar
  import opened JsonPrefix
  import opened JsonReader
  import opened JsonSteps
  import opened JsonAgreement
  import opened JsonInvariant
  import opened JsonComments
  import opened JsonTheorems

  const SPACE := 0x20

  // ---------- Where a comment can begin ----------

  /** A number that a slash may follow: no exponent, and no point without a digit behind it. */
  predicate TakesSlash(n: Number) {
    n.exp.None? && n.whole != [] && n.frac != Some([])
  }

  /** Between two tokens, behind such a number, or before the last letter of a keyword. */
  predicate TakesComment(z: Prefix) {
    match z.here
    case Gap(_) => true
    case InString(_, _, _) => false
    case InNumber(_, n) => TakesSlash(n)
    case InWord(_, w, k) => k + 1 == |WordText(w)|
    case AfterKey(_, _, _) => true
    case AfterValue(_, _, _) => true
  }

  /** The letter that a comment stands for inside a keyword. */
  function Missing(z: Prefix): seq<int> {
    if z.here.InWord? && z.here.k < |WordText(z.here.w)| then WordText(z.here.w)[z.here.k..] else []
  }

  predicate InKeyword(s: State) {
    s.T3? || s.F4? || s.N3?
  }

  /** The automaton state of a prefix. */
  function StateName(z: Prefix): State {
    match z.here
    case Gap(_) => GapState(z.spine)
    case InString(_, _, tail) => StringState(|tail|)
    case InNumber(_, n) => NumberState(n)
    case InWord(_, w, k) => WordState(w, k)
    case AfterKey(_, _, _) => CO
    case AfterValue(_, _, _) => OK
  }

  lemma StateIs(z: Prefix, before: State)
    ensures StateOf(z, before).state == StateName(z)
  {
    hide SpineTrace, SpineStack, NumberText, NumberState, StringState, WordState, GapState, Payload, ValueType, Trace;
  }

  lemma PlacesAndStates(cfg: Config, z: Prefix, before: State)
    requires WellFormedPrefix(cfg, z)
    ensures HasComments(StateOf(z, before).state) <==> TakesComment(z)
    ensures TakesComment(z) ==> (Missing(z) != [] <==> InKeyword(StateOf(z, before).state))
  {
    hide StateOf, WellFormedSpine, NumberShape, NumberState, StringState, WordState, GapState, HasComments, TakesSlash,
      InKeyword, WordText, EscapeTail, FirstPiece;
    StateIs(z, before);
    GapPlaces(z.spine);
    match z.here
    case InString(_, _, tail) => StringPlaces(|tail|);
    case InNumber(_, n) => NumberPlaces(n);
    case InWord(_, w, k) => WordPlaces(w, k);
    case _ =>
  }

  lemma GapPlaces(sp: Spine)
    ensures HasComments(GapState(sp)) && !InKeyword(GapState(sp))
    ensures HasComments(CO) && HasComments(OK) && !InKeyword(CO) && !InKeyword(OK)
  {
  }

  lemma StringPlaces(n: nat)
    ensures !HasComments(StringState(n))
  {
  }

  lemma NumberPlaces(n: Number)
    requires NumberShape(n)
    ensures HasComments(NumberState(n)) <==> TakesSlash(n)
    ensures !InKeyword(NumberState(n))
  {
  }

  lemma WordPlaces(w: Word, k: nat)
    requires 1 <= k < |WordText(w)|
    ensures HasComments(WordState(w, k)) <==> k + 1 == |WordText(w)|
    ensures InKeyword(WordState(w, k)) <==> k + 1 == |WordText(w)|
    ensures WordText(w)[k..] != []
  {
  }

  // ---------- What the slash does ----------

  function ReturnState(s: State): State {
    if s.ZE? || s.IT? || s.FR? || InKeyword(s) then OK else s
  }

  /** The machine inside a comment that began at s. */
  function Slashed(s: PState, inside: State): PState {
    s.(events := s.events + PendingEvent(s.typ, s.buf), buf := [], before := ReturnState(s.state), typ := T_NONE,
       state := inside, comment := true)
  }

  /** The machine behind it. */
  function Resumed(s: PState): PState {
    s.(events := s.events + PendingEvent(s.typ, s.buf), buf := [], before := ReturnState(s.state), typ := T_NONE,
       state := ReturnState(s.state))
  }

  lemma AddedSlash(s: PState)
    requires !s.escaped && !s.comment
    ensures AddChar(s, SLASH, C_SLASH) == Accept(s.(buf := s.buf + [SLASH]))
  {
  }

  lemma LexemeBegins(cfg: Config, s: PState)
    requires cfg.allowComments && ValueMode(Top(s.stack)) && (s.state.ZE? || s.state.IT? || s.state.FR? || InKeyword(s.state))
    ensures BeginComment(cfg, s.(buf := s.buf + [SLASH])) == Accept(Slashed(s, C1))
  {
    hide PendingEvent;
    assert DropLast(s.buf + [SLASH]) == s.buf;
  }

  lemma LexemeMode(cfg: Config, s: PState)
    requires Inv(cfg, s) && (s.state.ZE? || s.state.IT? || s.state.FR? || InKeyword(s.state))
    ensures ValueMode(Top(s.stack)) && !s.escaped && !s.comment && Table(s.state, C_SLASH) == Do(CB)
  {
  }

  /** In every state with a slash edge: what is pending is reported, a cut keyword as if it were whole. */
  lemma SlashOpens(cfg: Config, s: PState)
    requires Inv(cfg, s) && cfg.allowComments && HasComments(s.state)
    ensures Step(cfg, s, SLASH) == Accept(Slashed(s, C1))
  {
    hide Step, StepClass, AddChar, BeginComment, Inv, Resumable;
    if s.state.ZE? || s.state.IT? || s.state.FR? || InKeyword(s.state) {
      LexemeMode(cfg, s);
      AddedSlash(s);
      LexemeBegins(cfg, s);
      StepIs(cfg, s, SLASH, C_SLASH, s.(buf := s.buf + [SLASH]), Do(CB));
    } else {
      BoundaryResumes(cfg, s);
      StepSlash(cfg, s);
    }
  }

  /** Outside strings and comments the other states refuse the slash, and so does a machine without comments. */
  lemma SlashRefused(cfg: Config, s: PState)
    requires Inv(cfg, s) && !InComment(s.state) && s.state != ST && s.state != ES
    requires !HasComments(s.state)
    ensures Step(cfg, s, SLASH).Reject?
  {
    hide Step, StepClass, AddChar, Perform;
    StepErr(cfg, s, SLASH, C_SLASH);
  }

  /** Directly behind a number a comment can begin exactly when TakesSlash says so; E3 and FX refuse it. */
  lemma SlashBehindNumber(cfg: Config, p: seq<int>, z: Prefix)
    requires ValidConfig(cfg) && cfg.allowComments
    requires AdvanceAll(cfg.depth, START, p) == Some(z) && z.here.InNumber?
    ensures Run(cfg, INIT, p + [SLASH]).Accept? <==> TakesSlash(z.here.n)
  {
    hide Step, Inv, Run, AdvanceAll, StateOf, HasComments, NumberState;
    PlainState(cfg, p);
    var s := StateOf(z, GO);
    PlacesAndStates(cfg, z, GO);
    RunConcat(cfg, INIT, p, [SLASH]);
    RunOne(cfg, s, SLASH);
    if TakesSlash(z.here.n) {
      SlashOpens(cfg, s);
    } else {
      NumberIsNoComment(z, GO);
      SlashRefused(cfg, s);
    }
  }

  lemma NumberIsNoComment(z: Prefix, before: State)
    requires z.here.InNumber?
    ensures var s := StateOf(z, before).state; !InComment(s) && s != ST && s != ES
  {
    hide StateOf;
    StateIs(z, before);
  }

  /** A text without comments leads the machine, comments on or off, to the state of the prefix the reader reads. */
  lemma PlainState(cfg: Config, p: seq<int>)
    requires ValidConfig(cfg) && AdvanceAll(cfg.depth, START, p).Some?
    ensures var z := AdvanceAll(cfg.depth, START, p).value;
            && WellFormedPrefix(cfg, z) && PrefixText(z) == p
            && Run(cfg, INIT, p) == Accept(StateOf(z, GO)) && Inv(cfg, StateOf(z, GO))
  {
    hide AdvanceAll, Run, StateOf, Inv;
    StartState();
    RunAgrees(cfg, START, GO, p);
    AdvanceAllGrows(cfg, START, p);
    assert [] + p == p;
    InitInv(cfg);
    ReachableInv(cfg, INIT, p);
  }

  // ---------- A comment is a blank ----------

  /** Equivalence is a preorder on states of the invariant. */
  lemma EquivalentChain(a: PState, b: PState, c: PState)
    requires Equivalent(a, b) && Equivalent(b, c) && a.comment == b.comment == c.comment
    ensures Equivalent(a, c)
  {
    hide TrimmedAll, PendingEvent;
    TrimmedConcat(a.events, PendingEvent(a.typ, a.buf));
    TrimmedConcat(b.events, PendingEvent(b.typ, b.buf));
  }

  lemma EquivalentSelf(a: PState)
    ensures Equivalent(a, a)
  {
  }

  /** Where nothing is pending, a comment leaves everything as it is. */
  lemma NothingPending(s: PState)
    requires s.typ.T_NONE? && s.buf == [] && ReturnState(s.state) == s.state && !s.comment
    ensures Equivalent(s, Resumed(s))
  {
    assert s.events + [] == s.events;
  }

  /** A pending scalar, with the letters and blanks it still gets, is what the comment has reported already. */
  lemma ScalarPending(s: PState, a: PState, more: seq<int>)
    requires Scalar(s.typ) && ReturnState(s.state) == OK && !s.comment
    requires a == s.(buf := s.buf + more + [SPACE], state := OK)
    requires more != [] ==> !s.typ.T_INTEGER? && !s.typ.T_FLOAT?
    ensures Equivalent(a, Resumed(s))
  {
    hide TrimmedAll;
    assert s.buf + [] == s.buf;
    BlankIsTrimmed(s.typ, s.buf + more, SPACE);
    TrimmedConcat(s.events, PendingEvent(a.typ, a.buf));
    TrimmedConcat(s.events, PendingEvent(s.typ, s.buf));
  }

  /** Behind a completed lexeme a blank keeps it pending. */
  lemma BlankAfter(cfg: Config, s: PState)
    requires EndsValue(s.state) && Scalar(s.typ) && !s.escaped && !s.comment
    ensures Run(cfg, s, [SPACE]) == Accept(s.(buf := s.buf + [SPACE], state := OK))
  {
    hide Step, Run;
    StepBlankPending(cfg, s, SPACE);
    RunOne(cfg, s, SPACE);
  }

  lemma LetterAndBlankAfter(cfg: Config, s: PState, c: int)
    requires Scalar(s.typ) && !s.escaped && !s.comment && LetterEdge(s.state, c, OK)
    ensures Run(cfg, s, [c] + [SPACE]) == Accept(s.(buf := s.buf + [c] + [SPACE], state := OK))
  {
    hide Step, Run;
    StepLetter(cfg, s, c, OK);
    RunOne(cfg, s, c);
    RunConcat(cfg, s, [c], [SPACE]);
    BlankAfter(cfg, s.(buf := s.buf + [c], state := OK));
  }

  lemma GapBlank(cfg: Config, s: PState)
    requires Idle(s)
    requires s.state.GO? || s.state.OK? || s.state.OB? || s.state.KE? || s.state.CO? || s.state.VA? || s.state.AR?
    ensures Run(cfg, s, [SPACE]) == Accept(s)
  {
    hide Step, Run;
    StepBlankIdle(cfg, s, SPACE);
    RunOne(cfg, s, SPACE);
  }

  lemma ValueComment(cfg: Config, z: Prefix, before: State) returns (a: PState)
    requires ValidConfig(cfg) && z.here.AfterValue?
    ensures Run(cfg, StateOf(z, before), [SPACE]) == Accept(a)
    ensures Equivalent(a, Resumed(StateOf(z, before)))
  {
    hide Run, Equivalent, SpineTrace, SpineStack, Text, ReportedTrace, Resumed;
    if ValueType(z.here.v).T_NONE? {
      a := GapCase(cfg, StateOf(z, before));
    } else {
      a := ScalarCase(cfg, StateOf(z, before));
    }
  }

  lemma NumberComment(cfg: Config, z: Prefix, before: State) returns (a: PState)
    requires ValidConfig(cfg) && z.here.InNumber? && NumberShape(z.here.n) && TakesSlash(z.here.n)
    ensures Run(cfg, StateOf(z, before), [SPACE]) == Accept(a)
    ensures Equivalent(a, Resumed(StateOf(z, before)))
  {
    hide Run, Equivalent, SpineTrace, SpineStack, NumberText, NumberState, NumberShape, TakesSlash, Resumed, NumberType;
    NumberCase(z.here.n);
    a := ScalarCase(cfg, StateOf(z, before));
  }

  lemma WordComment(cfg: Config, z: Prefix, before: State) returns (a: PState)
    requires ValidConfig(cfg) && z.here.InWord? && 1 <= z.here.k && z.here.k + 1 == |WordText(z.here.w)|
    ensures Run(cfg, StateOf(z, before), [WordText(z.here.w)[z.here.k]] + [SPACE]) == Accept(a)
    ensures Equivalent(a, Resumed(StateOf(z, before)))
  {
    hide Run, Equivalent, SpineTrace, SpineStack, WordState, Resumed, WordText;
    WordCase(z.here.w, z.here.k);
    a := WordCaseRun(cfg, StateOf(z, before), WordText(z.here.w)[z.here.k]);
  }

  lemma TokenComment(cfg: Config, z: Prefix, before: State) returns (a: PState)
    requires ValidConfig(cfg) && (z.here.Gap? || z.here.AfterKey?)
    ensures Run(cfg, StateOf(z, before), [SPACE]) == Accept(a)
    ensures Equivalent(a, Resumed(StateOf(z, before)))
  {
    hide Run, Equivalent, SpineTrace, SpineStack, Resumed;
    a := GapCase(cfg, StateOf(z, before));
  }

  /** Wherever a comment can stand, it does what a blank does there, after the missing letter of a keyword. */
  lemma CommentIsBlank(cfg: Config, z: Prefix, before: State) returns (a: PState)
    requires ValidConfig(cfg) && WellFormedPrefix(cfg, z) && TakesComment(z)
    ensures Run(cfg, StateOf(z, before), Missing(z) + [SPACE]) == Accept(a)
    ensures Equivalent(a, Resumed(StateOf(z, before)))
  {
    hide Run, Equivalent, WellFormedSpine, StateOf, NumberShape, TakesSlash, Resumed, WordText;
    assert [] + [SPACE] == [SPACE];
    match z.here
    case Gap(_) => a := TokenComment(cfg, z, before);
    case AfterKey(_, _, _) => a := TokenComment(cfg, z, before);
    case AfterValue(_, v, post) => a := ValueComment(cfg, z, before);
    case InNumber(_, n) => a := NumberComment(cfg, z, before);
    case InWord(_, w, k) =>
      a := WordComment(cfg, z, before);
      assert WordText(w)[k..] == [WordText(w)[k]];
  }

  lemma GapCase(cfg: Config, s: PState) returns (a: PState)
    requires Idle(s)
    requires s.state.GO? || s.state.OK? || s.state.OB? || s.state.KE? || s.state.CO? || s.state.VA? || s.state.AR?
    ensures Run(cfg, s, [SPACE]) == Accept(a) && Equivalent(a, Resumed(s))
  {
    GapBlank(cfg, s);
    NothingPending(s);
    a := s;
  }

  lemma ScalarCase(cfg: Config, s: PState) returns (a: PState)
    requires EndsValue(s.state) && Scalar(s.typ) && !s.escaped && !s.comment && ReturnState(s.state) == OK
    ensures Run(cfg, s, [SPACE]) == Accept(a) && Equivalent(a, Resumed(s))
  {
    BlankAfter(cfg, s);
    a := s.(buf := s.buf + [SPACE], state := OK);
    assert s.buf + [] == s.buf;
    ScalarPending(s, a, []);
  }

  lemma WordCaseRun(cfg: Config, s: PState, c: int) returns (a: PState)
    requires (s.typ.T_TRUE? || s.typ.T_FALSE? || s.typ.T_NULL?) && !s.escaped && !s.comment
    requires LetterEdge(s.state, c, OK) && InKeyword(s.state)
    ensures Run(cfg, s, [c] + [SPACE]) == Accept(a) && Equivalent(a, Resumed(s))
  {
    LetterAndBlankAfter(cfg, s, c);
    a := s.(buf := s.buf + [c] + [SPACE], state := OK);
    ScalarPending(s, a, [c]);
  }

  lemma NumberCase(n: Number)
    requires NumberShape(n) && TakesSlash(n)
    ensures EndsValue(NumberState(n)) && ReturnState(NumberState(n)) == OK && Scalar(NumberType(n))
  {
  }

  lemma WordCase(w: Word, k: nat)
    requires 1 <= k && k + 1 == |WordText(w)|
    ensures LetterEdge(WordState(w, k), WordText(w)[k], OK) && InKeyword(WordState(w, k))
  {
  }

  // ---------- Texts with comments in them ----------

  /** A text, or one with a comment and more text behind it; cut is the letter the comment stands for, if any. */
  datatype Commented = Plain(text: seq<int>) | Then(start: Commented, cut: seq<int>, body: seq<int>, text: seq<int>)

  /** What is fed to the parser. */
  function InputText(cm: Commented): seq<int> {
    match cm
    case Plain(text) => text
    case Then(start, _, body, text) => InputText(start) + CommentText(body) + text
  }

  /** The same without comments: each is a blank, and a keyword it cuts gets its last letter back. */
  function PlainText(cm: Commented): seq<int> {
    match cm
    case Plain(text) => text
    case Then(start, cut, _, text) => PlainText(start) + (cut + [SPACE]) + text
  }

  /** Every comment is one, and stands where the document read so far takes one. */
  predicate WellPlaced(depth: int, cm: Commented) {
    match cm
    case Plain(_) => true
    case Then(start, cut, body, _) =>
      && WellPlaced(depth, start) && CommentBody(body)
      && match AdvanceAll(depth, START, PlainText(start))
         case None => false
         case Some(z) => TakesComment(z) && cut == Missing(z)
  }

  function WithoutComments(cfg: Config): Config {
    cfg.(allowComments := false)
  }

  /** A comment from any state that takes one. */
  lemma CommentFrom(cfg: Config, s: PState, body: seq<int>)
    requires ValidConfig(cfg) && cfg.allowComments && Inv(cfg, s) && HasComments(s.state) && CommentBody(body)
    ensures Run(cfg, s, CommentText(body)) == Accept(Resumed(s))
  {
    hide Step, Inv, Classify, Run, PendingEvent, HasComments;
    var rest := body + [STAR, SLASH];
    SlashOpens(cfg, s);
    StepKeepsInv(cfg, s, SLASH);
    var t := Slashed(s, C1);
    ClassifyStar();
    StepInComment(cfg, t, STAR);
    StepKeepsInv(cfg, t, STAR);
    var u := Slashed(s, C2);
    BodyRun(cfg, u, body);
    assert CommentText(body) == [SLASH] + ([STAR] + rest);
    RunOne(cfg, s, SLASH);
    RunConcat(cfg, s, [SLASH], [STAR] + rest);
    RunOne(cfg, t, STAR);
    RunConcat(cfg, t, [STAR], rest);
    assert !s.comment by { NoCommentYet(cfg, s); }
  }

  lemma NoCommentYet(cfg: Config, s: PState)
    requires Inv(cfg, s) && HasComments(s.state)
    ensures !s.comment
  {
  }

  lemma EquivalentShape(a: PState, b: PState)
    requires Equivalent(a, b)
    ensures a.state == b.state && a.comment == b.comment && a.escaped == b.escaped && a.stack == b.stack
  {
  }

  /** The plain text and the text with the comment go on alike. */
  lemma Joined(cfg: Config, z: Prefix, b: PState, body: seq<int>) returns (a: PState)
    requires ValidConfig(cfg) && cfg.allowComments && CommentBody(body)
    requires WellFormedPrefix(cfg, z) && TakesComment(z)
    requires Inv(cfg, StateOf(z, GO)) && Inv(cfg, b) && Equivalent(StateOf(z, GO), b)
    ensures Run(cfg, StateOf(z, GO), Missing(z) + [SPACE]) == Accept(a)
    ensures Run(cfg, b, CommentText(body)) == Accept(Resumed(b))
    ensures Inv(cfg, a) && Inv(cfg, Resumed(b)) && Equivalent(a, Resumed(b))
  {
    hide Run, Inv, StateOf, WellFormedPrefix, TakesComment, Missing, Resumed, HasComments, CommentText, CommentBody,
      Equivalent;
    var s := StateOf(z, GO);
    PlacesAndStates(cfg, z, GO);
    EquivalentShape(s, b);
    a := CommentIsBlank(cfg, z, GO);
    CommentFrom(cfg, s, body);
    CommentFrom(cfg, b, body);
    EquivalentRun(cfg, s, b, CommentText(body));
    EquivalentShape(a, Resumed(s));
    EquivalentShape(Resumed(s), Resumed(b));
    EquivalentChain(a, Resumed(s), Resumed(b));
    ReachableInv(cfg, s, Missing(z) + [SPACE]);
    ReachableInv(cfg, b, CommentText(body));
  }

  /** Feeding the text with its comments is feeding the plain text. */
  lemma {:induction false} PlainRun(cfg: Config, cm: Commented)
    requires ValidConfig(cfg) && cfg.allowComments && WellPlaced(cfg.depth, cm)
    ensures match Run(cfg, INIT, PlainText(cm))
            case Reject(_) => Run(cfg, INIT, InputText(cm)).Reject?
            case Accept(a) =>
              Run(cfg, INIT, InputText(cm)).Accept? && Equivalent(a, Run(cfg, INIT, InputText(cm)).st)
    decreases cm
  {
    hide Run, Inv, StateOf, WellFormedPrefix, TakesComment, Missing, Resumed, CommentText, CommentBody, Equivalent,
      AdvanceAll;
    match cm
    case Plain(_) =>
      if Run(cfg, INIT, PlainText(cm)).Accept? {
        EquivalentSelf(Run(cfg, INIT, PlainText(cm)).st);
      }
    case Then(start, cut, body, text) =>
      PlainRun(cfg, start);
      var p, q := PlainText(start), InputText(start);
      PlainState(cfg, p);
      var z := AdvanceAll(cfg.depth, START, p).value;
      var b := Run(cfg, INIT, q).st;
      InitInv(cfg);
      ReachableInv(cfg, INIT, q);
      var a := Joined(cfg, z, b, body);
      RunConcat(cfg, INIT, p, cut + [SPACE]);
      RunConcat(cfg, INIT, p + (cut + [SPACE]), text);
      RunConcat(cfg, INIT, q, CommentText(body));
      RunConcat(cfg, INIT, q + CommentText(body), text);
      EquivalentRun(cfg, a, Resumed(b), text);
  }

  // ---------- Comments off ----------

  lemma SlashClass(c: int)
    requires c >= 0 && c != SLASH
    ensures Classify(c) != Some(C_SLASH)
  {
  }

  lemma OnlySlashBegins(s: State, k: Class)
    requires Table(s, k) == Do(CB)
    ensures k.C_SLASH?
  {
    hide Table;
    EdgeShape(s, k);
  }

  lemma PerformAlike(cfg: Config, s: PState, a: Action)
    requires !a.CB?
    ensures Perform(cfg, s, a) == Perform(WithoutComments(cfg), s, a)
  {
    hide DecodeUnicode, FinishString, CloseContainer, EmptyObjectAction;
  }

  /** Apart from the slash, comments on or off makes no difference to a step. */
  lemma StepAlike(cfg: Config, s: PState, c: int)
    requires c != SLASH
    ensures Step(cfg, s, c) == Step(WithoutComments(cfg), s, c)
  {
    hide Classify, Table, Perform, AddChar;
    if c >= 0 && Classify(c).Some? && AddChar(s, c, Classify(c).value).Accept? {
      SlashClass(c);
      var t, k := AddChar(s, c, Classify(c).value).st, Classify(c).value;
      if Table(t.state, k).Do? {
        if Table(t.state, k).action.CB? {
          OnlySlashBegins(t.state, k);
        }
        PerformAlike(cfg, t, Table(t.state, k).action);
      }
    }
  }

  /** What the machine takes outside comments, the reader takes. */
  lemma ReaderFollows(cfg: Config, z: Prefix, c: int)
    requires ValidConfig(cfg) && WellFormedPrefix(cfg, z) && (c != SLASH || z.here.InString?)
    requires Step(cfg, StateOf(z, GO), c).Accept?
    ensures Advance(cfg.depth, z, c).Some?
    ensures Step(cfg, StateOf(z, GO), c) == Accept(StateOf(Advance(cfg.depth, z, c).value, GO))
  {
    hide Step, StateOf, Advance, WellFormedPrefix;
    if c == SLASH {
      StepAgrees(cfg, z, GO, c);
    } else {
      WithoutCommentsToo(cfg, z);
      StepAlike(cfg, StateOf(z, GO), c);
      StepAgrees(WithoutComments(cfg), z, GO, c);
    }
  }

  lemma WithoutCommentsToo(cfg: Config, z: Prefix)
    requires ValidConfig(cfg) && WellFormedPrefix(cfg, z)
    ensures ValidConfig(WithoutComments(cfg)) && WellFormedPrefix(WithoutComments(cfg), z)
  {
  }
}
