/** With comments on: which texts are accepted, as what, and when a keyword is cut short. */
module JsonCommentTheorems {
  import opened JsonMachine
  import opened JsonGrammar
  import opened JsonPrefix
  import opened JsonReader
  import opened JsonInvariant
  import opened JsonSteps
  import opened JsonComments
  import opened JsonTheorems
  import opened JsonCommentLanguage

  // ---------- Taking an accepted text apart ----------

  /** How far into a comment the text has got. */
  datatype Open = Outside | AfterSlash | InBody(body: seq<int>) | AtStar(body: seq<int>)

  function OpenText(o: Open): seq<int> {
    match o
    case Outside => []
    case AfterSlash => [SLASH]
    case InBody(body) => [SLASH, STAR] + body
    case AtStar(body) => [SLASH, STAR] + body + [STAR]
  }

  predicate OpenForm(o: Open) {
    match o
    case InBody(body) => CommentBody(body) && (body != [] ==> body[|body| - 1] != STAR)
    case AtStar(body) => CommentBody(body)
    case _ => true
  }

  /** The machine that far into a comment begun at b. */
  function Opened(b: PState, o: Open): PState {
    match o
    case Outside => b
    case AfterSlash => Slashed(b, C1)
    case InBody(_) => Slashed(b, C2)
    case AtStar(_) => Slashed(b, C3)
  }

  /**
   * input is the text of cm and an unfinished comment o behind it; z is what the reader makes of the plain
   * text of cm, b where the machine stood behind the text of cm.
   */
  ghost predicate Apart(cfg: Config, input: seq<int>, cm: Commented, o: Open, z: Prefix, b: PState) {
    && WellPlaced(cfg.depth, cm) && OpenForm(o) && InputText(cm) + OpenText(o) == input
    && AdvanceAll(cfg.depth, START, PlainText(cm)) == Some(z)
    && Run(cfg, INIT, InputText(cm)) == Accept(b) && Equivalent(StateOf(z, GO), b)
    && Run(cfg, INIT, input) == Accept(Opened(b, o))
    && (o != Outside ==> TakesComment(z))
  }

  function AddText(cm: Commented, c: int): Commented {
    match cm
    case Plain(text) => Plain(text + [c])
    case Then(start, cut, body, text) => Then(start, cut, body, text + [c])
  }

  lemma AddTextAdds(depth: int, cm: Commented, c: int)
    ensures InputText(AddText(cm, c)) == InputText(cm) + [c]
    ensures PlainText(AddText(cm, c)) == PlainText(cm) + [c]
    ensures WellPlaced(depth, AddText(cm, c)) <==> WellPlaced(depth, cm)
  {
    hide CommentText, CommentBody;
  }

  /** One more character outside a comment, no slash unless in a string. */
  lemma OutsideChar(cfg: Config, input: seq<int>, c: int, cm: Commented, z: Prefix, b: PState)
      returns (cm1: Commented, z1: Prefix, b1: PState)
    requires ValidConfig(cfg) && cfg.allowComments && Apart(cfg, input, cm, Outside, z, b)
    requires Inv(cfg, b) && Step(cfg, b, c).Accept? && (c != SLASH || z.here.InString?)
    ensures Apart(cfg, input + [c], cm1, Outside, z1, b1)
  {
    hide Step, Inv, Run, AdvanceAll, StateOf, WellFormedPrefix, Equivalent, WellPlaced, InputText, PlainText, Advance;
    assert InputText(cm) + [] == InputText(cm);
    PlainState(cfg, PlainText(cm));
    EquivalentStep(cfg, StateOf(z, GO), b, c);
    ReaderFollows(cfg, z, c);
    cm1, z1, b1 := AddText(cm, c), Advance(cfg.depth, z, c).value, Step(cfg, b, c).st;
    AddTextAdds(cfg.depth, cm, c);
    RunConcat(cfg, INIT, input, [c]);
    RunOne(cfg, b, c);
    AdvanceConcat(cfg.depth, START, PlainText(cm), [c]);
    OneAdvance(cfg.depth, z, c);
    assert InputText(cm1) + [] == InputText(cm1);
  }

  lemma OneAdvance(depth: int, z: Prefix, c: int)
    ensures AdvanceAll(depth, z, [c]) == Advance(depth, z, c)
  {
    hide Advance;
    assert [c][1..] == [];
    if Advance(depth, z, c).Some? {
      assert AdvanceAll(depth, Advance(depth, z, c).value, []) == Advance(depth, z, c);
    }
  }

  /** A slash outside strings: it can only begin a comment. */
  lemma OpeningSlash(cfg: Config, input: seq<int>, cm: Commented, z: Prefix, b: PState)
    requires ValidConfig(cfg) && cfg.allowComments && Apart(cfg, input, cm, Outside, z, b)
    requires Inv(cfg, b) && Step(cfg, b, SLASH).Accept? && !z.here.InString?
    ensures Apart(cfg, input + [SLASH], cm, AfterSlash, z, b)
  {
    hide Step, Inv, Run, AdvanceAll, StateOf, WellFormedPrefix, Equivalent, WellPlaced, InputText, PlainText,
      HasComments, Slashed, TakesComment;
    assert InputText(cm) + [] == InputText(cm);
    PlainState(cfg, PlainText(cm));
    PlacesAndStates(cfg, z, GO);
    EquivalentShape(StateOf(z, GO), b);
    NoStringState(z, GO);
    if !HasComments(b.state) {
      SlashRefused(cfg, b);
    }
    SlashOpens(cfg, b);
    RunConcat(cfg, INIT, input, [SLASH]);
    RunOne(cfg, b, SLASH);
  }

  lemma NoStringState(z: Prefix, before: State)
    requires !z.here.InString?
    ensures var s := StateOf(z, before).state; !InComment(s) && s != ST && s != ES
  {
    hide StateOf;
    StateIs(z, before);
  }

  /** The states inside a comment refuse everything else. */
  lemma InsideRefuses(cfg: Config, s: PState, c: int)
    requires Inv(cfg, s) && InComment(s.state) && Step(cfg, s, c).Accept?
    ensures c >= 0 && Classify(c).Some? && (s.state.C1? ==> c == STAR)
  {
    hide StepClass, AddChar, Perform, Classify;
    if c < 0 || Classify(c).None? {
      StepControl(cfg, s, c);
    } else if s.state.C1? && c != STAR {
      StarClass(c);
      assert Table(s.state, Classify(c).value) == Err;
      StepErr(cfg, s, c, Classify(c).value);
    }
  }

  function GoOn(o: Open, c: int): Open {
    match o
    case AfterSlash => InBody([])
    case InBody(body) => if c == STAR then AtStar(body) else InBody(body + [c])
    case AtStar(body) => if c == STAR then AtStar(body + [STAR]) else InBody(body + [STAR, c])
    case Outside => Outside
  }

  lemma GoOnForm(o: Open, c: int)
    requires o != Outside && OpenForm(o) && c >= 0 && Classify(c).Some?
    requires (o == AfterSlash ==> c == STAR) && (o.AtStar? ==> c != SLASH)
    ensures OpenForm(GoOn(o, c)) && OpenText(GoOn(o, c)) == OpenText(o) + [c]
  {
    hide Classify;
    ClassifyStar();
  }

  /** One more character inside a comment. */
  lemma InsideChar(cfg: Config, input: seq<int>, c: int, cm: Commented, o: Open, z: Prefix, b: PState)
    requires ValidConfig(cfg) && cfg.allowComments && Apart(cfg, input, cm, o, z, b) && o != Outside
    requires Inv(cfg, Opened(b, o)) && Step(cfg, Opened(b, o), c).Accept? && (o.AtStar? ==> c != SLASH)
    ensures Apart(cfg, input + [c], cm, GoOn(o, c), z, b)
  {
    hide Step, Inv, Run, AdvanceAll, StateOf, Equivalent, WellPlaced, InputText, PlainText, PendingEvent, TakesComment,
      Classify, OpenForm, OpenText;
    InsideRefuses(cfg, Opened(b, o), c);
    StepInComment(cfg, Opened(b, o), c);
    GoOnForm(o, c);
    RunConcat(cfg, INIT, input, [c]);
    RunOne(cfg, Opened(b, o), c);
    assert InputText(cm) + OpenText(o) + [c] == InputText(cm) + (OpenText(o) + [c]);
  }

  /** The end of a comment: it becomes part of the text. */
  lemma ClosingSlash(cfg: Config, input: seq<int>, cm: Commented, o: Open, z: Prefix, b: PState)
      returns (cm1: Commented, z1: Prefix, b1: PState)
    requires ValidConfig(cfg) && cfg.allowComments && Apart(cfg, input, cm, o, z, b) && o.AtStar?
    requires Inv(cfg, b)
    ensures Apart(cfg, input + [SLASH], cm1, Outside, z1, b1)
  {
    hide Step, Inv, Run, AdvanceAll, StateOf, Equivalent, TakesComment, WellFormedPrefix, Missing, CommentBody, Resumed;
    PlainState(cfg, PlainText(cm));
    var a := Joined(cfg, z, b, o.body);
    cm1, b1 := Then(cm, Missing(z), o.body, []), Resumed(b);
    var more := Missing(z) + [SPACE];
    assert InputText(cm1) == InputText(cm) + CommentText(o.body);
    assert input + [SLASH] == InputText(cm) + CommentText(o.body);
    assert PlainText(cm1) == PlainText(cm) + more;
    RunConcat(cfg, INIT, InputText(cm), CommentText(o.body));
    z1 := BlankIsRead(cfg, z, a);
    AdvanceConcat(cfg.depth, START, PlainText(cm), more);
    assert InputText(cm1) + [] == InputText(cm1);
  }

  /** The reader takes the blank, and the missing letter before it. */
  lemma BlankIsRead(cfg: Config, z: Prefix, a: PState) returns (z1: Prefix)
    requires ValidConfig(cfg) && WellFormedPrefix(cfg, z) && TakesComment(z)
    requires Run(cfg, StateOf(z, GO), Missing(z) + [SPACE]) == Accept(a)
    ensures AdvanceAll(cfg.depth, z, Missing(z) + [SPACE]) == Some(z1) && StateOf(z1, GO) == a
  {
    hide Run, StateOf, WellFormedPrefix, AdvanceAll;
    BlankTaken(cfg, z);
    RunAgrees(cfg, z, GO, Missing(z) + [SPACE]);
    z1 := AdvanceAll(cfg.depth, z, Missing(z) + [SPACE]).value;
  }

  lemma BlankTaken(cfg: Config, z: Prefix)
    requires WellFormedPrefix(cfg, z) && TakesComment(z)
    ensures AdvanceAll(cfg.depth, z, Missing(z) + [SPACE]).Some?
  {
    hide WellFormedSpine, AdvanceAll, ExtendNumber, Close;
    OneAdvance(cfg.depth, z, SPACE);
    assert [] + [SPACE] == [SPACE];
    match z.here
    case InWord(pre, w, k) =>
      var c := WordText(w)[k];
      assert Missing(z) == [c];
      AdvanceConcat(cfg.depth, z, [c], [SPACE]);
      OneAdvance(cfg.depth, z, c);
      OneAdvance(cfg.depth, Prefix(z.spine, AfterValue(pre, WordValue(w), [])), SPACE);
    case InNumber(_, n) => SpaceEndsNumber(n);
    case _ =>
  }

  lemma SpaceEndsNumber(n: Number)
    requires NumberShape(n) && TakesSlash(n)
    ensures WellFormedNumber(n) && ExtendNumber(n, SPACE).None?
  {
  }

  /** Every text the machine takes can be taken apart. */
  lemma {:induction false} TakeApart(cfg: Config, input: seq<int>)
      returns (cm: Commented, o: Open, z: Prefix, b: PState)
    requires ValidConfig(cfg) && cfg.allowComments && Run(cfg, INIT, input).Accept?
    ensures Apart(cfg, input, cm, o, z, b)
    decreases |input|
  {
    hide Step, Run, Inv, Apart, Opened, Equivalent;
    if input == [] {
      cm, o, z, b := Plain([]), Outside, START, INIT;
      NothingApart(cfg);
    } else {
      var front, c := input[..|input| - 1], input[|input| - 1];
      assert input == front + [c];
      RunConcat(cfg, INIT, front, [c]);
      cm, o, z, b := TakeApart(cfg, front);
      ApartStates(cfg, front, cm, o, z, b);
      RunOne(cfg, Opened(b, o), c);
      if o == Outside {
        if c == SLASH && !z.here.InString? {
          OpeningSlash(cfg, front, cm, z, b);
          o := AfterSlash;
        } else {
          cm, z, b := OutsideChar(cfg, front, c, cm, z, b);
        }
      } else if o.AtStar? && c == SLASH {
        cm, z, b := ClosingSlash(cfg, front, cm, o, z, b);
        o := Outside;
      } else {
        InsideChar(cfg, front, c, cm, o, z, b);
        o := GoOn(o, c);
      }
    }
  }

  lemma NothingApart(cfg: Config)
    requires ValidConfig(cfg)
    ensures Apart(cfg, [], Plain([]), Outside, START, INIT)
  {
    StartState();
    EquivalentSelf(INIT);
  }

  lemma ApartStates(cfg: Config, input: seq<int>, cm: Commented, o: Open, z: Prefix, b: PState)
    requires ValidConfig(cfg) && Apart(cfg, input, cm, o, z, b)
    ensures Inv(cfg, b) && Inv(cfg, Opened(b, o)) && Run(cfg, INIT, input) == Accept(Opened(b, o))
    ensures o == Outside ==> Opened(b, o) == b
  {
    hide Run, Inv, Equivalent, AdvanceAll, WellPlaced, StateOf;
    InitInv(cfg);
    ReachableInv(cfg, INIT, InputText(cm));
    ReachableInv(cfg, INIT, input);
  }

  // ---------- The language ----------

  /**
   * If the plain text is the beginning of a document, the text with its comments is accepted exactly when the plain
   * text is accepted without comments, and with the same events up to blanks behind numbers.
   */
  lemma CommentedIsPlain(cfg: Config, cm: Commented)
    requires ValidConfig(cfg) && cfg.allowComments && WellPlaced(cfg.depth, cm)
    requires AdvanceAll(cfg.depth, START, PlainText(cm)).Some?
    ensures Accepts(cfg, InputText(cm)) <==> Accepts(WithoutComments(cfg), PlainText(cm))
    ensures Accepts(cfg, InputText(cm)) ==>
              TrimmedAll(Run(cfg, INIT, InputText(cm)).st.events) ==
              TrimmedAll(Run(WithoutComments(cfg), INIT, PlainText(cm)).st.events)
  {
    hide Run, AdvanceAll, TrimmedAll, StateOf, Inv, Equivalent, WellFormedPrefix;
    PlainRun(cfg, cm);
    InitInv(cfg);
    PlainState(cfg, PlainText(cm));
    PlainState(WithoutComments(cfg), PlainText(cm));
    ReachableInv(cfg, INIT, InputText(cm));
    var z := AdvanceAll(cfg.depth, START, PlainText(cm)).value;
    FinishedAlike(cfg, StateOf(z, GO), Run(cfg, INIT, InputText(cm)).st);
  }

  lemma AcceptedIsRead(cfg: Config, plain: seq<int>)
    requires ValidConfig(cfg) && !cfg.allowComments && Accepts(cfg, plain)
    ensures AdvanceAll(cfg.depth, START, plain).Some?
  {
    hide Run, AdvanceAll, StateOf;
    StartState();
    RunAgrees(cfg, START, GO, plain);
  }

  /**
   * The exact language with comments on: the texts that come from an accepted comment-free text by putting
   * comments where the document so far takes one, each for a blank, or for the last letter of a keyword and a blank.
   */
  lemma AcceptsWithComments(cfg: Config, input: seq<int>)
    requires ValidConfig(cfg) && cfg.allowComments
    ensures Accepts(cfg, input) <==>
            exists cm :: WellPlaced(cfg.depth, cm) && InputText(cm) == input
                         && Accepts(WithoutComments(cfg), PlainText(cm))
  {
    hide Run, Equivalent, AdvanceAll, WellPlaced, StateOf;
    if Accepts(cfg, input) {
      var cm, o, z, b := TakeApart(cfg, input);
      CompleteIsOutside(cfg, input, cm, o, z, b);
      CommentedIsPlain(cfg, cm);
    }
    if cm :| WellPlaced(cfg.depth, cm) && InputText(cm) == input && Accepts(WithoutComments(cfg), PlainText(cm)) {
      AcceptedIsRead(WithoutComments(cfg), PlainText(cm));
      CommentedIsPlain(cfg, cm);
    }
  }

  lemma CompleteIsOutside(cfg: Config, input: seq<int>, cm: Commented, o: Open, z: Prefix, b: PState)
    requires Apart(cfg, input, cm, o, z, b) && Accepts(cfg, input)
    ensures o == Outside && InputText(cm) == input && WellPlaced(cfg.depth, cm)
    ensures AdvanceAll(cfg.depth, START, PlainText(cm)).Some?
  {
    hide Run, Equivalent, AdvanceAll, WellPlaced, StateOf, PendingEvent;
    assert InputText(cm) + [] == InputText(cm);
  }

  /**
   * What an accepted text says: apart from its comments it is blank, or the text of one document within the depth,
   * and the events are that document's trace, up to blanks behind numbers.
   */
  lemma AcceptedWithComments(cfg: Config, input: seq<int>) returns (cm: Commented, d: Document)
    requires ValidConfig(cfg) && cfg.allowComments && Accepts(cfg, input)
    ensures WellPlaced(cfg.depth, cm) && InputText(cm) == input
    ensures if Blank(PlainText(cm)) then TrimmedAll(Run(cfg, INIT, input).st.events) == []
            else && WellFormedDocument(d) && DocumentText(d) == PlainText(cm) && Height(d.root) <= cfg.depth
                 && TrimmedAll(Run(cfg, INIT, input).st.events) == TrimmedAll(Trace(d.root, []))
  {
    hide Run, WellPlaced, DocumentText, WellFormedDocument;
    AcceptsWithComments(cfg, input);
    cm :| WellPlaced(cfg.depth, cm) && InputText(cm) == input && Accepts(WithoutComments(cfg), PlainText(cm));
    AcceptedIsRead(WithoutComments(cfg), PlainText(cm));
    CommentedIsPlain(cfg, cm);
    d := AcceptedIsPrinted(WithoutComments(cfg), PlainText(cm));
  }

  /** Conversely every document with comments so placed is accepted as that document. */
  lemma CommentedDocument(cfg: Config, cm: Commented, d: Document)
    requires ValidConfig(cfg) && cfg.allowComments && WellPlaced(cfg.depth, cm)
    requires WellFormedDocument(d) && Height(d.root) <= cfg.depth && DocumentText(d) == PlainText(cm)
    ensures Accepts(cfg, InputText(cm))
    ensures TrimmedAll(Run(cfg, INIT, InputText(cm)).st.events) == TrimmedAll(Trace(d.root, []))
  {
    hide Run, WellPlaced, DocumentText, WellFormedDocument;
    ParserUndoesPrinter(WithoutComments(cfg), d);
    AcceptedIsRead(WithoutComments(cfg), PlainText(cm));
    CommentedIsPlain(cfg, cm);
  }

  /** A keyword is cut exactly where the slash finds the machine in T3, F4 or N3. */
  lemma CutExactlyInKeywords(cfg: Config, cm: Commented)
    requires ValidConfig(cfg) && cfg.allowComments && WellPlaced(cfg.depth, cm) && cm.Then?
    ensures Run(cfg, INIT, InputText(cm.start)).Accept?
    ensures cm.cut != [] <==> InKeyword(Run(cfg, INIT, InputText(cm.start)).st.state)
  {
    hide Run, AdvanceAll, StateOf, Inv, Equivalent, WellFormedPrefix, Missing, TakesComment, InKeyword;
    PlainRun(cfg, cm.start);
    PlainState(cfg, PlainText(cm.start));
    var z := AdvanceAll(cfg.depth, START, PlainText(cm.start)).value;
    PlacesAndStates(cfg, z, GO);
    EquivalentShape(StateOf(z, GO), Run(cfg, INIT, InputText(cm.start)).st);
  }

  /** The text [tru, a comment, and a closing bracket: accepted, and reported as an array with true in it. */
  lemma CutKeywordWitness(cfg: Config)
    requires ValidConfig(cfg) && cfg.allowComments
    ensures var text := [LSQRB, 0x74, 0x72, 0x75, SLASH, STAR, STAR, SLASH, RSQRB];
            Accepts(cfg, text) && TrimmedAll(Run(cfg, INIT, text).st.events) == [ArrayBegin, True, ArrayEnd]
  {
    hide Run, Accepts, AdvanceAll, DocumentText, Trace, WellFormedDocument, Height, TrimmedAll;
    var start := [LSQRB, 0x74, 0x72, 0x75];
    var z := Prefix(InArray(Root, [], NoItems), InWord([], WordTrue, 3));
    CutIsRead(cfg);
    var cm := Then(Plain(start), [0x65], [], [RSQRB]);
    var d := Document([], VArray(Items(NoItems, [], VTrue, [SPACE])), []);
    assert CommentText([]) == [SLASH, STAR, STAR, SLASH];
    assert InputText(cm) == [LSQRB, 0x74, 0x72, 0x75, SLASH, STAR, STAR, SLASH, RSQRB];
    assert PlainText(cm) == [LSQRB, 0x74, 0x72, 0x75, 0x65, SPACE, RSQRB];
    assert Missing(z) == [0x65];
    OneTrue(cfg, d);
    CommentedDocument(cfg, cm, d);
    TrimmedConcat([ArrayBegin] + [True], [ArrayEnd]);
    TrimmedConcat([ArrayBegin], [True]);
    TrimmedOne(ArrayBegin);
    TrimmedOne(True);
    TrimmedOne(ArrayEnd);
    assert TrimmedAll([ArrayBegin] + [True] + [ArrayEnd]) == [ArrayBegin] + [True] + [ArrayEnd];
  }

  lemma OneTrue(cfg: Config, d: Document)
    requires ValidConfig(cfg) && d == Document([], VArray(Items(NoItems, [], VTrue, [SPACE])), [])
    ensures WellFormedDocument(d) && Height(d.root) <= cfg.depth
    ensures DocumentText(d) == [LSQRB, 0x74, 0x72, 0x75, 0x65, SPACE, RSQRB]
    ensures Trace(d.root, []) == [ArrayBegin] + [True] + [ArrayEnd]
  {
    var items := d.root.items;
    assert ItemsText(items) == [0x74, 0x72, 0x75, 0x65, SPACE];
    assert ItemsTrace(items) == [True];
    assert ItemsHeight(NoItems) == 0 && ItemsHeight(items) == 0;
  }

  lemma CutIsRead(cfg: Config)
    requires ValidConfig(cfg)
    ensures AdvanceAll(cfg.depth, START, [LSQRB, 0x74, 0x72, 0x75]) ==
            Some(Prefix(InArray(Root, [], NoItems), InWord([], WordTrue, 3)))
  {
    hide AdvanceAll;
    var up := InArray(Root, [], NoItems);
    assert [LSQRB, 0x74, 0x72, 0x75] == [LSQRB] + ([0x74] + ([0x72] + [0x75]));
    OneAdvance(cfg.depth, START, LSQRB);
    OneAdvance(cfg.depth, Prefix(up, Gap([])), 0x74);
    OneAdvance(cfg.depth, Prefix(up, InWord([], WordTrue, 1)), 0x72);
    OneAdvance(cfg.depth, Prefix(up, InWord([], WordTrue, 2)), 0x75);
    AdvanceConcat(cfg.depth, START, [LSQRB], [0x74] + ([0x72] + [0x75]));
    AdvanceConcat(cfg.depth, Prefix(up, Gap([])), [0x74], [0x72] + [0x75]);
    AdvanceConcat(cfg.depth, Prefix(up, InWord([], WordTrue, 1)), [0x72], [0x75]);
  }
}
