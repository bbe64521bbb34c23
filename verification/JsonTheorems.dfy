/** The flat machine and the grammar of trees: what is accepted, what is reported, and when. */
module JsonTheorems {
  import opened JsonMachine
  import opened JsonGrammar
  import opened JsonPrefix
  import opened JsonReader
  import opened JsonSteps
  import opened JsonAgreement
  import opened JsonPrinter

  /** From the state of any prefix, the machine takes what the reader takes and ends in the state of the
      prefix the reader ends at; without comments it takes nothing else. */
  lemma {:induction false} RunAgrees(cfg: Config, z: Prefix, before: State, input: seq<int>)
    requires ValidConfig(cfg) && WellFormedPrefix(cfg, z)
    ensures match AdvanceAll(cfg.depth, z, input)
            case Some(z1) => Run(cfg, StateOf(z, before), input) == Accept(StateOf(z1, before))
            case None => !cfg.allowComments ==> Run(cfg, StateOf(z, before), input).Reject?
    decreases |input|
  {
    hide Step, Advance, StateOf, WellFormedPrefix;
    if input != [] {
      StepAgrees(cfg, z, before, input[0]);
      match Advance(cfg.depth, z, input[0])
      case None =>
      case Some(z1) =>
        AdvanceGrows(cfg, z, input[0]);
        RunAgrees(cfg, z1, before, input[1..]);
    }
  }

  lemma StartState()
    ensures StateOf(START, GO) == INIT && PrefixText(START) == []
    ensures forall cfg: Config | ValidConfig(cfg) :: WellFormedPrefix(cfg, START)
  {
  }

  /** Safety over whole runs: after any calls that all returned true, the input is the text of a prefix of a
      document, and state, modes, type, escape, buffer and events are those that this prefix determines. */
  lemma EveryRunIsAPrefix(cfg: Config, input: seq<int>) returns (z: Prefix)
    requires ValidConfig(cfg) && !cfg.allowComments && Run(cfg, INIT, input).Accept?
    ensures WellFormedPrefix(cfg, z) && PrefixText(z) == input
    ensures Run(cfg, INIT, input) == Accept(StateOf(z, GO))
    ensures AdvanceAll(cfg.depth, START, input) == Some(z)
  {
    StartState();
    RunAgrees(cfg, START, GO, input);
    z := AdvanceAll(cfg.depth, START, input).value;
    AdvanceAllGrows(cfg, START, input);
    assert [] + input == input;
  }

  // ---------- Heights ----------

  predicate SpineFits(depth: int, sp: Spine) {
    match sp
    case Root => true
    case InArray(up, _, items) => SpineFits(depth, up) && Depth(up) + 1 + ItemsHeight(items) <= depth
    case InKey(up, _, ms) => SpineFits(depth, up) && Depth(up) + 1 + MembersHeight(ms) <= depth
    case InValue(up, _, ms, _, _, _) => SpineFits(depth, up) && Depth(up) + 1 + MembersHeight(ms) <= depth
  }

  /** Nothing in the prefix is nested deeper than the limit. */
  predicate FitsDepth(depth: int, z: Prefix) {
    SpineFits(depth, z.spine) && (z.here.AfterValue? ==> Depth(z.spine) + Height(z.here.v) <= depth)
  }

  lemma CloseFits(depth: int, sp: Spine, h: Here, c: int)
    requires FitsDepth(depth, Prefix(sp, h)) && Depth(sp) <= depth && Close(sp, h, c).Some?
    ensures FitsDepth(depth, Close(sp, h, c).value)
  {
    hide WellFormedNumber;
    var f := Finished(h).value;
    match sp
    case InArray(_, _, items) =>
      assert ItemsHeight(Items(items, f.0, f.1, f.2)) == Max(ItemsHeight(items), Height(f.1));
    case InValue(_, _, ms, kpre, key, kpost) =>
      assert MembersHeight(Members(ms, kpre, key, kpost, f.0, f.1, f.2)) == Max(MembersHeight(ms), Height(f.1));
    case _ =>
  }

  lemma AdvanceFits(depth: int, z: Prefix, c: int)
    requires FitsDepth(depth, z) && Depth(z.spine) <= depth && Advance(depth, z, c).Some?
    ensures FitsDepth(depth, Advance(depth, z, c).value)
  {
    hide FirstPiece, EscapeTail, WellFormedNumber, ExtendNumber, Close;
    match z.here
    case InNumber(pre, n) => if Close(z.spine, z.here, c).Some? { CloseFits(depth, z.spine, z.here, c); }
    case AfterValue(pre, v, post) => if Close(z.spine, z.here, c).Some? { CloseFits(depth, z.spine, z.here, c); }
    case InWord(pre, w, k) => assert Height(WordValue(w)) == 0;
    case _ =>
  }

  lemma {:induction false} AdvanceAllFits(cfg: Config, z: Prefix, input: seq<int>)
    requires WellFormedPrefix(cfg, z) && FitsDepth(cfg.depth, z) && AdvanceAll(cfg.depth, z, input).Some?
    ensures FitsDepth(cfg.depth, AdvanceAll(cfg.depth, z, input).value)
    decreases |input|
  {
    hide Advance;
    if input != [] {
      AdvanceFits(cfg.depth, z, input[0]);
      AdvanceGrows(cfg, z, input[0]);
      AdvanceAllFits(cfg, Advance(cfg.depth, z, input[0]).value, input[1..]);
    }
  }

  // ---------- Acceptance ----------

  lemma DocumentState(d: Document, before: State)
    requires WellFormedDocument(d)
    ensures var s := StateOf(Prefix(Root, AfterValue(d.pre, d.root, d.post)), before);
            IsComplete(s) && s.events == Trace(d.root, [])
  {
    assert [] + Trace(d.root, []) == Trace(d.root, []);
  }

  /** The parser undoes the printer: every printed document within the depth is accepted, with comments on or
      off, and the callback sees exactly the document's trace. */
  lemma ParserUndoesPrinter(cfg: Config, d: Document)
    requires ValidConfig(cfg) && WellFormedDocument(d) && Height(d.root) <= cfg.depth
    ensures Accepts(cfg, DocumentText(d))
    ensures Run(cfg, INIT, DocumentText(d)).st.events == Trace(d.root, [])
  {
    hide AdvanceAll, StateOf, Run, DocumentText;
    StartState();
    ReadDocument(cfg.depth, d);
    RunAgrees(cfg, START, GO, DocumentText(d));
    DocumentState(d, GO);
  }

  lemma BlankRun(cfg: Config, input: seq<int>)
    requires ValidConfig(cfg) && Blank(input)
    ensures Run(cfg, INIT, input) == Accept(INIT) && Accepts(cfg, input)
  {
    hide Run;
    StartState();
    ReadGapBlank(cfg.depth, Root, [], input);
    RunAgrees(cfg, START, GO, input);
  }

  /** With comments off, an accepted text is blank and reports nothing, or it is the text of one complete
      document within the depth and reports that document's trace. */
  lemma AcceptedIsPrinted(cfg: Config, input: seq<int>) returns (d: Document)
    requires ValidConfig(cfg) && !cfg.allowComments && Accepts(cfg, input)
    ensures if Blank(input) then Run(cfg, INIT, input).st.events == []
            else WellFormedDocument(d) && DocumentText(d) == input && Height(d.root) <= cfg.depth
                 && Run(cfg, INIT, input).st.events == Trace(d.root, [])
  {
    hide Run, AdvanceAll;
    StartState();
    var z := EveryRunIsAPrefix(cfg, input);
    AdvanceAllFits(cfg, START, input);
    CompletePrefix(z, GO);
    match z.here
    case AfterValue(pre, v, post) =>
      d := Document(pre, v, post);
      assert PrefixText(z) == [] + DocumentText(d) == DocumentText(d);
      DocumentState(d, GO);
      NotBlank(d);
    case Gap(pre) =>
      assert PrefixText(z) == [] + pre == pre;
      d := Document([], VNull, []);
    case _ =>
  }

  lemma NotBlank(d: Document)
    requires WellFormedDocument(d)
    ensures !Blank(DocumentText(d))
  {
    hide ItemsText, MembersText;
    assert Text(d.root)[0] == LSQRB || Text(d.root)[0] == LCURB;
    assert DocumentText(d)[|d.pre|] == Text(d.root)[0];
  }

  lemma CompletePrefix(z: Prefix, before: State)
    requires WellFormedHere(z.spine, z.here) && IsComplete(StateOf(z, before))
    ensures z.spine.Root? && (z.here.Gap? || z.here.AfterValue?)
  {
    hide SpineTrace, NumberText, Payload, ItemsTrace, MembersTrace;
    StackShape(z.spine);
  }

  /** The grammar is unambiguous: a text is the text of at most one document. */
  lemma UniqueReading(d1: Document, d2: Document)
    requires WellFormedDocument(d1) && WellFormedDocument(d2) && DocumentText(d1) == DocumentText(d2)
    ensures d1 == d2
  {
    hide AdvanceAll;
    var depth := Max(Height(d1.root), Height(d2.root));
    ReadDocument(depth, d1);
    ReadDocument(depth, d2);
  }

  /** With comments off, the accepted texts are the blank ones and the texts of documents within the depth. */
  lemma AcceptsExactly(cfg: Config, input: seq<int>)
    requires ValidConfig(cfg) && !cfg.allowComments
    ensures Accepts(cfg, input) <==>
            Blank(input)
            || exists d :: WellFormedDocument(d) && Height(d.root) <= cfg.depth && DocumentText(d) == input
  {
    hide Accepts, WellFormedDocument, DocumentText;
    if Accepts(cfg, input) {
      var d := AcceptedIsPrinted(cfg, input);
    }
    if Blank(input) {
      BlankRun(cfg, input);
    }
    if d :| WellFormedDocument(d) && Height(d.root) <= cfg.depth && DocumentText(d) == input {
      ParserUndoesPrinter(cfg, d);
    }
  }

  /** A document is refused for its nesting exactly when more than depth of its containers are open at once. */
  lemma DepthIsExact(cfg: Config, d: Document)
    requires ValidConfig(cfg) && !cfg.allowComments && WellFormedDocument(d)
    ensures Accepts(cfg, DocumentText(d)) <==> Height(d.root) <= cfg.depth
  {
    hide Accepts, DocumentText;
    if Height(d.root) <= cfg.depth {
      ParserUndoesPrinter(cfg, d);
    }
    if Accepts(cfg, DocumentText(d)) {
      NotBlank(d);
      var d1 := AcceptedIsPrinted(cfg, DocumentText(d));
      UniqueReading(d, d1);
    }
  }

  /** The refusal happens at the opening bracket itself: it is refused exactly when depth containers are
      already open, and with the error for the nesting depth. */
  lemma OpeningIsRefusedAtDepth(cfg: Config, z: Prefix, before: State, c: int)
    requires ValidConfig(cfg) && WellFormedPrefix(cfg, z) && z.here.Gap? && !z.spine.InKey?
    requires c == LSQRB || c == LCURB
    ensures Step(cfg, StateOf(z, before), c) == Reject(E_NESTING_DEPTH_REACHED) <==> Depth(z.spine) == cfg.depth
    ensures Depth(z.spine) < cfg.depth ==> Step(cfg, StateOf(z, before), c).Accept?
  {
    hide Step;
    StackShape(z.spine);
    StepOpen(cfg, StateOf(z, before), c);
  }
}
