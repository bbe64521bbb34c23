/** Comments change nothing: a comment at any token boundary leaves acceptance and the reported events as
    they were, up to the blanks that trail a number's text. */
module JsonComments {
  import opened JsonMachine
  import opened JsonGrammar
  import opened JsonSteps
  import opened JsonInvariant

  // ---------- Events up to trailing blanks ----------

  function TrimBlanks(t: seq<int>): seq<int> {
    if t != [] && IsBlankChar(t[|t| - 1]) then TrimBlanks(t[..|t| - 1]) else t
  }

  /** strtod and sscanf ignore the blanks after a number. */
  function Trimmed(e: Event): Event {
    match e
    case Integer(t) => Integer(TrimBlanks(t))
    case Float(t) => Float(TrimBlanks(t))
    case _ => e
  }

  function TrimmedAll(es: seq<Event>): seq<Event> {
    if es == [] then [] else TrimmedAll(es[..|es| - 1]) + [Trimmed(es[|es| - 1])]
  }

  lemma {:induction false} TrimmedConcat(a: seq<Event>, b: seq<Event>)
    ensures TrimmedAll(a + b) == TrimmedAll(a) + TrimmedAll(b)
    decreases |b|
  {
    if b == [] {
      assert a + b == a;
    } else {
      var c := b[..|b| - 1];
      assert (a + b)[..|a + b| - 1] == a + c;
      TrimmedConcat(a, c);
    }
  }

  lemma TrimmedOne(e: Event)
    ensures TrimmedAll([e]) == [Trimmed(e)]
  {
  }

  lemma BlankIsTrimmed(t: Type, buf: seq<int>, c: int)
    requires IsBlankChar(c)
    ensures TrimmedAll(PendingEvent(t, buf + [c])) == TrimmedAll(PendingEvent(t, buf)) || t.T_STRING?
  {
    assert (buf + [c])[..|buf|] == buf;
    assert TrimBlanks(buf + [c]) == TrimBlanks(buf);
    if t.T_INTEGER? || t.T_FLOAT? {
      TrimmedOne(PendingEvent(t, buf + [c])[0]);
      TrimmedOne(PendingEvent(t, buf)[0]);
    }
  }

  // ---------- What a step does not depend on ----------

  function WithEvents(o: Outcome, ev: seq<Event>): Outcome {
    match o
    case Reject(e) => Reject(e)
    case Accept(t) => Accept(t.(events := ev + t.events))
  }

  /** Actions only append events. */
  lemma PerformAppends(cfg: Config, s: PState, a: Action)
    ensures Perform(cfg, s, a) == WithEvents(Perform(cfg, s.(events := []), a), s.events)
  {
    hide DecodeUnicode, CloseContainer, OpenContainer, BeginComment, FinishString, NextElement, ColonAction,
      EmptyObjectAction;
    assert s.events + [] == s.events;
    match a
    case UC => UnitAppends(s);
    case CB => CommentAppends(cfg, s);
    case EmptyObject => EmptyAppends(s);
    case EndObject => CloseAppends(s, MODE_OBJECT, ObjectEnd);
    case EndArray => CloseAppends(s, MODE_ARRAY, ArrayEnd);
    case BeginObject => OpenAppends(cfg, s, MODE_KEY, ObjectBegin, OB);
    case BeginArray => OpenAppends(cfg, s, MODE_ARRAY, ArrayBegin, AR);
    case EndString => FinishAppends(s);
    case NextItem => NextAppends(cfg, s);
    case KeyDone => ColonAppends(cfg, s);
    case _ =>
  }

  lemma FlushAppends(s: PState)
    ensures Flush(DropChar(s)) ==
            Flush(DropChar(s.(events := []))).(events := s.events + Flush(DropChar(s.(events := []))).events)
  {
    var p := PendingEvent(s.typ, DropLast(s.buf));
    assert [] + p == p;
  }

  lemma CommentAppends(cfg: Config, s: PState)
    ensures BeginComment(cfg, s) == WithEvents(BeginComment(cfg, s.(events := [])), s.events)
  {
    hide Flush, DropChar;
    FlushAppends(s);
  }

  lemma EmptyAppends(s: PState)
    ensures EmptyObjectAction(s) == WithEvents(EmptyObjectAction(s.(events := [])), s.events)
  {
    assert [] + [ObjectEnd] == [ObjectEnd];
  }

  lemma CloseAppends(s: PState, m: Mode, e: Event)
    ensures CloseContainer(s, m, e) == WithEvents(CloseContainer(s.(events := []), m, e), s.events)
  {
    hide Flush, DropChar;
    FlushAppends(s);
    var p := Flush(DropChar(s.(events := []))).events;
    assert s.events + p + [e] == s.events + (p + [e]);
  }

  lemma OpenAppends(cfg: Config, s: PState, m: Mode, e: Event, next: State)
    ensures OpenContainer(cfg, s, m, e, next) == WithEvents(OpenContainer(cfg, s.(events := []), m, e, next), s.events)
  {
    assert [] + [e] == [e];
  }

  lemma FinishAppends(s: PState)
    ensures FinishString(s) == WithEvents(FinishString(s.(events := [])), s.events)
  {
    FlushAppends(s);
    assert [] + [Key(DropLast(s.buf))] == [Key(DropLast(s.buf))];
  }

  lemma NextAppends(cfg: Config, s: PState)
    ensures NextElement(cfg, s) == WithEvents(NextElement(cfg, s.(events := [])), s.events)
  {
    hide Flush, DropChar;
    FlushAppends(s);
  }

  lemma ColonAppends(cfg: Config, s: PState)
    ensures ColonAction(cfg, s) == WithEvents(ColonAction(cfg, s.(events := [])), s.events)
  {
    assert s.events + [] == s.events;
  }

  lemma UnitAppends(s: PState)
    ensures DecodeUnicode(s) ==
            match DecodeUnicode(s.(events := []))
            case None => None
            case Some(t) => Some(t.(events := s.events + t.events))
  {
    hide DecodeUnit, HexUnit;
    assert s.events + [] == s.events;
  }

  lemma StepAppends(cfg: Config, s: PState, c: int)
    ensures Step(cfg, s, c) == WithEvents(Step(cfg, s.(events := []), c), s.events)
  {
    hide Perform, Table, Classify;
    assert s.events + [] == s.events;
    if c >= 0 && Classify(c).Some? {
      var k := Classify(c).value;
      var z := s.(events := []);
      if AddChar(s, c, k).Accept? && Table(s.state, k).Do? {
        PerformAppends(cfg, AddChar(s, c, k).st, Table(s.state, k).action);
      }
    }
  }

  function WithBefore(o: Outcome, b: State): Outcome {
    match o
    case Reject(e) => Reject(e)
    case Accept(t) => Accept(if t.comment then t else t.(before := b))
  }

  /** Outside comments, the state saved by the last comment is never looked at. */
  lemma PerformForgets(cfg: Config, s: PState, b: State, a: Action)
    requires !a.CE? && !s.comment
    ensures Perform(cfg, s.(before := b), a) == WithBefore(Perform(cfg, s, a), b)
  {
    hide *;
    if a.UC? {
      UnitPerformForgets(cfg, s, b);
    } else if Structural(a) {
      StructureForgets(cfg, s, b, a);
    } else {
      ScalarForgets(cfg, s, b, a);
    }
  }

  predicate Structural(a: Action) {
    a.CB? || a.EmptyObject? || a.EndObject? || a.EndArray? || a.EndString? || a.NextItem? || a.KeyDone?
    || a.BeginObject? || a.BeginArray?
  }

  lemma UnitPerformForgets(cfg: Config, s: PState, b: State)
    requires !s.comment
    ensures Perform(cfg, s.(before := b), UC) == WithBefore(Perform(cfg, s, UC), b)
  {
    hide DecodeUnicode;
    UnitForgets(s, b);
  }

  lemma ScalarForgets(cfg: Config, s: PState, b: State, a: Action)
    requires !a.CE? && !a.UC? && !Structural(a) && !s.comment
    ensures Perform(cfg, s.(before := b), a) == WithBefore(Perform(cfg, s, a), b)
  {
    hide DecodeUnicode, CloseContainer, OpenContainer, BeginComment, FinishString, NextElement, ColonAction,
      EmptyObjectAction;
  }

  lemma StructureForgets(cfg: Config, s: PState, b: State, a: Action)
    requires Structural(a) && !s.comment
    ensures Perform(cfg, s.(before := b), a) == WithBefore(Perform(cfg, s, a), b)
  {
    hide DecodeUnicode, CloseContainer, OpenContainer, BeginComment, FinishString, NextElement, ColonAction,
      EmptyObjectAction, WithBefore;
    OpeningForgets(cfg, s, b, MODE_KEY, ObjectBegin, OB);
    OpeningForgets(cfg, s, b, MODE_ARRAY, ArrayBegin, AR);
    ContainerForgets(cfg, s, b);
    SeparatorForgets(cfg, s, b);
  }

  lemma OpeningForgets(cfg: Config, s: PState, b: State, m: Mode, e: Event, next: State)
    requires !s.comment
    ensures OpenContainer(cfg, s.(before := b), m, e, next) == WithBefore(OpenContainer(cfg, s, m, e, next), b)
  {
  }

  lemma ContainerForgets(cfg: Config, s: PState, b: State)
    requires !s.comment
    ensures BeginComment(cfg, s.(before := b)) == WithBefore(BeginComment(cfg, s), b)
    ensures EmptyObjectAction(s.(before := b)) == WithBefore(EmptyObjectAction(s), b)
    ensures CloseContainer(s.(before := b), MODE_OBJECT, ObjectEnd) ==
            WithBefore(CloseContainer(s, MODE_OBJECT, ObjectEnd), b)
    ensures CloseContainer(s.(before := b), MODE_ARRAY, ArrayEnd) ==
            WithBefore(CloseContainer(s, MODE_ARRAY, ArrayEnd), b)
  {
    hide PendingEvent;
  }

  lemma SeparatorForgets(cfg: Config, s: PState, b: State)
    requires !s.comment
    ensures FinishString(s.(before := b)) == WithBefore(FinishString(s), b)
    ensures NextElement(cfg, s.(before := b)) == WithBefore(NextElement(cfg, s), b)
    ensures ColonAction(cfg, s.(before := b)) == WithBefore(ColonAction(cfg, s), b)
  {
    hide PendingEvent;
  }

  lemma UnitForgets(s: PState, b: State)
    ensures DecodeUnicode(s.(before := b)) ==
            match DecodeUnicode(s)
            case None => None
            case Some(t) => Some(t.(before := b))
    ensures DecodeUnicode(s).Some? ==> DecodeUnicode(s).value.comment == s.comment
  {
    hide DecodeUnit, HexUnit;
  }

  lemma StepForgets(cfg: Config, s: PState, b: State, c: int)
    requires !s.comment && !InComment(s.state)
    ensures Step(cfg, s.(before := b), c) == WithBefore(Step(cfg, s, c), b)
  {
    hide Perform, Classify, Table, StartsFrom;
    if c >= 0 && Classify(c).Some? {
      var k := Classify(c).value;
      if AddChar(s, c, k).Accept? && Table(s.state, k).Do? {
        assert !Table(s.state, k).action.CE? by { NotCommentEnd(s.state, k); }
        PerformForgets(cfg, AddChar(s, c, k).st, b, Table(s.state, k).action);
      }
    }
  }

  lemma NotCommentEnd(s: State, k: Class)
    requires !InComment(s)
    ensures Table(s, k) != Do(CE)
  {
    hide Table;
    EdgeShape(s, k);
  }

  // ---------- The simulation ----------

  /** The same position, with the same value still being read. */
  predicate SameWork(a: PState, b: PState) {
    b == a.(events := b.events, before := b.before) && (a.comment ==> a.before == b.before)
    && TrimmedAll(a.events) == TrimmedAll(b.events)
  }

  /** The same position, but b has already reported the scalar that a still holds. */
  predicate Ahead(a: PState, b: PState) {
    a.state.OK? && Scalar(a.typ) && b == a.(typ := T_NONE, buf := [], events := b.events, before := b.before)
    && TrimmedAll(a.events + PendingEvent(a.typ, a.buf)) == TrimmedAll(b.events)
  }

  predicate Equivalent(a: PState, b: PState) {
    SameWork(a, b) || Ahead(a, b)
  }

  lemma SameWorkStep(cfg: Config, a: PState, b: PState, c: int)
    requires Inv(cfg, a) && Inv(cfg, b) && SameWork(a, b)
    ensures match Step(cfg, a, c)
            case Reject(_) => Step(cfg, b, c).Reject?
            case Accept(t) => Step(cfg, b, c).Accept? && SameWork(t, Step(cfg, b, c).st)
  {
    hide Step, Inv, TrimmedAll;
    assert a.comment <==> InComment(a.state) by { CommentFlag(cfg, a); }
    var z := a.(events := []);
    StepAppends(cfg, a, c);
    StepAppends(cfg, b, c);
    if !a.comment {
      StepForgets(cfg, z, b.before, c);
      assert b.(events := []) == z.(before := b.before);
    } else {
      assert b.(events := []) == z;
    }
    if Step(cfg, z, c).Accept? {
      var t := Step(cfg, z, c).st;
      TrimmedConcat(a.events, t.events);
      TrimmedConcat(b.events, t.events);
    }
  }

  lemma CommentFlag(cfg: Config, s: PState)
    requires Inv(cfg, s)
    ensures s.comment <==> InComment(s.state)
    ensures |s.stack| - 1 <= cfg.depth
    ensures s.state.OK? && Scalar(s.typ) ==> ValueMode(Top(s.stack)) && !s.escaped && !s.comment
  {
  }

  lemma AheadBlank(cfg: Config, a: PState, b: PState, c: int)
    requires Inv(cfg, a) && Inv(cfg, b) && Ahead(a, b) && IsBlankChar(c)
    ensures Step(cfg, a, c).Accept? && Step(cfg, b, c).Accept?
    ensures Ahead(Step(cfg, a, c).st, Step(cfg, b, c).st)
  {
    hide Step, Inv, TrimmedAll;
    CommentFlag(cfg, a);
    StepBlankPending(cfg, a, c);
    StepBlankIdle(cfg, b, c);
    BlankIsTrimmed(a.typ, a.buf, c);
    TrimmedConcat(a.events, PendingEvent(a.typ, a.buf));
    TrimmedConcat(a.events, PendingEvent(a.typ, a.buf + [c]));
  }

  lemma AheadDelimiter(cfg: Config, a: PState, b: PState, c: int)
    requires Inv(cfg, a) && Inv(cfg, b) && Ahead(a, b) && (c == COMMA || c == RSQRB || c == RCURB)
    ensures match Step(cfg, a, c)
            case Reject(_) => Step(cfg, b, c).Reject?
            case Accept(t) => Step(cfg, b, c).Accept? && SameWork(t, Step(cfg, b, c).st)
  {
    hide Step, Inv, TrimmedAll;
    CommentFlag(cfg, a);
    assert b.events + [] == b.events;
    if c == COMMA {
      StepComma(cfg, a);
      StepComma(cfg, b);
    } else {
      StepClose(cfg, a, c);
      StepClose(cfg, b, c);
      var e := [if c == RSQRB then ArrayEnd else ObjectEnd];
      TrimmedConcat(a.events + PendingEvent(a.typ, a.buf), e);
      TrimmedConcat(b.events, e);
    }
  }

  /** A slash reports what is pending and begins a comment. */
  lemma StepSlash(cfg: Config, s: PState)
    requires Inv(cfg, s) && Resumable(s.state, s.stack)
    ensures Step(cfg, s, SLASH) ==
            if !cfg.allowComments then Reject(E_NONE)
            else Accept(s.(events := s.events + PendingEvent(s.typ, s.buf), buf := [], before := s.state,
                           typ := T_NONE, state := C1, comment := true))
  {
    hide Step, StepClass, Inv, BeginComment, Table, AddChar, Resumable;
    var t := s.(buf := s.buf + [SLASH]);
    SlashIsAdded(cfg, s);
    SlashEdge(s);
    CommentBegins(cfg, s);
    StepIs(cfg, s, SLASH, C_SLASH, t, Do(CB));
  }

  lemma SlashIsAdded(cfg: Config, s: PState)
    requires Inv(cfg, s) && Resumable(s.state, s.stack)
    ensures AddChar(s, SLASH, C_SLASH) == Accept(s.(buf := s.buf + [SLASH]))
  {
    hide StackForm, StateForm, Bytes;
  }

  lemma SlashEdge(s: PState)
    requires Resumable(s.state, s.stack)
    ensures Table(s.state, C_SLASH) == Do(CB)
  {
  }

  lemma CommentBegins(cfg: Config, s: PState)
    requires Inv(cfg, s) && Resumable(s.state, s.stack)
    ensures BeginComment(cfg, s.(buf := s.buf + [SLASH])) ==
            if !cfg.allowComments then Reject(E_NONE)
            else Accept(s.(events := s.events + PendingEvent(s.typ, s.buf), buf := [], before := s.state,
                           typ := T_NONE, state := C1, comment := true))
  {
    hide Bytes, StackForm, PendingEvent;
    assert DropLast(s.buf + [SLASH]) == s.buf;
  }

  lemma AheadSlash(cfg: Config, a: PState, b: PState)
    requires Inv(cfg, a) && Inv(cfg, b) && Ahead(a, b)
    ensures match Step(cfg, a, SLASH)
            case Reject(_) => Step(cfg, b, SLASH).Reject?
            case Accept(t) => Step(cfg, b, SLASH).Accept? && SameWork(t, Step(cfg, b, SLASH).st)
  {
    hide Step, Inv, TrimmedAll;
    CommentFlag(cfg, a);
    StepSlash(cfg, a);
    StepSlash(cfg, b);
    assert b.events + [] == b.events;
  }

  lemma EquivalentStep(cfg: Config, a: PState, b: PState, c: int)
    requires Inv(cfg, a) && Inv(cfg, b) && Equivalent(a, b)
    ensures match Step(cfg, a, c)
            case Reject(_) => Step(cfg, b, c).Reject?
            case Accept(t) => Step(cfg, b, c).Accept? && Equivalent(t, Step(cfg, b, c).st)
  {
    hide Step, Inv, SameWork;
    if SameWork(a, b) {
      SameWorkStep(cfg, a, b, c);
    } else if IsBlankChar(c) {
      AheadBlank(cfg, a, b, c);
    } else if c == COMMA || c == RSQRB || c == RCURB {
      AheadDelimiter(cfg, a, b, c);
    } else if c == SLASH {
      AheadSlash(cfg, a, b);
    } else {
      CommentFlag(cfg, a);
      NothingElse(cfg, a, c);
      NothingElse(cfg, b, c);
    }
  }

  lemma NothingElse(cfg: Config, s: PState, c: int)
    requires s.state.OK? && !s.escaped
    requires !IsBlankChar(c) && c != COMMA && c != RSQRB && c != RCURB && c != SLASH
    ensures Step(cfg, s, c).Reject?
  {
    hide Step, StepClass, AddChar, Perform, Classify;
    if c < 0 || Classify(c).None? {
      StepControl(cfg, s, c);
    } else {
      ClassMeans(c);
      StepErr(cfg, s, c, Classify(c).value);
    }
  }

  lemma {:induction false} EquivalentRun(cfg: Config, a: PState, b: PState, input: seq<int>)
    requires ValidConfig(cfg) && Inv(cfg, a) && Inv(cfg, b) && Equivalent(a, b)
    ensures match Run(cfg, a, input)
            case Reject(_) => Run(cfg, b, input).Reject?
            case Accept(t) => Run(cfg, b, input).Accept? && Equivalent(t, Run(cfg, b, input).st)
                              && Inv(cfg, t) && Inv(cfg, Run(cfg, b, input).st)
    decreases |input|
  {
    hide Step, Inv, Equivalent;
    if input != [] {
      EquivalentStep(cfg, a, b, input[0]);
      if Step(cfg, a, input[0]).Accept? {
        StepKeepsInv(cfg, a, input[0]);
        StepKeepsInv(cfg, b, input[0]);
        EquivalentRun(cfg, Step(cfg, a, input[0]).st, Step(cfg, b, input[0]).st, input[1..]);
      }
    }
  }

  // ---------- Inside a comment ----------

  /** Characters a comment may hold: no stray control character, and no end of comment. */
  predicate CommentBody(body: seq<int>) {
    (forall i :: 0 <= i < |body| ==> body[i] >= 0 && Classify(body[i]).Some?)
    && (forall i :: 0 <= i < |body| - 1 ==> !(body[i] == STAR && body[i + 1] == SLASH))
  }

  function CommentText(body: seq<int>): seq<int> {
    [SLASH, STAR] + body + [STAR, SLASH]
  }

  lemma StepInComment(cfg: Config, s: PState, c: int)
    requires Inv(cfg, s) && InComment(s.state) && c >= 0 && Classify(c).Some?
    requires (s.state.C1? ==> c == STAR) && (s.state.C3? ==> c != SLASH)
    ensures Step(cfg, s, c) == Accept(s.(state := if c == STAR && !s.state.C1? then C3 else C2))
  {
    hide Step, StepClass, Perform, Classify;
    var k := Classify(c).value;
    StarClass(c);
    StepIs(cfg, s, c, k, s, To(if c == STAR && !s.state.C1? then C3 else C2));
  }

  lemma StarClass(c: int)
    requires c >= 0 && Classify(c).Some?
    ensures (Classify(c).value.C_STAR? <==> c == STAR) && (Classify(c).value.C_SLASH? <==> c == SLASH)
  {
  }

  lemma StepCommentEnd(cfg: Config, s: PState)
    requires Inv(cfg, s) && s.state.C3?
    ensures Step(cfg, s, SLASH) == Accept(s.(comment := false, state := s.before))
  {
    hide Step, StepClass;
    StepIs(cfg, s, SLASH, C_SLASH, s, Do(CE));
  }

  lemma {:induction false} BodyRun(cfg: Config, s: PState, body: seq<int>)
    requires ValidConfig(cfg) && Inv(cfg, s) && (s.state.C2? || s.state.C3?) && CommentBody(body)
    requires s.state.C3? && body != [] ==> body[0] != SLASH
    ensures Run(cfg, s, body + [STAR, SLASH]) == Accept(s.(comment := false, state := s.before))
    decreases |body|
  {
    hide Step, Inv, Classify;
    var rest := body + [STAR, SLASH];
    var c := rest[0];
    assert Classify(STAR) == Some(C_STAR) by { ClassifyStar(); }
    StepInComment(cfg, s, c);
    StepKeepsInv(cfg, s, c);
    var t := Step(cfg, s, c).st;
    if body == [] {
      assert rest[1..] == [SLASH];
      StepCommentEnd(cfg, t);
      RunOne(cfg, t, SLASH);
    } else {
      assert rest[1..] == body[1..] + [STAR, SLASH];
      BodyRun(cfg, t, body[1..]);
    }
  }

  lemma ClassifyStar()
    ensures Classify(STAR) == Some(C_STAR)
  {
  }

  /** A comment leads back to where it began; only a pending scalar has been reported meanwhile. */
  lemma CommentRun(cfg: Config, s: PState, body: seq<int>)
    requires ValidConfig(cfg) && cfg.allowComments && Inv(cfg, s) && Resumable(s.state, s.stack) && CommentBody(body)
    ensures Run(cfg, s, CommentText(body)) ==
            Accept(s.(events := s.events + PendingEvent(s.typ, s.buf), buf := [], before := s.state, typ := T_NONE))
  {
    hide Step, Inv, Classify, Run;
    var rest := body + [STAR, SLASH];
    StepSlash(cfg, s);
    StepKeepsInv(cfg, s, SLASH);
    var t := Step(cfg, s, SLASH).st;
    ClassifyStar();
    StepInComment(cfg, t, STAR);
    StepKeepsInv(cfg, t, STAR);
    var u := Step(cfg, t, STAR).st;
    BodyRun(cfg, u, body);
    assert CommentText(body) == [SLASH] + ([STAR] + rest);
    RunOne(cfg, s, SLASH);
    RunConcat(cfg, s, [SLASH], [STAR] + rest);
    RunOne(cfg, t, STAR);
    RunConcat(cfg, t, [STAR], rest);
    OutsideComment(cfg, s);
  }

  lemma OutsideComment(cfg: Config, s: PState)
    requires Inv(cfg, s) && Resumable(s.state, s.stack)
    ensures !s.comment && !s.escaped
  {
  }

  /** After p the machine is between two tokens. */
  predicate AtBoundary(cfg: Config, p: seq<int>) {
    match Run(cfg, INIT, p)
    case Reject(_) => false
    case Accept(t) =>
      t.state.GO? || t.state.OK? || t.state.OB? || t.state.KE? || t.state.CO? || t.state.VA? || t.state.AR?
  }

  /** A comment inserted at a token boundary changes neither the verdict on the text nor, up to the blanks
      after numbers, the events of an accepted text. */
  lemma CommentTransparency(cfg: Config, p: seq<int>, body: seq<int>, q: seq<int>)
    requires ValidConfig(cfg) && cfg.allowComments && CommentBody(body)
    ensures AtBoundary(cfg, p) ==> (Accepts(cfg, p + q) <==> Accepts(cfg, p + CommentText(body) + q))
    ensures AtBoundary(cfg, p) && Accepts(cfg, p + q) ==>
              TrimmedAll(Run(cfg, INIT, p + q).st.events) ==
              TrimmedAll(Run(cfg, INIT, p + CommentText(body) + q).st.events)
  {
    hide Step, Inv, Run, CommentText, Classify, TrimmedAll;
    if AtBoundary(cfg, p) {
      InitInv(cfg);
      ReachableInv(cfg, INIT, p);
      var s := Run(cfg, INIT, p).st;
      assert Resumable(s.state, s.stack) by { BoundaryResumes(cfg, s); }
      CommentRun(cfg, s, body);
      var t := Run(cfg, s, CommentText(body)).st;
      ReachableInv(cfg, s, CommentText(body));
      RunConcat(cfg, INIT, p, q);
      RunConcat(cfg, INIT, p, CommentText(body));
      RunConcat(cfg, INIT, p + CommentText(body), q);
      assert Equivalent(s, t) by { BoundaryResumes(cfg, s); OutsideComment(cfg, s); }
      EquivalentRun(cfg, s, t, q);
      if Run(cfg, s, q).Accept? {
        FinishedAlike(cfg, Run(cfg, s, q).st, Run(cfg, t, q).st);
      }
    }
  }

  lemma BoundaryResumes(cfg: Config, s: PState)
    requires Inv(cfg, s)
    requires s.state.GO? || s.state.OK? || s.state.OB? || s.state.KE? || s.state.CO? || s.state.VA? || s.state.AR?
    ensures Resumable(s.state, s.stack)
    ensures s.typ.T_NONE? ==> s.buf == [] && s.events + [] == s.events
    ensures s.typ.T_NONE? || (s.state.OK? && Scalar(s.typ))
  {
  }

  /** At the end of an accepted text nothing is pending any more. */
  lemma FinishedAlike(cfg: Config, a: PState, b: PState)
    requires Inv(cfg, a) && Inv(cfg, b) && Equivalent(a, b)
    ensures IsComplete(a) <==> IsComplete(b)
    ensures IsComplete(a) ==> TrimmedAll(a.events) == TrimmedAll(b.events)
  {
  }
}
