/** Parsers without a nesting limit, and the nesting that the mode stack's array holds. */
module JsonDepth {
  import opened JsonMachine
  import opened JsonInvariant
  import opened JsonGrammar
  import opened JsonPrefix
  import opened JsonAgreement
  import opened JsonTheorems

  // ---------- Without a limit ----------

  /** new_JSON_parser turns every negative depth into -1. */
  function Unlimited(cfg: Config): Config {
    cfg.(depth := -1)
  }

  lemma PerformUnlimited(cfg: Config, s: PState, a: Action)
    requires |s.stack| <= cfg.depth
    ensures Perform(cfg, s, a) == Perform(Unlimited(cfg), s, a)
    ensures Perform(cfg, s, a).Accept? ==> |Perform(cfg, s, a).st.stack| <= |s.stack| + 1
  {
    hide DropLast, PendingEvent;
  }

  /** A limit that is not reached makes no difference, and one call pushes at most one mode. */
  lemma StepUnlimited(cfg: Config, s: PState, c: int)
    requires |s.stack| <= cfg.depth
    ensures Step(cfg, s, c) == Step(Unlimited(cfg), s, c)
    ensures Step(cfg, s, c).Accept? ==> |Step(cfg, s, c).st.stack| <= |s.stack| + 1
  {
    hide Table, Classify, SetError, Perform;
    if c >= 0 && Classify(c).Some? && AddChar(s, c, Classify(c).value).Accept? {
      var t := AddChar(s, c, Classify(c).value).st;
      if Table(t.state, Classify(c).value).Do? {
        PerformUnlimited(cfg, t, Table(t.state, Classify(c).value).action);
      }
    }
  }

  lemma {:induction false} RunUnlimited(cfg: Config, s: PState, input: seq<int>)
    requires |s.stack| + |input| <= cfg.depth + 1
    ensures Run(cfg, s, input) == Run(Unlimited(cfg), s, input)
    decreases |input|
  {
    hide Step;
    if input != [] {
      StepUnlimited(cfg, s, input[0]);
      if Step(cfg, s, input[0]).Accept? {
        RunUnlimited(cfg, Step(cfg, s, input[0]).st, input[1..]);
      }
    }
  }

  /** Without a limit and with comments off, the accepted texts are the blank ones and the texts of all documents. */
  lemma UnlimitedAcceptsExactly(cfg: Config, input: seq<int>)
    requires !cfg.allowComments
    ensures Accepts(Unlimited(cfg), input) <==>
            Blank(input) || exists d :: WellFormedDocument(d) && DocumentText(d) == input
  {
    hide WellFormedDocument, DocumentText, Run;
    var deep := cfg.(depth := |input| + 1);
    RunUnlimited(deep, INIT, input);
    AcceptsExactly(deep, input);
    if d :| WellFormedDocument(d) && DocumentText(d) == input {
      var deeper := cfg.(depth := |input| + 1 + Height(d.root));
      RunUnlimited(deeper, INIT, input);
      AcceptsExactly(deeper, input);
    }
  }

  /** The callback then sees exactly the document's trace. */
  lemma UnlimitedUndoesPrinter(cfg: Config, d: Document)
    requires WellFormedDocument(d)
    ensures Accepts(Unlimited(cfg), DocumentText(d))
    ensures Run(Unlimited(cfg), INIT, DocumentText(d)).st.events == Trace(d.root, [])
  {
    hide WellFormedDocument, DocumentText, Run;
    var deep := cfg.(depth := |DocumentText(d)| + 1 + Height(d.root));
    RunUnlimited(deep, INIT, DocumentText(d));
    ParserUndoesPrinter(deep, d);
  }

  // ---------- The array of modes ----------

  /** The elements of the array: 128 in the static one, otherwise as many as the depth. */
  function ArraySize(depth: int): nat {
    if depth <= 128 then 128 else depth
  }

  /** n opening brackets. */
  function Brackets(n: nat): seq<int> {
    if n == 0 then [] else Brackets(n - 1) + [LSQRB]
  }

  function Nest(n: nat): Spine {
    if n == 0 then Root else InArray(Nest(n - 1), [], NoItems)
  }

  lemma {:induction false} BracketsOpen(cfg: Config, n: nat)
    requires ValidConfig(cfg) && n <= cfg.depth
    ensures Depth(Nest(n)) == n && WellFormedPrefix(cfg, Prefix(Nest(n), Gap([])))
    ensures Run(cfg, INIT, Brackets(n)) == Accept(StateOf(Prefix(Nest(n), Gap([])), GO))
  {
    hide Step, Run;
    if n == 0 {
      StartState();
      assert Run(cfg, INIT, []) == Accept(INIT) by {
        BlankRun(cfg, []);
      }
    } else {
      BracketsOpen(cfg, n - 1);
      GapAccepts(cfg, Nest(n - 1), [], GO, LSQRB);
      RunConcat(cfg, INIT, Brackets(n - 1), [LSQRB]);
      RunOne(cfg, StateOf(Prefix(Nest(n - 1), Gap([])), GO), LSQRB);
    }
  }

  /** After this text one more mode is on the stack than its array holds, with every limit from 128 on and without. */
  lemma BracketsOverrun(cfg: Config, n: nat)
    requires cfg.depth >= 128 || cfg.depth == -1
    requires n == ArraySize(cfg.depth)
    ensures Run(cfg, INIT, Brackets(n)).Accept? && |Run(cfg, INIT, Brackets(n)).st.stack| == n + 1
  {
    hide Run, Step;
    StackShape(Nest(n));
    if cfg.depth >= 128 {
      BracketsOpen(cfg, n);
    } else {
      BracketsLength(n);
      var deep := cfg.(depth := n);
      RunUnlimited(deep, INIT, Brackets(n));
      BracketsOpen(deep, n);
    }
  }

  lemma {:induction false} BracketsLength(n: nat)
    ensures |Brackets(n)| == n
  {
    if n > 0 {
      BracketsLength(n - 1);
    }
  }

  /** All modes of all runs find room in the array if and only if the depth asked for is at most 127. */
  lemma ModesFitExactly(cfg: Config)
    requires cfg.depth >= 1 || cfg.depth == -1
    ensures (forall input :: Run(cfg, INIT, input).Accept? ==>
               |Run(cfg, INIT, input).st.stack| <= ArraySize(cfg.depth))
            <==> 1 <= cfg.depth <= 127
  {
    hide Run;
    if 1 <= cfg.depth <= 127 {
      forall input | Run(cfg, INIT, input).Accept?
        ensures |Run(cfg, INIT, input).st.stack| <= ArraySize(cfg.depth)
      {
        InitInv(cfg);
        ReachableInv(cfg, INIT, input);
      }
    } else {
      BracketsOverrun(cfg, ArraySize(cfg.depth));
    }
  }
}
