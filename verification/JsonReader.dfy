/** The tree reader keeps its tree well formed and loses no character. */
module JsonReader {
  import opened JsonMachine
  import opened JsonGrammar
  import opened JsonPrefix

  /** What one character may do to a prefix: it stays well formed and its text grows by that character. */
  ghost predicate Grows(cfg: Config, z: Prefix, z1: Prefix, c: int) {
    WellFormedPrefix(cfg, z1) && PrefixText(z1) == PrefixText(z) + [c]
  }

  lemma AppendAppend(a: seq<int>, b: seq<int>, c: int)
    ensures a + (b + [c]) == (a + b) + [c]
  {
  }

  lemma EmptyGrows(cfg: Config, sp: Spine, pre: seq<int>, c: int)
    requires WellFormedPrefix(cfg, Prefix(sp, Gap(pre)))
    requires if c == RSQRB then sp.InArray? && sp.items.NoItems? else c == RCURB && sp.InKey? && sp.members.NoMembers?
    ensures var v := if c == RSQRB then VEmptyArray(pre) else VEmptyObject(pre);
            Grows(cfg, Prefix(sp, Gap(pre)), Prefix(sp.up, AfterValue(sp.pre, v, [])), c)
  {
    var open := if c == RSQRB then LSQRB else LCURB;
    var up := SpineText(sp.up);
    assert SpineText(sp) == up + sp.pre + [open];
    assert up + (sp.pre + ([open] + pre + [c]) + []) == (up + sp.pre + [open]) + pre + [c];
  }

  lemma OpenGrows(cfg: Config, sp: Spine, pre: seq<int>, c: int)
    requires WellFormedPrefix(cfg, Prefix(sp, Gap(pre))) && Depth(sp) < cfg.depth && !sp.InKey?
    requires c == LSQRB || c == LCURB
    ensures var inner := if c == LSQRB then InArray(sp, pre, NoItems) else InKey(sp, pre, NoMembers);
            Grows(cfg, Prefix(sp, Gap(pre)), Prefix(inner, Gap([])), c)
  {
    assert SpineText(sp) + pre + [c] + [] + [] + [] == SpineText(sp) + pre + [c];
  }

  lemma GapGrows(cfg: Config, sp: Spine, pre: seq<int>, c: int)
    requires WellFormedPrefix(cfg, Prefix(sp, Gap(pre))) && ReadGap(cfg.depth, sp, pre, c).Some?
    ensures Grows(cfg, Prefix(sp, Gap(pre)), ReadGap(cfg.depth, sp, pre, c).value, c)
  {
    hide SpineText, WellFormedSpine;
    var z1 := ReadGap(cfg.depth, sp, pre, c).value;
    if z1.here.Gap? && z1.spine != sp {
      OpenGrows(cfg, sp, pre, c);
    } else if z1.here.AfterValue? {
      EmptyGrows(cfg, sp, pre, c);
    } else {
      AppendAppend(SpineText(sp), pre, c);
      assert HereText(z1.here) == pre + [c] by {
        match z1.here
        case InNumber(p, n) => assert NumberText(n) == [c];
        case InWord(p, w, k) => assert WordText(w)[..k] == [c];
        case _ =>
      }
    }
  }

  lemma StringGrows(cfg: Config, sp: Spine, pre: seq<int>, raw: seq<int>, tail: seq<int>, c: int)
    requires WellFormedPrefix(cfg, Prefix(sp, InString(pre, raw, tail))) && ReadString(sp, pre, raw, tail, c).Some?
    ensures Grows(cfg, Prefix(sp, InString(pre, raw, tail)), ReadString(sp, pre, raw, tail, c).value, c)
  {
    hide FirstPiece, EscapeTail;
    var z1 := ReadString(sp, pre, raw, tail, c).value;
    AppendAppend(SpineText(sp), pre + [QUOTE] + raw + tail, c);
    assert EscapeTail([]) && EscapeTail([BACKS]) && (IsPlain(c) ==> FirstPiece([c]) == Some((1, [c % 256]))) by {
      EscapeStarts(c);
    }
    match z1.here
    case AfterKey(p, key, post) => assert p + Quoted(key) + post == pre + [QUOTE] + raw + [] + [c];
    case AfterValue(p, v, post) => assert p + Quoted(raw) + post == pre + [QUOTE] + raw + [] + [c];
    case InString(p, raw1, tail1) =>
      assert p + [QUOTE] + raw1 + tail1 == pre + [QUOTE] + raw + tail + [c];
      if |tail| == 0 {
        if raw1 != raw { UnescapePiece(raw, [c]); }
      } else if FirstPiece(tail + [c]).Some? {
        PieceIsWhole(tail, c);
        UnescapePiece(raw, tail + [c]);
      }
    case _ =>
  }

  lemma EscapeStarts(c: int)
    ensures EscapeTail([]) && EscapeTail([BACKS]) && (IsPlain(c) ==> FirstPiece([c]) == Some((1, [c % 256])))
  {
  }

  /** Completing an unfinished escape leaves nothing over. */
  lemma PieceIsWhole(tail: seq<int>, c: int)
    requires EscapeTail(tail) && tail != [] && FirstPiece(tail + [c]).Some?
    ensures FirstPiece(tail + [c]).value.0 == |tail| + 1
  {
    var t := tail + [c];
    if |tail| >= 6 {
      assert t[2..6] == tail[2..6];
      assert |t[6..]| == |tail| - 5;
    }
  }

  lemma NumberTextExtends(n: Number, c: int)
    requires NumberShape(n) && ExtendNumber(n, c).Some?
    ensures NumberText(ExtendNumber(n, c).value) == NumberText(n) + [c]
    ensures NumberShape(ExtendNumber(n, c).value)
  {
    hide ExtendNumber, NumberText, NumberShape;
    if IsDigit(c) {
      DigitExtends(n, c);
    } else {
      MarkExtends(n, c);
    }
  }

  lemma DigitExtends(n: Number, c: int)
    requires NumberShape(n) && ExtendNumber(n, c).Some? && IsDigit(c)
    ensures NumberText(ExtendNumber(n, c).value) == NumberText(n) + [c]
    ensures NumberShape(ExtendNumber(n, c).value)
  {
    var m := ExtendNumber(n, c).value;
    var sign := if n.neg then [MINUS] else [];
    if n.exp.Some? {
      assert ExponentText(m.exp) == ExponentText(n.exp) + [c];
      AppendAppend(sign + n.whole + FractionText(n.frac), ExponentText(n.exp), c);
    } else if n.frac.Some? {
      assert FractionText(m.frac) == FractionText(n.frac) + [c];
      AppendAppend(sign + n.whole, FractionText(n.frac), c);
    } else {
      AppendAppend(sign, n.whole, c);
    }
  }

  lemma MarkExtends(n: Number, c: int)
    requires NumberShape(n) && ExtendNumber(n, c).Some? && !IsDigit(c)
    ensures NumberText(ExtendNumber(n, c).value) == NumberText(n) + [c]
    ensures NumberShape(ExtendNumber(n, c).value)
  {
    var m := ExtendNumber(n, c).value;
    var sign := if n.neg then [MINUS] else [];
    if c == POINT {
      assert FractionText(m.frac) == [c];
    } else if c == PLUS || c == MINUS {
      assert ExponentText(m.exp) == ExponentText(n.exp) + [c];
      AppendAppend(sign + n.whole + FractionText(n.frac), ExponentText(n.exp), c);
    } else {
      assert ExponentText(m.exp) == [c];
    }
  }

  lemma NumberGrows(cfg: Config, sp: Spine, pre: seq<int>, n: Number, c: int)
    requires WellFormedPrefix(cfg, Prefix(sp, InNumber(pre, n))) && ReadNumber(sp, pre, n, c).Some?
    ensures Grows(cfg, Prefix(sp, InNumber(pre, n)), ReadNumber(sp, pre, n, c).value, c)
  {
    hide NumberText, NumberShape, ExtendNumber;
    AppendAppend(SpineText(sp), pre + NumberText(n), c);
    if ExtendNumber(n, c).Some? {
      NumberTextExtends(n, c);
      AppendAppend(pre, NumberText(n), c);
    } else if IsBlankChar(c) && WellFormedNumber(n) {
      AppendAppend(pre, NumberText(n), c);
    } else {
      CloseGrows(cfg, sp, InNumber(pre, n), c);
    }
  }

  lemma WordGrows(cfg: Config, sp: Spine, pre: seq<int>, w: Word, k: nat, c: int)
    requires WellFormedPrefix(cfg, Prefix(sp, InWord(pre, w, k))) && ReadWord(sp, pre, w, k, c).Some?
    ensures Grows(cfg, Prefix(sp, InWord(pre, w, k)), ReadWord(sp, pre, w, k, c).value, c)
  {
    hide WordText;
    var t := WordText(w);
    assert t[..k + 1] == t[..k] + [c];
    AppendAppend(pre, t[..k], c);
    AppendAppend(SpineText(sp), pre + t[..k], c);
    if k + 1 == |t| {
      assert t[..k + 1] == t == Text(WordValue(w)) by { WordValueText(w); }
      assert pre + t + [] == pre + t;
    }
  }

  lemma WordValueText(w: Word)
    ensures Text(WordValue(w)) == WordText(w) && WellFormed(WordValue(w))
  {
  }

  /** A comma joins a finished item to the list before it. */
  lemma CommaText(head: seq<int>, list: seq<int>, sep: seq<int>, body: seq<int>, c: int)
    ensures head + ((list + sep) + body) + [c] + [] == (head + list + sep) + body + [c]
  {
  }

  /** A bracket makes the list a value of the container outside. */
  lemma BracketText(up: seq<int>, pre: seq<int>, open: int, list: seq<int>, body: seq<int>, c: int)
    ensures up + (pre + ([open] + (list + body) + [c]) + []) == (up + pre + [open]) + list + body + [c]
  {
  }

  lemma FinishedParts(sp: Spine, h: Here)
    requires WellFormedHere(sp, h) && Finished(h).Some?
    ensures var f := Finished(h).value;
            Blank(f.0) && WellFormed(f.1) && Blank(f.2) && HereText(h) == f.0 + Text(f.1) + f.2
  {
    hide NumberText, NumberShape;
    assert forall a: seq<int> :: a + [] == a;
  }

  lemma CloseKeepsForm(cfg: Config, sp: Spine, h: Here, c: int)
    requires WellFormedPrefix(cfg, Prefix(sp, h)) && Close(sp, h, c).Some?
    ensures WellFormedPrefix(cfg, Close(sp, h, c).value)
  {
    FinishedParts(sp, h);
    var f := Finished(h).value;
    match sp
    case InArray(_, _, items) => assert WellFormedItems(Items(items, f.0, f.1, f.2));
    case InValue(_, _, ms, kpre, key, kpost) => assert WellFormedMembers(Members(ms, kpre, key, kpost, f.0, f.1, f.2));
    case _ =>
  }

  lemma CloseArrayGrows(cfg: Config, sp: Spine, h: Here, c: int)
    requires WellFormedPrefix(cfg, Prefix(sp, h)) && WellFormedHere(sp, h) && Close(sp, h, c).Some? && sp.InArray?
    ensures Grows(cfg, Prefix(sp, h), Close(sp, h, c).value, c)
  {
    hide WellFormedPrefix;
    CloseKeepsForm(cfg, sp, h, c);
    FinishedParts(sp, h);
    var f := Finished(h).value;
    var body := f.0 + Text(f.1) + f.2;
    var more := Items(sp.items, f.0, f.1, f.2);
    ItemsGrow(sp.items, f.0, f.1, f.2);
    var list, sep := ItemsText(sp.items), Separator(sp.items.NoItems?);
    var head := SpineText(sp.up) + sp.pre + [LSQRB];
    AppendAppend(SpineText(sp), body, c);
    if c == COMMA {
      CommaText(head, list, sep, body, c);
    } else {
      BracketText(SpineText(sp.up), sp.pre, LSQRB, list + sep, body, c);
      assert head + (list + sep) == head + list + sep;
    }
  }

  lemma CloseObjectGrows(cfg: Config, sp: Spine, h: Here, c: int)
    requires WellFormedPrefix(cfg, Prefix(sp, h)) && WellFormedHere(sp, h) && Close(sp, h, c).Some? && sp.InValue?
    ensures Grows(cfg, Prefix(sp, h), Close(sp, h, c).value, c)
  {
    hide WellFormedPrefix, Quoted;
    CloseKeepsForm(cfg, sp, h, c);
    FinishedParts(sp, h);
    var f := Finished(h).value;
    var body := f.0 + Text(f.1) + f.2;
    var more := Members(sp.members, sp.kpre, sp.key, sp.kpost, f.0, f.1, f.2);
    var head := SpineText(sp.up) + sp.pre + [LCURB];
    MembersGrow(sp.members, sp.kpre, sp.key, sp.kpost, f.0, f.1, f.2);
    var list := MembersText(sp.members) + Separator(sp.members.NoMembers?) + sp.kpre + Quoted(sp.key) + sp.kpost + [COLON];
    AppendAppend(SpineText(sp), body, c);
    InValueText(sp);
    if c == COMMA {
      CommaText(head, list, [], body, c);
      assert list + [] == list && head + list + [] == head + list;
    } else {
      BracketText(SpineText(sp.up), sp.pre, LCURB, list, body, c);
    }
  }

  lemma InValueText(sp: Spine)
    requires sp.InValue?
    ensures SpineText(sp) == (SpineText(sp.up) + sp.pre + [LCURB]) +
      (MembersText(sp.members) + Separator(sp.members.NoMembers?) + sp.kpre + Quoted(sp.key) + sp.kpost + [COLON])
  {
  }

  /** A comma or closing bracket after a complete value. */
  lemma CloseGrows(cfg: Config, sp: Spine, h: Here, c: int)
    requires WellFormedPrefix(cfg, Prefix(sp, h)) && Close(sp, h, c).Some?
    ensures Grows(cfg, Prefix(sp, h), Close(sp, h, c).value, c)
  {
    hide Grows;
    if sp.InArray? {
      CloseArrayGrows(cfg, sp, h, c);
    } else {
      CloseObjectGrows(cfg, sp, h, c);
    }
  }

  lemma ItemsGrow(items: Items, pre: seq<int>, v: Value, post: seq<int>)
    ensures ItemsText(Items(items, pre, v, post)) ==
            (ItemsText(items) + Separator(items.NoItems?)) + (pre + Text(v) + post)
  {
  }

  lemma MembersGrow(ms: Members, kpre: seq<int>, key: seq<int>, kpost: seq<int>, pre: seq<int>, v: Value, post: seq<int>)
    ensures MembersText(Members(ms, kpre, key, kpost, pre, v, post)) ==
            (MembersText(ms) + Separator(ms.NoMembers?) + kpre + Quoted(key) + kpost + [COLON]) + (pre + Text(v) + post)
  {
    hide Quoted, Text, Separator;
    var head := MembersText(ms) + Separator(ms.NoMembers?) + kpre + Quoted(key) + kpost + [COLON];
    RegroupTail(head, pre, Text(v), post);
  }

  lemma RegroupTail(a: seq<int>, b: seq<int>, c: seq<int>, d: seq<int>)
    ensures a + b + c + d == a + (b + c + d)
  {
  }

  /** Every character the reader takes is in the text of the tree it builds, in order, and nothing else is. */
  lemma AdvanceGrows(cfg: Config, z: Prefix, c: int)
    requires WellFormedPrefix(cfg, z) && Advance(cfg.depth, z, c).Some?
    ensures Grows(cfg, z, Advance(cfg.depth, z, c).value, c)
  {
    hide ReadGap, ReadString, ReadNumber, ReadWord, Close, Grows, WellFormedPrefix;
    match z.here
    case Gap(pre) => GapGrows(cfg, z.spine, pre, c);
    case InString(pre, raw, tail) => StringGrows(cfg, z.spine, pre, raw, tail, c);
    case InNumber(pre, n) => NumberGrows(cfg, z.spine, pre, n, c);
    case InWord(pre, w, k) => WordGrows(cfg, z.spine, pre, w, k, c);
    case AfterKey(pre, key, post) => AfterKeyGrows(cfg, z.spine, pre, key, post, c);
    case AfterValue(pre, v, post) => AfterValueGrows(cfg, z.spine, pre, v, post, c);
  }

  lemma AfterKeyGrows(cfg: Config, sp: Spine, pre: seq<int>, key: seq<int>, post: seq<int>, c: int)
    requires WellFormedPrefix(cfg, Prefix(sp, AfterKey(pre, key, post)))
    requires Advance(cfg.depth, Prefix(sp, AfterKey(pre, key, post)), c).Some?
    ensures var z := Prefix(sp, AfterKey(pre, key, post)); Grows(cfg, z, Advance(cfg.depth, z, c).value, c)
  {
    var z1 := Advance(cfg.depth, Prefix(sp, AfterKey(pre, key, post)), c).value;
    AppendAppend(SpineText(sp), pre + Quoted(key) + post, c);
    if c == COLON {
      assert SpineText(z1.spine) + [] == SpineText(sp) + (pre + Quoted(key) + post + [COLON]);
    } else {
      AppendAppend(pre + Quoted(key), post, c);
    }
  }

  lemma AfterValueGrows(cfg: Config, sp: Spine, pre: seq<int>, v: Value, post: seq<int>, c: int)
    requires WellFormedPrefix(cfg, Prefix(sp, AfterValue(pre, v, post)))
    requires Advance(cfg.depth, Prefix(sp, AfterValue(pre, v, post)), c).Some?
    ensures var z := Prefix(sp, AfterValue(pre, v, post)); Grows(cfg, z, Advance(cfg.depth, z, c).value, c)
  {
    hide Close;
    if IsBlankChar(c) {
      AppendAppend(pre + Text(v), post, c);
      AppendAppend(SpineText(sp), pre + Text(v) + post, c);
    } else {
      CloseGrows(cfg, sp, AfterValue(pre, v, post), c);
    }
  }

  /** Reading a whole text gives a well-formed prefix whose text it is. */
  lemma {:induction false} AdvanceAllGrows(cfg: Config, z: Prefix, input: seq<int>)
    requires WellFormedPrefix(cfg, z) && AdvanceAll(cfg.depth, z, input).Some?
    ensures WellFormedPrefix(cfg, AdvanceAll(cfg.depth, z, input).value)
    ensures PrefixText(AdvanceAll(cfg.depth, z, input).value) == PrefixText(z) + input
    decreases |input|
  {
    hide Advance, PrefixText, WellFormedPrefix;
    if |input| == 0 {
      assert PrefixText(z) + input == PrefixText(z);
    } else {
      AdvanceGrows(cfg, z, input[0]);
      var z1 := Advance(cfg.depth, z, input[0]).value;
      AdvanceAllGrows(cfg, z1, input[1..]);
      assert PrefixText(z) + [input[0]] + input[1..] == PrefixText(z) + input;
    }
  }

  lemma {:induction false} AdvanceConcat(depth: int, z: Prefix, a: seq<int>, b: seq<int>)
    ensures AdvanceAll(depth, z, a + b) ==
            (match AdvanceAll(depth, z, a) case None => None case Some(z1) => AdvanceAll(depth, z1, b))
    decreases |a|
  {
    hide Advance;
    if |a| == 0 {
      assert a + b == b;
    } else {
      assert (a + b)[0] == a[0] && (a + b)[1..] == a[1..] + b;
      match Advance(depth, z, a[0])
      case None =>
      case Some(z1) => AdvanceConcat(depth, z1, a[1..], b);
    }
  }
}
