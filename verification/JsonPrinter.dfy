/** The reader takes everything the printer prints, and gives back the tree it was printed from. */
module JsonPrinter {
  import opened JsonMachine
  import opened JsonGrammar
  import opened JsonPrefix
  import opened JsonReader

  lemma AdvanceOne(depth: int, z: Prefix, c: int)
    ensures AdvanceAll(depth, z, [c]) == Advance(depth, z, c)
  {
    hide Advance;
    match Advance(depth, z, c)
    case None =>
    case Some(z1) => assert AdvanceAll(depth, z1, []) == Some(z1);
  }

  /** Reading the first character and then the rest. */
  lemma AdvanceCons(depth: int, z: Prefix, c: int, rest: seq<int>)
    ensures AdvanceAll(depth, z, [c] + rest) ==
            match Advance(depth, z, c) case None => None case Some(z1) => AdvanceAll(depth, z1, rest)
  {
    hide Advance;
    AdvanceOne(depth, z, c);
    AdvanceConcat(depth, z, [c], rest);
  }

  lemma {:induction false} ReadGapBlank(depth: int, sp: Spine, pre: seq<int>, b: seq<int>)
    requires Blank(b)
    ensures AdvanceAll(depth, Prefix(sp, Gap(pre)), b) == Some(Prefix(sp, Gap(pre + b)))
    decreases |b|
  {
    if b == [] {
      assert pre + b == pre;
    } else {
      ReadGapBlank(depth, sp, pre + [b[0]], b[1..]);
      assert pre + [b[0]] + b[1..] == pre + b;
    }
  }

  lemma {:induction false} ReadKeyBlank(depth: int, sp: Spine, pre: seq<int>, key: seq<int>, post: seq<int>, b: seq<int>)
    requires Blank(b)
    ensures AdvanceAll(depth, Prefix(sp, AfterKey(pre, key, post)), b) == Some(Prefix(sp, AfterKey(pre, key, post + b)))
    decreases |b|
  {
    if b == [] {
      assert post + b == post;
    } else {
      ReadKeyBlank(depth, sp, pre, key, post + [b[0]], b[1..]);
      assert post + [b[0]] + b[1..] == post + b;
    }
  }

  lemma {:induction false} ReadValueBlank(depth: int, sp: Spine, pre: seq<int>, v: Value, post: seq<int>, b: seq<int>)
    requires Blank(b)
    ensures AdvanceAll(depth, Prefix(sp, AfterValue(pre, v, post)), b) == Some(Prefix(sp, AfterValue(pre, v, post + b)))
    decreases |b|
  {
    hide Close;
    if b == [] {
      assert post + b == post;
    } else {
      ReadValueBlank(depth, sp, pre, v, post + [b[0]], b[1..]);
      assert post + [b[0]] + b[1..] == post + b;
    }
  }

  // ---------- Strings ----------

  /** The proper beginnings of an escape are unfinished escapes. */
  lemma PieceTails(raw: seq<int>, i: int)
    requires FirstPiece(raw).Some? && 1 <= i < FirstPiece(raw).value.0
    ensures EscapeTail(raw[..i]) && FirstPiece(raw[..i]).None?
  {
    var t := raw[..i];
    if i >= 6 {
      assert t[2..6] == raw[2..6];
    } else if i > 2 {
      assert t[2..i] == raw[2..6][..i - 2];
    }
    if i > 6 {
      assert raw[6..][2..6] == raw[8..12];
      assert i > 8 ==> t[8..] == raw[8..12][..i - 8];
    }
  }

  lemma {:induction false} ReadPiece(depth: int, sp: Spine, pre: seq<int>, raw: seq<int>, piece: seq<int>, i: nat)
    requires FirstPiece(piece).Some? && FirstPiece(piece).value.0 == |piece| && i < |piece|
    requires forall k :: 0 <= k < |piece| ==> piece[k] >= 0
    ensures AdvanceAll(depth, Prefix(sp, InString(pre, raw, piece[..i])), piece[i..]) ==
            Some(Prefix(sp, InString(pre, raw + piece, [])))
    decreases |piece| - i
  {
    hide FirstPiece, EscapeTail;
    var z := Prefix(sp, InString(pre, raw, piece[..i]));
    assert piece[i..] == [piece[i]] + piece[i + 1..];
    assert piece[..i] + [piece[i]] == piece[..i + 1];
    AdvanceCons(depth, z, piece[i], piece[i + 1..]);
    if i + 1 == |piece| {
      assert piece[..i + 1] == piece;
      if |piece| == 1 {
        OnePiece(piece);
      } else {
        LongPiece(piece);
      }
    } else {
      PieceTails(piece, i + 1);
      LongPiece(piece);
      ReadPiece(depth, sp, pre, raw, piece, i + 1);
    }
  }

  lemma OnePiece(piece: seq<int>)
    requires FirstPiece(piece).Some? && |piece| == 1
    ensures IsPlain(piece[0])
  {
  }

  lemma LongPiece(piece: seq<int>)
    requires FirstPiece(piece).Some? && FirstPiece(piece).value.0 == |piece| > 1
    ensures piece[0] == BACKS
  {
  }

  /** The first piece alone is a piece. */
  lemma PieceAlone(raw: seq<int>)
    requires FirstPiece(raw).Some?
    ensures FirstPiece(raw[..FirstPiece(raw).value.0]) == FirstPiece(raw)
  {
    hide Utf8;
    var n := FirstPiece(raw).value.0;
    var p := raw[..n];
    if n >= 6 {
      UnitAlone(raw, n);
      if n == 12 {
        assert raw[6..][..6] == p[6..];
        UnitAlone(raw[6..], 6);
      }
    }
  }

  lemma UnitAlone(raw: seq<int>, n: nat)
    requires StartsUnit(raw) && 6 <= n <= |raw|
    ensures StartsUnit(raw[..n]) && raw[..n][2..6] == raw[2..6]
  {
    assert raw[..n][2..6] == raw[2..6];
  }

  lemma PieceChars(p: seq<int>)
    requires FirstPiece(p).Some? && FirstPiece(p).value.0 == |p|
    ensures forall k :: 0 <= k < |p| ==> p[k] >= 0
  {
    forall k | 0 <= k < |p| ensures p[k] >= 0 {
      if 2 <= k < 6 {
        assert IsHex(p[2..6][k - 2]);
      } else if k >= 8 {
        assert IsHex(p[6..][2..6][k - 8]);
      } else if k >= 6 {
        assert p[k] == p[6..][k - 6];
      }
    }
  }

  lemma {:induction false} ReadRaw(depth: int, sp: Spine, pre: seq<int>, done: seq<int>, raw: seq<int>)
    requires Unescape(raw).Some?
    ensures AdvanceAll(depth, Prefix(sp, InString(pre, done, [])), raw) == Some(Prefix(sp, InString(pre, done + raw, [])))
    decreases |raw|
  {
    hide Advance, FirstPiece;
    if raw == [] {
      assert done + raw == done;
    } else {
      var n := FirstPiece(raw).value.0;
      var piece := raw[..n];
      PieceAlone(raw);
      PieceChars(piece);
      ReadPiece(depth, sp, pre, done, piece, 0);
      assert piece[..0] == [] && piece[0..] == piece;
      assert raw == piece + raw[n..] && done + piece + raw[n..] == done + raw;
      AdvanceConcat(depth, Prefix(sp, InString(pre, done, [])), piece, raw[n..]);
      ReadRaw(depth, sp, pre, done + piece, raw[n..]);
    }
  }

  /** A quoted literal becomes a key or a string value. */
  lemma ReadQuoted(depth: int, sp: Spine, pre: seq<int>, raw: seq<int>)
    requires Unescape(raw).Some? && !sp.Root?
    ensures AdvanceAll(depth, Prefix(sp, Gap(pre)), Quoted(raw)) ==
            Some(Prefix(sp, if sp.InKey? then AfterKey(pre, raw, []) else AfterValue(pre, VString(raw), [])))
  {
    var z := Prefix(sp, Gap(pre));
    assert Quoted(raw) == [QUOTE] + (raw + [QUOTE]);
    AdvanceCons(depth, z, QUOTE, raw + [QUOTE]);
    ReadRaw(depth, sp, pre, [], raw);
    assert [] + raw == raw;
    AdvanceConcat(depth, Prefix(sp, InString(pre, [], [])), raw, [QUOTE]);
    AdvanceOne(depth, Prefix(sp, InString(pre, raw, [])), QUOTE);
  }

  // ---------- Words ----------

  lemma {:induction false} ReadWordFrom(depth: int, sp: Spine, pre: seq<int>, w: Word, k: nat)
    requires 1 <= k < |WordText(w)|
    ensures AdvanceAll(depth, Prefix(sp, InWord(pre, w, k)), WordText(w)[k..]) ==
            Some(Prefix(sp, AfterValue(pre, WordValue(w), [])))
    decreases |WordText(w)| - k
  {
    var t := WordText(w);
    assert t[k..] == [t[k]] + t[k + 1..];
    AdvanceCons(depth, Prefix(sp, InWord(pre, w, k)), t[k], t[k + 1..]);
    if k + 1 < |t| {
      ReadWordFrom(depth, sp, pre, w, k + 1);
    }
  }

  lemma ReadWhole(depth: int, sp: Spine, pre: seq<int>, w: Word)
    requires !sp.Root? && !sp.InKey?
    ensures AdvanceAll(depth, Prefix(sp, Gap(pre)), WordText(w)) == Some(Prefix(sp, AfterValue(pre, WordValue(w), [])))
  {
    var t := WordText(w);
    assert t == [t[0]] + t[1..];
    AdvanceCons(depth, Prefix(sp, Gap(pre)), t[0], t[1..]);
    ReadWordFrom(depth, sp, pre, w, 1);
  }

  // ---------- Numbers ----------

  /** Reading digits appends them to whichever part of the literal is being read. */
  lemma {:induction false} ReadDigits(depth: int, sp: Spine, pre: seq<int>, n: Number, d: seq<int>)
    requires AllDigits(d) && NumberShape(n)
    requires d != [] && n.exp.None? && n.frac.None? ==> !IsZero(n) && (n.whole == [] ==> d[0] != 0x30 || |d| == 1)
    ensures AdvanceAll(depth, Prefix(sp, InNumber(pre, n)), d) == Some(Prefix(sp, InNumber(pre, AddDigits(n, d))))
    decreases |d|
  {
    if d == [] {
      AddNoDigits(n);
    } else {
      var m := ExtendNumber(n, d[0]).value;
      assert m == AddDigits(n, [d[0]]);
      assert m.exp.None? && m.frac.None? ==> |m.whole| == |n.whole| + 1 && m.whole[|n.whole|] == d[0];
      assert AddDigits(m, d[1..]) == AddDigits(n, d) by {
        AddDigitsCons(n, d);
      }
      NumberTextExtends(n, d[0]);
      AdvanceCons(depth, Prefix(sp, InNumber(pre, n)), d[0], d[1..]);
      assert d == [d[0]] + d[1..];
      ReadDigits(depth, sp, pre, m, d[1..]);
    }
  }

  function AddDigits(n: Number, d: seq<int>): Number {
    if n.exp.Some? then n.(exp := Some(n.exp.value.(digits := n.exp.value.digits + d)))
    else if n.frac.Some? then n.(frac := Some(n.frac.value + d))
    else n.(whole := n.whole + d)
  }

  lemma AddNoDigits(n: Number)
    ensures AddDigits(n, []) == n
  {
    assert n.whole + [] == n.whole;
    assert n.frac.Some? ==> n.frac.value + [] == n.frac.value;
    assert n.exp.Some? ==> n.exp.value.digits + [] == n.exp.value.digits;
  }

  lemma AddDigitsCons(n: Number, d: seq<int>)
    requires d != []
    ensures AddDigits(AddDigits(n, [d[0]]), d[1..]) == AddDigits(n, d)
  {
    assert n.whole + [d[0]] + d[1..] == n.whole + d;
    assert n.frac.Some? ==> n.frac.value + [d[0]] + d[1..] == n.frac.value + d;
    assert n.exp.Some? ==> n.exp.value.digits + [d[0]] + d[1..] == n.exp.value.digits + d;
  }

  function SignText(neg: bool): seq<int> {
    if neg then [MINUS] else []
  }

  lemma ReadInteger(depth: int, sp: Spine, pre: seq<int>, n: Number)
    requires NumberShape(n) && n.whole != [] && !sp.Root? && !sp.InKey?
    ensures AdvanceAll(depth, Prefix(sp, Gap(pre)), SignText(n.neg) + n.whole) ==
            Some(Prefix(sp, InNumber(pre, Number(n.neg, n.whole, None, None))))
  {
    hide ReadNumber, AdvanceAll, NumberShape, AddDigits;
    if n.neg {
      ReadNegative(depth, sp, pre, n);
    } else {
      ReadPositive(depth, sp, pre, n);
    }
  }

  lemma ReadNegative(depth: int, sp: Spine, pre: seq<int>, n: Number)
    requires NumberShape(n) && n.whole != [] && !sp.Root? && !sp.InKey? && n.neg
    ensures AdvanceAll(depth, Prefix(sp, Gap(pre)), SignText(n.neg) + n.whole) ==
            Some(Prefix(sp, InNumber(pre, Number(n.neg, n.whole, None, None))))
  {
    hide ReadNumber;
    AdvanceCons(depth, Prefix(sp, Gap(pre)), MINUS, n.whole);
    ReadDigits(depth, sp, pre, Number(true, [], None, None), n.whole);
    assert [] + n.whole == n.whole;
  }

  lemma ReadPositive(depth: int, sp: Spine, pre: seq<int>, n: Number)
    requires NumberShape(n) && n.whole != [] && !sp.Root? && !sp.InKey? && !n.neg
    ensures AdvanceAll(depth, Prefix(sp, Gap(pre)), SignText(n.neg) + n.whole) ==
            Some(Prefix(sp, InNumber(pre, Number(n.neg, n.whole, None, None))))
  {
    hide ReadNumber, Advance, AdvanceAll;
    var w := n.whole;
    assert [] + w == w == [w[0]] + w[1..];
    StartPositive(depth, sp, pre, w[0]);
    AdvanceCons(depth, Prefix(sp, Gap(pre)), w[0], w[1..]);
    ReadDigits(depth, sp, pre, Number(false, [w[0]], None, None), w[1..]);
  }

  lemma StartPositive(depth: int, sp: Spine, pre: seq<int>, d: int)
    requires IsDigit(d) && !sp.Root? && !sp.InKey?
    ensures Advance(depth, Prefix(sp, Gap(pre)), d) ==
            Some(Prefix(sp, InNumber(pre, Number(false, [d], None, None))))
  {
  }

  lemma ReadFraction(depth: int, sp: Spine, pre: seq<int>, n: Number)
    requires NumberShape(n) && n.whole != []
    ensures AdvanceAll(depth, Prefix(sp, InNumber(pre, Number(n.neg, n.whole, None, None))), FractionText(n.frac)) ==
            Some(Prefix(sp, InNumber(pre, n.(exp := None))))
  {
    if n.frac.Some? {
      var d := n.frac.value;
      AdvanceCons(depth, Prefix(sp, InNumber(pre, Number(n.neg, n.whole, None, None))), POINT, d);
      ReadDigits(depth, sp, pre, Number(n.neg, n.whole, Some([]), None), d);
      assert [] + d == d;
    }
  }

  lemma ReadMarker(depth: int, sp: Spine, pre: seq<int>, n: Number, e: Exponent)
    requires NumberShape(n) && n.exp == Some(e)
    ensures AdvanceAll(depth, Prefix(sp, InNumber(pre, n.(exp := None))), [e.marker] + e.sign) ==
            Some(Prefix(sp, InNumber(pre, n.(exp := Some(e.(digits := []))))))
  {
    var z := Prefix(sp, InNumber(pre, n.(exp := None)));
    AdvanceCons(depth, z, e.marker, e.sign);
    if e.sign != [] {
      assert e.sign == [e.sign[0]];
      AdvanceOne(depth, Prefix(sp, InNumber(pre, n.(exp := Some(Exponent(e.marker, [], []))))), e.sign[0]);
    }
  }

  lemma ReadExponent(depth: int, sp: Spine, pre: seq<int>, n: Number)
    requires NumberShape(n) && n.whole != []
    ensures AdvanceAll(depth, Prefix(sp, InNumber(pre, n.(exp := None))), ExponentText(n.exp)) ==
            Some(Prefix(sp, InNumber(pre, n)))
  {
    hide Advance;
    if n.exp.Some? {
      var e := n.exp.value;
      ReadMarker(depth, sp, pre, n, e);
      AdvanceConcat(depth, Prefix(sp, InNumber(pre, n.(exp := None))), [e.marker] + e.sign, e.digits);
      ReadDigits(depth, sp, pre, n.(exp := Some(e.(digits := []))), e.digits);
      assert [] + e.digits == e.digits;
    }
  }

  lemma ReadLiteral(depth: int, sp: Spine, pre: seq<int>, n: Number)
    requires WellFormedNumber(n) && !sp.Root? && !sp.InKey?
    ensures AdvanceAll(depth, Prefix(sp, Gap(pre)), NumberText(n)) == Some(Prefix(sp, InNumber(pre, n)))
  {
    hide Advance, NumberShape;
    var z := Prefix(sp, Gap(pre));
    var int_ := SignText(n.neg) + n.whole;
    ReadInteger(depth, sp, pre, n);
    ReadFraction(depth, sp, pre, n);
    ReadExponent(depth, sp, pre, n);
    AdvanceConcat(depth, z, int_, FractionText(n.frac));
    AdvanceConcat(depth, z, int_ + FractionText(n.frac), ExponentText(n.exp));
  }

  // ---------- Values ----------

  /** The position after a value and its trailing blanks. */
  function Completed(pre: seq<int>, v: Value, post: seq<int>): Here {
    if v.VNumber? && post == [] then InNumber(pre, v.n) else AfterValue(pre, v, post)
  }

  predicate Fits(depth: int, sp: Spine, v: Value) {
    !sp.InKey? && (sp.Root? ==> IsContainer(v)) && Depth(sp) + Height(v) <= depth
  }

  /** Blanks, a value, blanks. */
  lemma ReadItem(depth: int, sp: Spine, pre: seq<int>, v: Value, post: seq<int>)
    requires Fits(depth, sp, v) && WellFormed(v) && Blank(pre) && Blank(post)
    ensures AdvanceAll(depth, Prefix(sp, Gap([])), ItemText(pre, v, post)) == Some(Prefix(sp, Completed(pre, v, post)))
    decreases v, 1
  {
    hide Advance, Text, WellFormed;
    var z := Prefix(sp, Gap([]));
    ReadGapBlank(depth, sp, [], pre);
    assert [] + pre == pre;
    ReadValue(depth, sp, pre, v);
    AdvanceConcat(depth, z, pre, Text(v));
    AdvanceConcat(depth, z, pre + Text(v), post);
    if v.VNumber? && post != [] {
      assert post == [post[0]] + post[1..];
      assert WellFormedNumber(v.n) by { NumberIsWellFormed(v); }
      EndNumber(depth, sp, pre, v.n, post[0]);
      AdvanceCons(depth, Prefix(sp, InNumber(pre, v.n)), post[0], post[1..]);
      ReadValueBlank(depth, sp, pre, v, [post[0]], post[1..]);
    } else if !v.VNumber? {
      ReadValueBlank(depth, sp, pre, v, [], post);
      assert [] + post == post;
    }
  }

  lemma NumberIsWellFormed(v: Value)
    requires v.VNumber? && WellFormed(v)
    ensures WellFormedNumber(v.n)
  {
  }

  lemma EndNumber(depth: int, sp: Spine, pre: seq<int>, n: Number, c: int)
    requires WellFormedNumber(n) && IsBlankChar(c)
    ensures Advance(depth, Prefix(sp, InNumber(pre, n)), c) == Some(Prefix(sp, AfterValue(pre, VNumber(n), [c])))
  {
  }

  lemma ReadValue(depth: int, sp: Spine, pre: seq<int>, v: Value)
    requires Fits(depth, sp, v) && WellFormed(v)
    ensures AdvanceAll(depth, Prefix(sp, Gap(pre)), Text(v)) == Some(Prefix(sp, Completed(pre, v, [])))
    decreases v, 0
  {
    hide Advance, NumberText, WordText, Quoted, ItemsText, MembersText;
    match v
    case VString(raw) => ReadQuoted(depth, sp, pre, raw);
    case VNumber(n) => ReadLiteral(depth, sp, pre, n);
    case VTrue => ReadWhole(depth, sp, pre, WordTrue); WordValueText(WordTrue);
    case VFalse => ReadWhole(depth, sp, pre, WordFalse); WordValueText(WordFalse);
    case VNull => ReadWhole(depth, sp, pre, WordNull); WordValueText(WordNull);
    case VEmptyArray(pad) => ReadEmpty(depth, sp, pre, v, pad);
    case VEmptyObject(pad) => ReadEmpty(depth, sp, pre, v, pad);
    case VArray(items) =>
      var inner := InArray(sp, pre, NoItems);
      ReadItems(depth, sp, pre, items);
      OpenReads(depth, sp, pre);
      Bracket(depth, Prefix(sp, Gap(pre)), LSQRB, Prefix(inner, Gap([])), ItemsText(items), RSQRB);
      CloseReads(depth, InArray(sp, pre, items.init), items.pre, items.v, items.post);
    case VObject(ms) =>
      var inner := InKey(sp, pre, NoMembers);
      ReadMembers(depth, sp, pre, ms);
      OpenReads(depth, sp, pre);
      Bracket(depth, Prefix(sp, Gap(pre)), LCURB, Prefix(inner, Gap([])), MembersText(ms), RCURB);
      CloseReads(depth, InValue(sp, pre, ms.init, ms.kpre, ms.key, ms.kpost), ms.pre, ms.v, ms.post);
  }

  /** An opening bracket, a body and a closing bracket. */
  lemma Bracket(depth: int, z: Prefix, open: int, z1: Prefix, body: seq<int>, close: int)
    requires Advance(depth, z, open) == Some(z1)
    ensures AdvanceAll(depth, z, [open] + body + [close]) ==
            match AdvanceAll(depth, z1, body) case None => None case Some(z2) => Advance(depth, z2, close)
  {
    hide Advance;
    assert [open] + body + [close] == [open] + (body + [close]);
    AdvanceCons(depth, z, open, body + [close]);
    AdvanceConcat(depth, z1, body, [close]);
    match AdvanceAll(depth, z1, body)
    case None =>
    case Some(z2) => AdvanceOne(depth, z2, close);
  }

  lemma OpenReads(depth: int, sp: Spine, pre: seq<int>)
    requires !sp.InKey? && Depth(sp) < depth
    ensures Advance(depth, Prefix(sp, Gap(pre)), LSQRB) == Some(Prefix(InArray(sp, pre, NoItems), Gap([])))
    ensures Advance(depth, Prefix(sp, Gap(pre)), LCURB) == Some(Prefix(InKey(sp, pre, NoMembers), Gap([])))
  {
  }

  /** Commas and closing brackets after a complete value. */
  lemma CloseReads(depth: int, sp: Spine, pre: seq<int>, v: Value, post: seq<int>)
    requires WellFormed(v) && (sp.InArray? || sp.InValue?)
    ensures forall c | c == COMMA || c == RSQRB || c == RCURB ::
      Advance(depth, Prefix(sp, Completed(pre, v, post)), c) == Close(sp, AfterValue(pre, v, post), c)
  {
    hide Close;
    forall c | c == COMMA || c == RSQRB || c == RCURB
      ensures Advance(depth, Prefix(sp, Completed(pre, v, post)), c) == Close(sp, AfterValue(pre, v, post), c)
    {
      if v.VNumber? && post == [] {
        CloseSame(sp, pre, v.n, c);
      }
    }
  }

  lemma CloseSame(sp: Spine, pre: seq<int>, n: Number, c: int)
    requires WellFormedNumber(n)
    ensures Close(sp, InNumber(pre, n), c) == Close(sp, AfterValue(pre, VNumber(n), []), c)
  {
  }

  lemma ReadEmpty(depth: int, sp: Spine, pre: seq<int>, v: Value, pad: seq<int>)
    requires Fits(depth, sp, v) && Blank(pad) && (v == VEmptyArray(pad) || v == VEmptyObject(pad))
    ensures AdvanceAll(depth, Prefix(sp, Gap(pre)), Text(v)) == Some(Prefix(sp, AfterValue(pre, v, [])))
  {
    hide AdvanceAll;
    var inner := if v.VEmptyArray? then InArray(sp, pre, NoItems) else InKey(sp, pre, NoMembers);
    ReadGapBlank(depth, inner, [], pad);
    assert [] + pad == pad;
    if v.VEmptyArray? {
      Bracket(depth, Prefix(sp, Gap(pre)), LSQRB, Prefix(inner, Gap([])), pad, RSQRB);
    } else {
      Bracket(depth, Prefix(sp, Gap(pre)), LCURB, Prefix(inner, Gap([])), pad, RCURB);
    }
  }

  function ItemText(pre: seq<int>, v: Value, post: seq<int>): seq<int> {
    pre + Text(v) + post
  }

  function KeyText(ms: Members): seq<int>
    requires ms.Members?
  {
    ms.kpre + Quoted(ms.key) + ms.kpost + [COLON]
  }

  lemma SplitItems(items: Items)
    requires items.Items?
    ensures var item := ItemText(items.pre, items.v, items.post);
            ItemsText(items) == if items.init.NoItems? then item else ItemsText(items.init) + ([COMMA] + item)
  {
  }

  lemma SplitMembers(ms: Members)
    requires ms.Members?
    ensures var member := KeyText(ms) + ItemText(ms.pre, ms.v, ms.post);
            MembersText(ms) == if ms.init.NoMembers? then member else MembersText(ms.init) + ([COMMA] + member)
  {
    hide Quoted, Text, Separator;
    var a, sep := MembersText(ms.init), Separator(ms.init.NoMembers?);
    RegroupMember(a, sep, ms.kpre, Quoted(ms.key), ms.kpost, ms.pre, Text(ms.v), ms.post);
    FirstOrNot(a, ms.init.NoMembers?, KeyText(ms) + ItemText(ms.pre, ms.v, ms.post));
  }

  lemma FirstOrNot(a: seq<int>, first: bool, member: seq<int>)
    requires first ==> a == []
    ensures a + (Separator(first) + member) == if first then member else a + ([COMMA] + member)
  {
  }

  lemma RegroupMember(
      a: seq<int>, sep: seq<int>, b: seq<int>, c: seq<int>, d: seq<int>, f: seq<int>, g: seq<int>, h: seq<int>)
    ensures a + sep + b + c + d + [COLON] + f + g + h == a + (sep + ((b + c + d + [COLON]) + (f + g + h)))
  {
    var key, item := b + c + d + [COLON], f + g + h;
    Regroup4(a + sep, b, c, d, [COLON]);
    RegroupTail(a + sep + key, f, g, h);
    RegroupTail(a, sep, key, item);
    assert (sep + key) + item == sep + (key + item);
  }

  lemma Regroup4(a: seq<int>, b: seq<int>, c: seq<int>, d: seq<int>, e: seq<int>)
    ensures a + b + c + d + e == a + (b + c + d + e)
  {
    RegroupTail(a, b, c, d);
  }

  lemma {:induction false} ReadItems(depth: int, up: Spine, pre: seq<int>, items: Items)
    requires items.Items? && WellFormedItems(items) && !up.InKey? && Depth(up) + 1 + ItemsHeight(items) <= depth
    ensures AdvanceAll(depth, Prefix(InArray(up, pre, NoItems), Gap([])), ItemsText(items)) ==
            Some(Prefix(InArray(up, pre, items.init), Completed(items.pre, items.v, items.post)))
    decreases items, 2
  {
    hide Advance, Text, Close, ItemsText, ItemText;
    var z := Prefix(InArray(up, pre, NoItems), Gap([]));
    var item := ItemText(items.pre, items.v, items.post);
    SplitItems(items);
    ReadItem(depth, InArray(up, pre, items.init), items.pre, items.v, items.post);
    if items.init.Items? {
      ReadItems(depth, up, pre, items.init);
      var last := items.init;
      var z1 := Prefix(InArray(up, pre, last.init), Completed(last.pre, last.v, last.post));
      assert Advance(depth, z1, COMMA) == Some(Prefix(InArray(up, pre, last), Gap([]))) by {
        CloseReads(depth, InArray(up, pre, last.init), last.pre, last.v, last.post);
        CommaArray(up, pre, last.init, last.pre, last.v, last.post);
      }
      AdvanceConcat(depth, z, ItemsText(last), [COMMA] + item);
      AdvanceCons(depth, z1, COMMA, item);
    }
  }

  lemma CommaArray(up: Spine, pre: seq<int>, init: Items, ipre: seq<int>, v: Value, post: seq<int>)
    ensures Close(InArray(up, pre, init), AfterValue(ipre, v, post), COMMA) ==
            Some(Prefix(InArray(up, pre, Items(init, ipre, v, post)), Gap([])))
  {
  }

  lemma CommaObject(up: Spine, pre: seq<int>, m: Members)
    requires m.Members?
    ensures Close(InValue(up, pre, m.init, m.kpre, m.key, m.kpost), AfterValue(m.pre, m.v, m.post), COMMA) ==
            Some(Prefix(InKey(up, pre, m), Gap([])))
  {
  }

  /** Blanks, a key, blanks, a colon. */
  lemma ReadKey(depth: int, up: Spine, pre: seq<int>, ms: Members, kpre: seq<int>, key: seq<int>, kpost: seq<int>)
    requires Blank(kpre) && Unescape(key).Some? && Blank(kpost)
    ensures AdvanceAll(depth, Prefix(InKey(up, pre, ms), Gap([])), kpre + Quoted(key) + kpost + [COLON]) ==
            Some(Prefix(InValue(up, pre, ms, kpre, key, kpost), Gap([])))
  {
    hide AdvanceAll, Quoted;
    var sp := InKey(up, pre, ms);
    var z := Prefix(sp, Gap([]));
    ReadGapBlank(depth, sp, [], kpre);
    assert [] + kpre == kpre;
    ReadQuoted(depth, sp, kpre, key);
    ReadKeyBlank(depth, sp, kpre, key, [], kpost);
    assert [] + kpost == kpost;
    AdvanceConcat(depth, z, kpre, Quoted(key));
    AdvanceConcat(depth, z, kpre + Quoted(key), kpost);
    AdvanceConcat(depth, z, kpre + Quoted(key) + kpost, [COLON]);
    AdvanceOne(depth, Prefix(sp, AfterKey(kpre, key, kpost)), COLON);
  }

  lemma {:induction false} ReadMembers(depth: int, up: Spine, pre: seq<int>, ms: Members)
    requires ms.Members? && WellFormedMembers(ms) && !up.InKey? && Depth(up) + 1 + MembersHeight(ms) <= depth
    ensures AdvanceAll(depth, Prefix(InKey(up, pre, NoMembers), Gap([])), MembersText(ms)) ==
            Some(Prefix(InValue(up, pre, ms.init, ms.kpre, ms.key, ms.kpost), Completed(ms.pre, ms.v, ms.post)))
    decreases ms, 2
  {
    hide Advance, Text, Close, Quoted, MembersText, ItemText;
    var z := Prefix(InKey(up, pre, NoMembers), Gap([]));
    var key := KeyText(ms);
    var item := ItemText(ms.pre, ms.v, ms.post);
    SplitMembers(ms);
    ReadKey(depth, up, pre, ms.init, ms.kpre, ms.key, ms.kpost);
    ReadItem(depth, InValue(up, pre, ms.init, ms.kpre, ms.key, ms.kpost), ms.pre, ms.v, ms.post);
    AdvanceConcat(depth, Prefix(InKey(up, pre, ms.init), Gap([])), key, item);
    if ms.init.Members? {
      var last := ms.init;
      ReadMembers(depth, up, pre, last);
      var sp := InValue(up, pre, last.init, last.kpre, last.key, last.kpost);
      var z1 := Prefix(sp, Completed(last.pre, last.v, last.post));
      assert Advance(depth, z1, COMMA) == Some(Prefix(InKey(up, pre, last), Gap([]))) by {
        CloseReads(depth, sp, last.pre, last.v, last.post);
        CommaObject(up, pre, last);
      }
      AdvanceConcat(depth, z, MembersText(last), [COMMA] + (key + item));
      AdvanceCons(depth, z1, COMMA, key + item);
    }
  }

  /** The reader rebuilds every printed document that fits the depth. */
  lemma ReadDocument(depth: int, d: Document)
    requires WellFormedDocument(d) && Height(d.root) <= depth
    ensures AdvanceAll(depth, START, DocumentText(d)) == Some(Prefix(Root, AfterValue(d.pre, d.root, d.post)))
  {
    ReadItem(depth, Root, d.pre, d.root, d.post);
  }
}
