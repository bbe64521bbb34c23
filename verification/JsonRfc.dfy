/** The machine against RFC 4627: which of the RFC's texts it accepts, and what else it accepts. */
module JsonRfc {
  import opened JsonMachine
  import opened JsonGrammar
  import opened JsonPrefix
  import opened JsonReader
  import opened JsonPrinter
  import opened JsonTheorems

  // ---------- The grammar of RFC 4627 ----------

  /** Section 2.4: digits after a point and after an exponent, any exponent after any integer. */
  predicate RfcNumber(n: Number) {
    && AllDigits(n.whole) && n.whole != [] && (|n.whole| > 1 ==> n.whole[0] != 0x30)
    && (n.frac.Some? ==> AllDigits(n.frac.value) && n.frac.value != [])
    && (n.exp.Some? ==> ExponentShape(n.exp.value) && n.exp.value.digits != [])
  }

  /** Section 2.5: unescaped characters and escapes, each unit escape on its own. */
  predicate RfcString(raw: seq<int>)
    decreases |raw|
  {
    if raw == [] then true
    else if raw[0] != BACKS then IsPlain(raw[0]) && RfcString(raw[1..])
    else if |raw| == 1 then false
    else if raw[1] != LOW_U then SimpleEscape(raw[1]).Some? && RfcString(raw[2..])
    else StartsUnit(raw) && RfcString(raw[6..])
  }

  predicate RfcValue(v: Value) {
    match v
    case VString(raw) => RfcString(raw)
    case VNumber(n) => RfcNumber(n)
    case VEmptyArray(pad) => Blank(pad)
    case VArray(items) => items.Items? && RfcItems(items)
    case VEmptyObject(pad) => Blank(pad)
    case VObject(ms) => ms.Members? && RfcMembers(ms)
    case _ => true
  }

  predicate RfcItems(items: Items) {
    match items
    case NoItems => true
    case Items(init, pre, v, post) => RfcItems(init) && Blank(pre) && RfcValue(v) && Blank(post)
  }

  predicate RfcMembers(ms: Members) {
    match ms
    case NoMembers => true
    case Members(init, kpre, key, kpost, pre, v, post) =>
      RfcMembers(init) && Blank(kpre) && RfcString(key) && Blank(kpost) && Blank(pre) && RfcValue(v) && Blank(post)
  }

  /** Section 2: a text is one object or array. */
  predicate RfcDocument(d: Document) {
    Blank(d.pre) && IsContainer(d.root) && RfcValue(d.root) && Blank(d.post)
  }

  // ---------- What the machine does not support ----------

  predicate ZeroWithExponent(n: Number) {
    IsZero(n) && n.frac.None? && n.exp.Some?
  }

  /** Every unit escape of a surrogate is one half of a high and low pair. */
  predicate Paired(raw: seq<int>)
    decreases |raw|
  {
    if |raw| < 2 then true
    else if raw[0] != BACKS then Paired(raw[1..])
    else if !StartsUnit(raw) then Paired(raw[2..])
    else
      var u := UnitOf(raw[2..6]);
      if IsHighSurrogate(u) then
        StartsUnit(raw[6..]) && IsLowSurrogate(UnitOf(raw[6..][2..6])) && Paired(raw[12..])
      else !IsLowSurrogate(u) && Paired(raw[6..])
  }

  predicate Supported(v: Value) {
    match v
    case VString(raw) => Paired(raw)
    case VNumber(n) => !ZeroWithExponent(n)
    case VArray(items) => SupportedItems(items)
    case VObject(ms) => SupportedMembers(ms)
    case _ => true
  }

  predicate SupportedItems(items: Items) {
    match items
    case NoItems => true
    case Items(init, _, v, _) => SupportedItems(init) && Supported(v)
  }

  predicate SupportedMembers(ms: Members) {
    match ms
    case NoMembers => true
    case Members(init, _, key, _, _, v, _) => SupportedMembers(init) && Paired(key) && Supported(v)
  }

  /** What the machine accepts beyond the RFC: a point with no digit after it. */
  predicate BarePoint(n: Number) {
    n.frac == Some([])
  }

  predicate NoBarePoint(v: Value) {
    match v
    case VNumber(n) => !BarePoint(n)
    case VArray(items) => NoBarePointItems(items)
    case VObject(ms) => NoBarePointMembers(ms)
    case _ => true
  }

  predicate NoBarePointItems(items: Items) {
    match items
    case NoItems => true
    case Items(init, _, v, _) => NoBarePointItems(init) && NoBarePoint(v)
  }

  predicate NoBarePointMembers(ms: Members) {
    match ms
    case NoMembers => true
    case Members(init, _, _, _, _, v, _) => NoBarePointMembers(init) && NoBarePoint(v)
  }

  // ---------- Strings ----------

  lemma {:induction false} SupportedString(raw: seq<int>)
    ensures RfcString(raw) && Paired(raw) <==> Unescape(raw).Some?
    decreases |raw|
  {
    hide Utf8;
    if |raw| >= 2 && raw[0] == BACKS && StartsUnit(raw) {
      SupportedString(raw[6..]);
      if IsHighSurrogate(UnitOf(raw[2..6])) && StartsUnit(raw[6..]) {
        assert raw[6..][6..] == raw[12..];
        SupportedString(raw[12..]);
      }
    } else if |raw| >= 2 && raw[0] == BACKS {
      SupportedString(raw[2..]);
    } else if raw != [] {
      SupportedString(raw[1..]);
    }
  }

  // ---------- Supported documents of the RFC are exactly the well-formed ones without a bare point ----------

  lemma FormOfValue(v: Value)
    ensures RfcValue(v) && Supported(v) <==> WellFormed(v) && NoBarePoint(v)
  {
    match v
    case VString(raw) => SupportedString(raw);
    case VArray(items) => FormOfItems(items);
    case VObject(ms) => FormOfMembers(ms);
    case _ =>
  }

  lemma {:induction false} FormOfItems(items: Items)
    ensures RfcItems(items) && SupportedItems(items) <==> WellFormedItems(items) && NoBarePointItems(items)
  {
    if items.Items? {
      FormOfItems(items.init);
      FormOfValue(items.v);
    }
  }

  lemma {:induction false} FormOfMembers(ms: Members)
    ensures RfcMembers(ms) && SupportedMembers(ms) <==> WellFormedMembers(ms) && NoBarePointMembers(ms)
  {
    if ms.Members? {
      FormOfMembers(ms.init);
      SupportedString(ms.key);
      FormOfValue(ms.v);
    }
  }

  // ---------- Unsupported documents stop the reader ----------

  lemma {:induction false} BadStringStops(depth: int, sp: Spine, pre: seq<int>, done: seq<int>, raw: seq<int>)
    requires RfcString(raw) && Unescape(raw).None?
    ensures AdvanceAll(depth, Prefix(sp, InString(pre, done, [])), raw + [QUOTE]).None?
    decreases |raw|
  {
    hide Advance, FirstPiece;
    var z := Prefix(sp, InString(pre, done, []));
    if FirstPiece(raw).Some? {
      var n := FirstPiece(raw).value.0;
      var piece := raw[..n];
      PieceAlone(raw);
      PieceChars(piece);
      ReadPiece(depth, sp, pre, done, piece, 0);
      assert piece[..0] == [] && piece[0..] == piece;
      RfcRest(raw);
      BadStringStops(depth, sp, pre, done + piece, raw[n..]);
      assert raw + [QUOTE] == piece + (raw[n..] + [QUOTE]);
      AdvanceConcat(depth, z, piece, raw[n..] + [QUOTE]);
    } else {
      assert raw != [] && raw[0] == BACKS && StartsUnit(raw) by { NoPiece(raw); }
      BadUnitStops(depth, sp, pre, done, raw);
    }
  }

  lemma RfcRest(raw: seq<int>)
    requires RfcString(raw) && FirstPiece(raw).Some?
    ensures RfcString(raw[FirstPiece(raw).value.0..])
  {
    if FirstPiece(raw).value.0 == 12 {
      assert raw[6..][6..] == raw[12..];
    }
  }

  lemma NoPiece(raw: seq<int>)
    requires RfcString(raw) && FirstPiece(raw).None? && Unescape(raw).None?
    ensures raw != [] && raw[0] == BACKS && StartsUnit(raw)
  {
  }

  /** An unpaired surrogate at the front of a literal. */
  lemma BadUnitStops(depth: int, sp: Spine, pre: seq<int>, done: seq<int>, raw: seq<int>)
    requires RfcString(raw) && FirstPiece(raw).None? && StartsUnit(raw)
    ensures AdvanceAll(depth, Prefix(sp, InString(pre, done, [])), raw + [QUOTE]).None?
  {
    hide Advance;
    var z := Prefix(sp, InString(pre, done, []));
    var text := raw + [QUOTE];
    assert text == [BACKS] + text[1..];
    AdvanceCons(depth, z, BACKS, text[1..]);
    assert Advance(depth, z, BACKS) == Some(Prefix(sp, InString(pre, done, [BACKS]))) by { ReadBackslash(depth, sp, pre, done); }
    assert text[..1] == [BACKS];
    UnitLost(raw);
    LostReading(depth, sp, pre, done, text, 1);
  }

  lemma ReadBackslash(depth: int, sp: Spine, pre: seq<int>, done: seq<int>)
    ensures Advance(depth, Prefix(sp, InString(pre, done, [])), BACKS) == Some(Prefix(sp, InString(pre, done, [BACKS])))
  {
  }

  /** At some length between 6 and 12, the text is neither an escape nor the beginning of one, and no shorter
      part of it was an escape. */
  ghost predicate Lost(text: seq<int>, n: nat) {
    2 <= n <= |text| && !EscapeTail(text[..n]) && FirstPiece(text[..n]).None?
    && (forall i {:trigger text[..i]} :: 1 <= i < n ==> FirstPiece(text[..i]).None?)
  }

  lemma UnitLost(raw: seq<int>)
    requires RfcString(raw) && FirstPiece(raw).None? && StartsUnit(raw)
    ensures exists n {:trigger Lost(raw + [QUOTE], n)} :: Lost(raw + [QUOTE], n)
  {
    var text := raw + [QUOTE];
    var u := UnitOf(raw[2..6]);
    assert text[2..6] == raw[2..6];
    var rest := raw[6..];
    var n: nat := if !IsHighSurrogate(u) then 6
             else if rest == [] || rest[0] != BACKS then 7
             else if rest[1] != LOW_U then 8 else 12;
    if n == 12 {
      assert StartsUnit(rest);
      assert text[6..12] == rest[..6] && rest[..6][2..6] == rest[2..6];
    }
    assert n > 6 ==> text[6] == if rest == [] then QUOTE else rest[0];
    assert n > 7 ==> text[7] == rest[1];
    LostAt(raw, n);
    assert Lost(text, n);
  }

  lemma LostAt(raw: seq<int>, n: nat)
    requires StartsUnit(raw) && FirstPiece(raw).None? && 6 <= n <= |raw| + 1 && n <= 12
    requires var u := UnitOf(raw[2..6]);
      if !IsHighSurrogate(u) then n == 6
      else if |raw| == 6 || raw[6] != BACKS then n == 7
      else if |raw| == 7 || raw[7] != LOW_U then n == 8
      else n == 12 && StartsUnit(raw[6..])
    ensures Lost(raw + [QUOTE], n)
  {
    hide FirstPiece, EscapeTail;
    var text := raw + [QUOTE];
    forall i {:trigger text[..i]} | 1 <= i <= n
      ensures FirstPiece(text[..i]).None? && (i == n ==> !EscapeTail(text[..i]))
    {
      LostPrefix(raw, n, i);
    }
  }

  /** The first i characters of a lost escape are no piece; the whole of it is not even the start of one. */
  lemma LostPrefix(raw: seq<int>, n: nat, i: nat)
    requires StartsUnit(raw) && FirstPiece(raw).None? && 6 <= n <= |raw| + 1 && n <= 12 && 1 <= i <= n
    requires var u := UnitOf(raw[2..6]);
      if !IsHighSurrogate(u) then n == 6
      else if |raw| == 6 || raw[6] != BACKS then n == 7
      else if |raw| == 7 || raw[7] != LOW_U then n == 8
      else n == 12 && StartsUnit(raw[6..])
    ensures var t := (raw + [QUOTE])[..i]; FirstPiece(t).None? && (i == n ==> !EscapeTail(t))
  {
    hide FirstPiece, EscapeTail, UnitOf;
    var t := (raw + [QUOTE])[..i];
    if i < 6 {
      ShortUnit(raw, t);
    } else if i < 12 {
      OneUnit(raw, t);
      if i == n {
        NoTail(raw, n);
      }
    } else {
      TwoUnits(raw, t);
    }
  }

  lemma ShortUnit(raw: seq<int>, t: seq<int>)
    requires StartsUnit(raw) && 1 <= |t| < 6 && t == raw[..|t|]
    ensures FirstPiece(t).None?
  {
  }

  /** A unit that begins no piece alone begins none with fewer than six characters more. */
  lemma OneUnit(raw: seq<int>, t: seq<int>)
    requires StartsUnit(raw) && FirstPiece(raw).None? && 6 <= |t| < 12 && |t| <= |raw| + 1 && t == (raw + [QUOTE])[..|t|]
    ensures FirstPiece(t).None?
  {
    assert t[2..6] == raw[2..6];
    assert |t[6..]| < 6;
  }

  lemma NoTail(raw: seq<int>, n: nat)
    requires StartsUnit(raw) && 6 <= n <= |raw| + 1 && n < 12
    requires var u := UnitOf(raw[2..6]);
      if !IsHighSurrogate(u) then n == 6
      else if |raw| == 6 || raw[6] != BACKS then n == 7
      else (|raw| == 7 || raw[7] != LOW_U) && n == 8
    ensures !EscapeTail((raw + [QUOTE])[..n])
  {
    var t := (raw + [QUOTE])[..n];
    assert t[2..6] == raw[2..6];
  }

  lemma TwoUnits(raw: seq<int>, t: seq<int>)
    requires StartsUnit(raw) && FirstPiece(raw).None? && |raw| >= 12 && StartsUnit(raw[6..]) && t == (raw + [QUOTE])[..12]
    ensures FirstPiece(t).None? && !EscapeTail(t)
  {
    assert t[2..6] == raw[2..6];
    assert t[6..] == raw[6..][..6];
    assert t[6..][2..6] == raw[6..][2..6];
  }

  lemma {:induction false} LostReading(depth: int, sp: Spine, pre: seq<int>, done: seq<int>, text: seq<int>, i: nat)
    requires exists n {:trigger Lost(text, n)} :: i < n && Lost(text, n)
    requires 1 <= i
    ensures AdvanceAll(depth, Prefix(sp, InString(pre, done, text[..i])), text[i..]).None?
    decreases |text| - i
  {
    hide FirstPiece, EscapeTail;
    var n: nat :| i < n && Lost(text, n);
    assert text[i..] == [text[i]] + text[i + 1..];
    AdvanceCons(depth, Prefix(sp, InString(pre, done, text[..i])), text[i], text[i + 1..]);
    assert text[..i] + [text[i]] == text[..i + 1];
    if i + 1 < n {
      LostReading(depth, sp, pre, done, text, i + 1);
    }
  }

  lemma BadNumberStops(depth: int, sp: Spine, pre: seq<int>, n: Number)
    requires RfcNumber(n) && ZeroWithExponent(n) && !sp.Root? && !sp.InKey?
    ensures AdvanceAll(depth, Prefix(sp, Gap(pre)), NumberText(n)).None?
  {
    hide Advance;
    var m := n.(exp := None);
    var e := n.exp.value;
    ReadInteger(depth, sp, pre, m);
    assert NumberText(n) == (SignText(n.neg) + n.whole) + ([e.marker] + (e.sign + e.digits));
    AdvanceConcat(depth, Prefix(sp, Gap(pre)), SignText(n.neg) + n.whole, [e.marker] + (e.sign + e.digits));
    AdvanceCons(depth, Prefix(sp, InNumber(pre, m)), e.marker, e.sign + e.digits);
    assert Advance(depth, Prefix(sp, InNumber(pre, m)), e.marker).None? by { NoExponent(depth, sp, pre, m, e.marker); }
  }

  lemma NoExponent(depth: int, sp: Spine, pre: seq<int>, m: Number, c: int)
    requires IsZero(m) && m.frac.None? && m.exp.None? && (c == 0x65 || c == 0x45)
    ensures Advance(depth, Prefix(sp, InNumber(pre, m)), c).None?
  {
  }

  lemma BadQuotedStops(depth: int, sp: Spine, pre: seq<int>, raw: seq<int>)
    requires RfcString(raw) && !Paired(raw) && !sp.Root?
    ensures AdvanceAll(depth, Prefix(sp, Gap(pre)), Quoted(raw)).None?
  {
    SupportedString(raw);
    assert Quoted(raw) == [QUOTE] + (raw + [QUOTE]);
    AdvanceCons(depth, Prefix(sp, Gap(pre)), QUOTE, raw + [QUOTE]);
    BadStringStops(depth, sp, pre, [], raw);
  }

  lemma BadValueStops(depth: int, sp: Spine, pre: seq<int>, v: Value)
    requires Fits(depth, sp, v) && RfcValue(v) && !Supported(v)
    ensures AdvanceAll(depth, Prefix(sp, Gap(pre)), Text(v)).None?
    decreases v, 0
  {
    hide Advance, NumberText, Quoted, ItemsText, MembersText;
    match v
    case VString(raw) => BadQuotedStops(depth, sp, pre, raw);
    case VNumber(n) => BadNumberStops(depth, sp, pre, n);
    case VArray(items) =>
      BadItemsStop(depth, sp, pre, items);
      OpenReads(depth, sp, pre);
      Bracket(depth, Prefix(sp, Gap(pre)), LSQRB, Prefix(InArray(sp, pre, NoItems), Gap([])), ItemsText(items), RSQRB);
    case VObject(ms) =>
      BadMembersStop(depth, sp, pre, ms);
      OpenReads(depth, sp, pre);
      Bracket(depth, Prefix(sp, Gap(pre)), LCURB, Prefix(InKey(sp, pre, NoMembers), Gap([])), MembersText(ms), RCURB);
    case _ =>
  }

  lemma BadItemStops(depth: int, sp: Spine, pre: seq<int>, v: Value, post: seq<int>)
    requires Fits(depth, sp, v) && RfcValue(v) && !Supported(v) && Blank(pre)
    ensures AdvanceAll(depth, Prefix(sp, Gap([])), ItemText(pre, v, post)).None?
    decreases v, 1
  {
    hide Advance, Text;
    var z := Prefix(sp, Gap([]));
    ReadGapBlank(depth, sp, [], pre);
    assert [] + pre == pre;
    BadValueStops(depth, sp, pre, v);
    AdvanceConcat(depth, z, pre, Text(v));
    AdvanceConcat(depth, z, pre + Text(v), post);
  }

  lemma {:induction false} BadItemsStop(depth: int, up: Spine, pre: seq<int>, items: Items)
    requires items.Items? && RfcItems(items) && !SupportedItems(items)
    requires !up.InKey? && Depth(up) + 1 + ItemsHeight(items) <= depth
    ensures AdvanceAll(depth, Prefix(InArray(up, pre, NoItems), Gap([])), ItemsText(items)).None?
    decreases items, 2
  {
    hide Advance, Text, Close, ItemsText, ItemText;
    var z := Prefix(InArray(up, pre, NoItems), Gap([]));
    var item := ItemText(items.pre, items.v, items.post);
    var last := items.init;
    SplitItems(items);
    if !SupportedItems(last) {
      BadItemsStop(depth, up, pre, last);
      AdvanceConcat(depth, z, ItemsText(last), [COMMA] + item);
    } else {
      BadItemStops(depth, InArray(up, pre, last), items.pre, items.v, items.post);
      if last.Items? {
        FormOfItems(last);
        ReadItems(depth, up, pre, last);
        var z1 := Prefix(InArray(up, pre, last.init), Completed(last.pre, last.v, last.post));
        assert Advance(depth, z1, COMMA) == Some(Prefix(InArray(up, pre, last), Gap([]))) by {
          CloseReads(depth, InArray(up, pre, last.init), last.pre, last.v, last.post);
          CommaArray(up, pre, last.init, last.pre, last.v, last.post);
        }
        AdvanceConcat(depth, z, ItemsText(last), [COMMA] + item);
        AdvanceCons(depth, z1, COMMA, item);
      }
    }
  }

  lemma BadMemberStops(depth: int, up: Spine, pre: seq<int>, ms: Members)
    requires ms.Members? && RfcMembers(ms) && (!Paired(ms.key) || !Supported(ms.v))
    requires !up.InKey? && Depth(up) + 1 + MembersHeight(ms) <= depth
    ensures AdvanceAll(depth, Prefix(InKey(up, pre, ms.init), Gap([])), KeyText(ms) + ItemText(ms.pre, ms.v, ms.post)).None?
    decreases ms, 1
  {
    hide Advance, Text, Quoted, ItemText;
    var sp := InKey(up, pre, ms.init);
    var z := Prefix(sp, Gap([]));
    var item := ItemText(ms.pre, ms.v, ms.post);
    AdvanceConcat(depth, z, KeyText(ms), item);
    if !Paired(ms.key) {
      ReadGapBlank(depth, sp, [], ms.kpre);
      assert [] + ms.kpre == ms.kpre;
      BadQuotedStops(depth, sp, ms.kpre, ms.key);
      AdvanceConcat(depth, z, ms.kpre, Quoted(ms.key));
      AdvanceConcat(depth, z, ms.kpre + Quoted(ms.key), ms.kpost);
      AdvanceConcat(depth, z, ms.kpre + Quoted(ms.key) + ms.kpost, [COLON]);
    } else {
      SupportedString(ms.key);
      ReadKey(depth, up, pre, ms.init, ms.kpre, ms.key, ms.kpost);
      BadItemStops(depth, InValue(up, pre, ms.init, ms.kpre, ms.key, ms.kpost), ms.pre, ms.v, ms.post);
    }
  }

  lemma {:induction false} BadMembersStop(depth: int, up: Spine, pre: seq<int>, ms: Members)
    requires ms.Members? && RfcMembers(ms) && !SupportedMembers(ms)
    requires !up.InKey? && Depth(up) + 1 + MembersHeight(ms) <= depth
    ensures AdvanceAll(depth, Prefix(InKey(up, pre, NoMembers), Gap([])), MembersText(ms)).None?
    decreases ms, 2
  {
    hide Advance, Text, Close, Quoted, MembersText, ItemText, KeyText;
    var z := Prefix(InKey(up, pre, NoMembers), Gap([]));
    var member := KeyText(ms) + ItemText(ms.pre, ms.v, ms.post);
    var last := ms.init;
    SplitMembers(ms);
    if !SupportedMembers(last) {
      BadMembersStop(depth, up, pre, last);
      AdvanceConcat(depth, z, MembersText(last), [COMMA] + member);
    } else {
      BadMemberStops(depth, up, pre, ms);
      if last.Members? {
        FormOfMembers(last);
        ReadMembers(depth, up, pre, last);
        var sp := InValue(up, pre, last.init, last.kpre, last.key, last.kpost);
        var z1 := Prefix(sp, Completed(last.pre, last.v, last.post));
        assert Advance(depth, z1, COMMA) == Some(Prefix(InKey(up, pre, last), Gap([]))) by {
          CloseReads(depth, sp, last.pre, last.v, last.post);
          CommaObject(up, pre, last);
        }
        AdvanceConcat(depth, z, MembersText(last), [COMMA] + member);
        AdvanceCons(depth, z1, COMMA, member);
      }
    }
  }

  // ---------- The theorems ----------

  /** An RFC 4627 text within the depth is accepted exactly when none of its numbers is a zero with an exponent
      and no fraction, and every surrogate escape in its strings is paired. */
  lemma RfcConformance(cfg: Config, d: Document)
    requires ValidConfig(cfg) && !cfg.allowComments && RfcDocument(d) && Height(d.root) <= cfg.depth
    ensures Accepts(cfg, DocumentText(d)) <==> Supported(d.root)
  {
    hide Run, AdvanceAll, StateOf, Text;
    FormOfValue(d.root);
    if Supported(d.root) {
      ParserUndoesPrinter(cfg, d);
    } else {
      BadItemStops(cfg.depth, Root, d.pre, d.root, d.post);
      StartState();
      RunAgrees(cfg, START, GO, DocumentText(d));
    }
  }

  /** What an accepted document has that RFC 4627 does not allow is a number with no digit after its point. */
  lemma BeyondTheRfc(d: Document)
    requires WellFormedDocument(d)
    ensures RfcDocument(d) <==> NoBarePoint(d.root)
  {
    RfcFormOfValue(d.root);
  }

  lemma RfcFormOfValue(v: Value)
    requires WellFormed(v)
    ensures RfcValue(v) <==> NoBarePoint(v)
  {
    match v
    case VString(raw) => SupportedString(raw);
    case VArray(items) => RfcFormOfItems(items);
    case VObject(ms) => RfcFormOfMembers(ms);
    case _ =>
  }

  lemma {:induction false} RfcFormOfItems(items: Items)
    requires WellFormedItems(items)
    ensures RfcItems(items) <==> NoBarePointItems(items)
  {
    if items.Items? {
      RfcFormOfItems(items.init);
      RfcFormOfValue(items.v);
    }
  }

  lemma {:induction false} RfcFormOfMembers(ms: Members)
    requires WellFormedMembers(ms)
    ensures RfcMembers(ms) <==> NoBarePointMembers(ms)
  {
    if ms.Members? {
      RfcFormOfMembers(ms.init);
      SupportedString(ms.key);
      RfcFormOfValue(ms.v);
    }
  }

  /** The text [0e1] of RFC 4627 is refused. */
  lemma ZeroExponentWitness(cfg: Config)
    requires ValidConfig(cfg) && !cfg.allowComments
    ensures !Accepts(cfg, [LSQRB, 0x30, 0x65, 0x31, RSQRB])
  {
    hide Accepts, AdvanceAll;
    var n := Number(false, [0x30], None, Some(Exponent(0x65, [], [0x31])));
    var d := Document([], VArray(Items(NoItems, [], VNumber(n), [])), []);
    assert NumberText(n) == [0x30, 0x65, 0x31];
    assert ItemsText(d.root.items) == [0x30, 0x65, 0x31];
    assert DocumentText(d) == [LSQRB, 0x30, 0x65, 0x31, RSQRB];
    RfcConformance(cfg, d);
  }

  /** The text [1.], which RFC 4627 does not allow, is accepted. */
  lemma BarePointWitness(cfg: Config)
    requires ValidConfig(cfg)
    ensures Accepts(cfg, [LSQRB, 0x31, POINT, RSQRB])
  {
    hide Accepts;
    var n := Number(false, [0x31], Some([]), None);
    var d := Document([], VArray(Items(NoItems, [], VNumber(n), [])), []);
    assert NumberText(n) == [0x31, POINT];
    assert ItemsText(d.root.items) == [0x31, POINT];
    assert DocumentText(d) == [LSQRB, 0x31, POINT, RSQRB];
    ParserUndoesPrinter(cfg, d);
  }
}
