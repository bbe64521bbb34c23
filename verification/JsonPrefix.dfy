/** Prefixes of documents: the tree read so far, the machine state that stands for it, and a
    character-by-character reader of trees that uses neither table nor buffer nor mode stack. */
module JsonPrefix {
  import opened JsonMachine
  import opened JsonGrammar

  /** The containers that are still open, outermost first, with everything read inside them. */
  datatype Spine =
    | Root
    | InArray(up: Spine, pre: seq<int>, items: Items)
    | InKey(up: Spine, pre: seq<int>, members: Members)
    | InValue(up: Spine, pre: seq<int>, members: Members, kpre: seq<int>, key: seq<int>, kpost: seq<int>)

  datatype Word = WordTrue | WordFalse | WordNull

  /** What has been read since the innermost opening bracket, comma or colon. */
  datatype Here =
    | Gap(pre: seq<int>)
    | InString(pre: seq<int>, raw: seq<int>, tail: seq<int>)
    | InNumber(pre: seq<int>, n: Number)
    | InWord(pre: seq<int>, w: Word, k: nat)
    | AfterKey(pre: seq<int>, key: seq<int>, post: seq<int>)
    | AfterValue(pre: seq<int>, v: Value, post: seq<int>)

  datatype Prefix = Prefix(spine: Spine, here: Here)

  function Depth(sp: Spine): nat {
    match sp
    case Root => 0
    case InArray(up, _, _) => Depth(up) + 1
    case InKey(up, _, _) => Depth(up) + 1
    case InValue(up, _, _, _, _, _) => Depth(up) + 1
  }

  function WordText(w: Word): seq<int> {
    match w case WordTrue => TRUE_TEXT case WordFalse => FALSE_TEXT case WordNull => NULL_TEXT
  }

  function WordValue(w: Word): Value {
    match w case WordTrue => VTrue case WordFalse => VFalse case WordNull => VNull
  }

  /** An unfinished escape: up to a backslash, a u and three digits, or a whole high surrogate and then the same. */
  predicate EscapeTail(t: seq<int>) {
    && |t| <= 11
    && (|t| > 0 ==> t[0] == BACKS)
    && (|t| > 1 ==> t[1] == LOW_U)
    && (|t| > 2 ==> AllHex(t[2..if |t| < 6 then |t| else 6]))
    && (|t| >= 6 ==> IsHighSurrogate(UnitOf(t[2..6])))
    && (|t| > 6 ==> t[6] == BACKS)
    && (|t| > 7 ==> t[7] == LOW_U)
    && (|t| > 8 ==> AllHex(t[8..]))
  }

  predicate WellFormedSpine(sp: Spine) {
    match sp
    case Root => true
    case InArray(up, pre, items) => !up.InKey? && WellFormedSpine(up) && Blank(pre) && WellFormedItems(items)
    case InKey(up, pre, ms) => !up.InKey? && WellFormedSpine(up) && Blank(pre) && WellFormedMembers(ms)
    case InValue(up, pre, ms, kpre, key, kpost) =>
      !up.InKey? && WellFormedSpine(up) && Blank(pre) && WellFormedMembers(ms)
      && Blank(kpre) && Unescape(key).Some? && Blank(kpost)
  }

  predicate WellFormedHere(sp: Spine, h: Here) {
    match h
    case Gap(pre) => Blank(pre)
    case InString(pre, raw, tail) => !sp.Root? && Blank(pre) && Unescape(raw).Some? && EscapeTail(tail)
    case InNumber(pre, n) => !sp.Root? && !sp.InKey? && Blank(pre) && NumberShape(n)
    case InWord(pre, w, k) => !sp.Root? && !sp.InKey? && Blank(pre) && 1 <= k < |WordText(w)|
    case AfterKey(pre, key, post) => sp.InKey? && Blank(pre) && Unescape(key).Some? && Blank(post)
    case AfterValue(pre, v, post) =>
      !sp.InKey? && (sp.Root? ==> IsContainer(v)) && Blank(pre) && WellFormed(v) && Blank(post)
      && (v.VNumber? ==> post != [])
  }

  predicate WellFormedPrefix(cfg: Config, z: Prefix) {
    WellFormedSpine(z.spine) && WellFormedHere(z.spine, z.here) && Depth(z.spine) <= cfg.depth
  }

  // ---------- The text read so far ----------

  function SpineText(sp: Spine): seq<int> {
    match sp
    case Root => []
    case InArray(up, pre, items) =>
      SpineText(up) + pre + [LSQRB] + ItemsText(items) + Separator(items.NoItems?)
    case InKey(up, pre, ms) =>
      SpineText(up) + pre + [LCURB] + MembersText(ms) + Separator(ms.NoMembers?)
    case InValue(up, pre, ms, kpre, key, kpost) =>
      SpineText(up) + pre + [LCURB] + MembersText(ms) + Separator(ms.NoMembers?) + kpre + Quoted(key) + kpost + [COLON]
  }

  function HereText(h: Here): seq<int> {
    match h
    case Gap(pre) => pre
    case InString(pre, raw, tail) => pre + [QUOTE] + raw + tail
    case InNumber(pre, n) => pre + NumberText(n)
    case InWord(pre, w, k) => pre + (if k <= |WordText(w)| then WordText(w)[..k] else [])
    case AfterKey(pre, key, post) => pre + Quoted(key) + post
    case AfterValue(pre, v, post) => pre + Text(v) + post
  }

  function PrefixText(z: Prefix): seq<int> {
    SpineText(z.spine) + HereText(z.here)
  }

  // ---------- The machine state that stands for a prefix ----------

  function SpineStack(sp: Spine): seq<Mode> {
    match sp
    case Root => [MODE_DONE]
    case InArray(up, _, _) => SpineStack(up) + [MODE_ARRAY]
    case InKey(up, _, _) => SpineStack(up) + [MODE_KEY]
    case InValue(up, _, _, _, _, _) => SpineStack(up) + [MODE_OBJECT]
  }

  function SpineTrace(sp: Spine): seq<Event> {
    match sp
    case Root => []
    case InArray(up, _, items) => SpineTrace(up) + [ArrayBegin] + ItemsTrace(items)
    case InKey(up, _, ms) => SpineTrace(up) + [ObjectBegin] + MembersTrace(ms)
    case InValue(up, _, ms, _, key, _) => SpineTrace(up) + [ObjectBegin] + MembersTrace(ms) + [Key(Payload(key))]
  }

  function GapState(sp: Spine): State {
    match sp
    case Root => GO
    case InArray(_, _, items) => if items.NoItems? then AR else VA
    case InKey(_, _, ms) => if ms.NoMembers? then OB else KE
    case InValue(_, _, _, _, _, _) => VA
  }

  function StringState(n: nat): State {
    match n
    case 0 => ST
    case 1 => ES
    case 2 => U1
    case 3 => U2
    case 4 => U3
    case 5 => U4
    case 6 => D1
    case 7 => D2
    case 8 => U1
    case 9 => U2
    case 10 => U3
    case _ => U4
  }

  function NumberState(n: Number): State {
    if n.exp.Some? then
      if n.exp.value.digits != [] then E3 else if n.exp.value.sign != [] then E2 else E1
    else if n.frac.Some? then
      if n.frac.value == [] then FX else FR
    else if n.whole == [] then MI
    else if IsZero(n) then ZE
    else IT
  }

  function WordState(w: Word, k: nat): State {
    match w
    case WordTrue => if k == 1 then T1 else if k == 2 then T2 else T3
    case WordFalse => if k == 1 then F1 else if k == 2 then F2 else if k == 3 then F3 else F4
    case WordNull => if k == 1 then N1 else if k == 2 then N2 else N3
  }

  function WordType(w: Word): Type {
    match w case WordTrue => T_TRUE case WordFalse => T_FALSE case WordNull => T_NULL
  }

  function NumberType(n: Number): Type {
    if IsFloat(n) then T_FLOAT else T_INTEGER
  }

  /** The type and buffer left behind by a value whose event has not been reported yet. */
  function ValueType(v: Value): Type {
    match v
    case VNumber(n) => NumberType(n)
    case VTrue => T_TRUE
    case VFalse => T_FALSE
    case VNull => T_NULL
    case _ => T_NONE
  }

  function ValueBuffer(v: Value, post: seq<int>): seq<int> {
    if ValueType(v) == T_NONE then [] else Text(v) + post
  }

  /** The events already reported for a complete value. */
  function ReportedTrace(v: Value): seq<Event> {
    if ValueType(v) == T_NONE then Trace(v, []) else []
  }

  function TailHigh(tail: seq<int>): int {
    if EscapeTail(tail) && |tail| >= 6 then UnitOf(tail[2..6]) else 0
  }

  function HereState(sp: Spine, h: Here, before: State): PState {
    var st, tr := SpineStack(sp), SpineTrace(sp);
    match h
    case Gap(_) => PState(GapState(sp), before, T_NONE, false, false, 0, st, [], tr)
    case InString(_, raw, tail) =>
      PState(StringState(|tail|), before, T_STRING, |tail| == 1, false, TailHigh(tail), st,
             Payload(raw) + (if |tail| < 6 then tail else tail[6..]), tr)
    case InNumber(_, n) => PState(NumberState(n), before, NumberType(n), false, false, 0, st, NumberText(n), tr)
    case InWord(_, w, k) =>
      PState(WordState(w, k), before, WordType(w), false, false, 0, st,
             if k <= |WordText(w)| then WordText(w)[..k] else [], tr)
    case AfterKey(_, key, _) => PState(CO, before, T_NONE, false, false, 0, st, [], tr + [Key(Payload(key))])
    case AfterValue(_, v, post) =>
      PState(OK, before, ValueType(v), false, false, 0, st, ValueBuffer(v, post), tr + ReportedTrace(v))
  }

  function StateOf(z: Prefix, before: State): PState {
    HereState(z.spine, z.here, before)
  }

  // ---------- Reading one more character ----------

  /** The value and its trailing blanks, if a value has been read completely. */
  function Finished(h: Here): Option<(seq<int>, Value, seq<int>)> {
    match h
    case InNumber(pre, n) => if WellFormedNumber(n) then Some((pre, VNumber(n), [])) else None
    case AfterValue(pre, v, post) => Some((pre, v, post))
    case _ => None
  }

  function Close(sp: Spine, h: Here, c: int): Option<Prefix> {
    match Finished(h)
    case None => None
    case Some(f) =>
      if c == COMMA then
        match sp
        case InArray(up, pre, items) => Some(Prefix(InArray(up, pre, Items(items, f.0, f.1, f.2)), Gap([])))
        case InValue(up, pre, ms, kpre, key, kpost) =>
          Some(Prefix(InKey(up, pre, Members(ms, kpre, key, kpost, f.0, f.1, f.2)), Gap([])))
        case _ => None
      else if c == RSQRB && sp.InArray? then
        Some(Prefix(sp.up, AfterValue(sp.pre, VArray(Items(sp.items, f.0, f.1, f.2)), [])))
      else if c == RCURB && sp.InValue? then
        Some(Prefix(sp.up, AfterValue(sp.pre, VObject(Members(sp.members, sp.kpre, sp.key, sp.kpost, f.0, f.1, f.2)), [])))
      else None
  }

  function ReadGap(depth: int, sp: Spine, pre: seq<int>, c: int): Option<Prefix> {
    if IsBlankChar(c) then Some(Prefix(sp, Gap(pre + [c])))
    else if c == QUOTE && !sp.Root? then Some(Prefix(sp, InString(pre, [], [])))
    else if sp.InKey? then
      if c == RCURB && sp.members.NoMembers? then Some(Prefix(sp.up, AfterValue(sp.pre, VEmptyObject(pre), []))) else None
    else if c == LSQRB && Depth(sp) < depth then Some(Prefix(InArray(sp, pre, NoItems), Gap([])))
    else if c == LCURB && Depth(sp) < depth then Some(Prefix(InKey(sp, pre, NoMembers), Gap([])))
    else if sp.Root? then None
    else if c == RSQRB && sp.InArray? && sp.items.NoItems? then
      Some(Prefix(sp.up, AfterValue(sp.pre, VEmptyArray(pre), [])))
    else if c == MINUS then Some(Prefix(sp, InNumber(pre, Number(true, [], None, None))))
    else if IsDigit(c) then Some(Prefix(sp, InNumber(pre, Number(false, [c], None, None))))
    else if c == 0x74 then Some(Prefix(sp, InWord(pre, WordTrue, 1)))
    else if c == 0x66 then Some(Prefix(sp, InWord(pre, WordFalse, 1)))
    else if c == 0x6E then Some(Prefix(sp, InWord(pre, WordNull, 1)))
    else None
  }

  function ReadString(sp: Spine, pre: seq<int>, raw: seq<int>, tail: seq<int>, c: int): Option<Prefix> {
    if |tail| == 0 then
      if c == QUOTE then
        Some(Prefix(sp, if sp.InKey? then AfterKey(pre, raw, []) else AfterValue(pre, VString(raw), [])))
      else if c == BACKS then Some(Prefix(sp, InString(pre, raw, [BACKS])))
      else if IsPlain(c) then Some(Prefix(sp, InString(pre, raw + [c], [])))
      else None
    else if FirstPiece(tail + [c]).Some? then Some(Prefix(sp, InString(pre, raw + (tail + [c]), [])))
    else if EscapeTail(tail + [c]) then Some(Prefix(sp, InString(pre, raw, tail + [c])))
    else None
  }

  /** The literal with one more character, if that is still the beginning of a literal. */
  function ExtendNumber(n: Number, c: int): Option<Number> {
    if IsDigit(c) then
      if n.exp.Some? then Some(n.(exp := Some(n.exp.value.(digits := n.exp.value.digits + [c]))))
      else if n.frac.Some? then Some(n.(frac := Some(n.frac.value + [c])))
      else if IsZero(n) then None
      else Some(n.(whole := n.whole + [c]))
    else if c == POINT && n.whole != [] && n.frac.None? && n.exp.None? then Some(n.(frac := Some([])))
    else if (c == 0x65 || c == 0x45) && n.whole != [] && n.exp.None? && (IsZero(n) ==> n.frac.Some?) then
      Some(n.(exp := Some(Exponent(c, [], []))))
    else if (c == PLUS || c == MINUS) && n.exp.Some? && n.exp.value.sign == [] && n.exp.value.digits == [] then
      Some(n.(exp := Some(n.exp.value.(sign := [c]))))
    else None
  }

  function ReadNumber(sp: Spine, pre: seq<int>, n: Number, c: int): Option<Prefix> {
    match ExtendNumber(n, c)
    case Some(m) => Some(Prefix(sp, InNumber(pre, m)))
    case None =>
      if IsBlankChar(c) && WellFormedNumber(n) then Some(Prefix(sp, AfterValue(pre, VNumber(n), [c])))
      else Close(sp, InNumber(pre, n), c)
  }

  function ReadWord(sp: Spine, pre: seq<int>, w: Word, k: nat, c: int): Option<Prefix> {
    if k >= |WordText(w)| || c != WordText(w)[k] then None
    else if k + 1 == |WordText(w)| then Some(Prefix(sp, AfterValue(pre, WordValue(w), [])))
    else Some(Prefix(sp, InWord(pre, w, k + 1)))
  }

  /** The prefix with one more character, or None if no document within the depth continues this way. */
  function Advance(depth: int, z: Prefix, c: int): Option<Prefix> {
    if c < 0 then None
    else
      match z.here
      case Gap(pre) => ReadGap(depth, z.spine, pre, c)
      case InString(pre, raw, tail) => ReadString(z.spine, pre, raw, tail, c)
      case InNumber(pre, n) => ReadNumber(z.spine, pre, n, c)
      case InWord(pre, w, k) => ReadWord(z.spine, pre, w, k, c)
      case AfterKey(pre, key, post) =>
        if IsBlankChar(c) then Some(Prefix(z.spine, AfterKey(pre, key, post + [c])))
        else if c == COLON && z.spine.InKey? then
          Some(Prefix(InValue(z.spine.up, z.spine.pre, z.spine.members, pre, key, post), Gap([])))
        else None
      case AfterValue(pre, v, post) =>
        if IsBlankChar(c) then Some(Prefix(z.spine, AfterValue(pre, v, post + [c])))
        else Close(z.spine, z.here, c)
  }

  function AdvanceAll(depth: int, z: Prefix, input: seq<int>): Option<Prefix>
    decreases |input|
  {
    if |input| == 0 then Some(z)
    else
      match Advance(depth, z, input[0])
      case None => None
      case Some(z1) => AdvanceAll(depth, z1, input[1..])
  }

  const START := Prefix(Root, Gap([]))
}
