/** Escapes of Unicode characters: every scalar value comes out as its UTF-8 bytes, and a surrogate
    without its partner stops the parser. */
module JsonUnicode {
  import opened JsonMachine
  import opened JsonGrammar
  import opened JsonPrefix
  import opened JsonReader
  import opened JsonAgreement
  import opened JsonPrinter
  import opened JsonTheorems

  /** The UTF-16 units of a scalar value, by section 2.1 of RFC 2781. */
  function Utf16(u: int): seq<int> {
    if u < 0x10000 then [u] else [0xD800 + (u - 0x10000) / 0x400, 0xDC00 + (u - 0x10000) % 0x400]
  }

  function UnitEscape(h: seq<int>): seq<int> {
    [BACKS, LOW_U] + h
  }

  /** One way of writing u with one or two escapes, in any mixture of upper and lower case digits. */
  predicate Spells(raw: seq<int>, u: int) {
    var w := Utf16(u);
    if |w| == 1 then |raw| == 6 && StartsUnit(raw) && UnitOf(raw[2..6]) == w[0]
    else |raw| == 12 && StartsUnit(raw) && UnitOf(raw[2..6]) == w[0]
         && StartsUnit(raw[6..]) && UnitOf(raw[6..][2..6]) == w[1]
  }

  lemma ThreeByteRoundTrip(u: int)
    requires 0x800 <= u < 0x10000 && IsScalar(u)
    ensures Utf8Decode(Utf8(u)) == Some(u) && forall i :: 0 <= i < 3 ==> 0 <= Utf8(u)[i] < 256
  {
    var x, y, z := u / 0x1000, u / 0x40 % 0x40, u % 0x40;
    assert Utf8(u) == [0xE0 + x, 0x80 + y, 0x80 + z];
    assert 0 <= x < 0x10 && 0 <= y < 0x40 && 0 <= z < 0x40;
    assert u == x * 0x1000 + y * 0x40 + z;
  }

  lemma SixBitDigits(u: int)
    requires u >= 0
    ensures u == u / 0x40000 * 0x40000 + u / 0x1000 % 0x40 * 0x1000 + u / 0x40 % 0x40 * 0x40 + u % 0x40
  {
    var a := u / 0x40;
    var b := a / 0x40;
    assert u / 0x1000 == b && u / 0x40000 == b / 0x40;
  }

  lemma FourByteRoundTrip(u: int)
    requires 0x10000 <= u < 0x110000
    ensures Utf8Decode(Utf8(u)) == Some(u) && forall i :: 0 <= i < 4 ==> 0 <= Utf8(u)[i] < 256
  {
    SixBitDigits(u);
    FourBytes(u, u / 0x40000, u / 0x1000 % 0x40, u / 0x40 % 0x40, u % 0x40);
  }

  lemma FourBytes(u: int, w: int, x: int, y: int, z: int)
    requires 0x10000 <= u < 0x110000 && u == w * 0x40000 + x * 0x1000 + y * 0x40 + z
    requires 0 <= w && 0 <= x < 0x40 && 0 <= y < 0x40 && 0 <= z < 0x40
    ensures w < 5 && Utf8Decode([0xF0 + w, 0x80 + x, 0x80 + y, 0x80 + z]) == Some(u)
  {
  }

  /** The strict decoder of section 3 of RFC 3629 reads back every scalar value. */
  lemma Utf8RoundTrip(u: int)
    requires IsScalar(u)
    ensures Utf8Decode(Utf8(u)) == Some(u)
    ensures forall i :: 0 <= i < |Utf8(u)| ==> 0 <= Utf8(u)[i] < 256
  {
    hide Utf8Decode;
    if u < 0x800 {
      ShortRoundTrip(u);
    } else if u < 0x10000 {
      ThreeByteRoundTrip(u);
    } else {
      FourByteRoundTrip(u);
    }
  }

  lemma ShortRoundTrip(u: int)
    requires 0 <= u < 0x800
    ensures Utf8Decode(Utf8(u)) == Some(u)
  {
  }

  /** The pair of units of a supplementary character is a surrogate pair, and decodes to it. */
  lemma SurrogatesRoundTrip(u: int)
    requires 0x10000 <= u < 0x110000
    ensures IsHighSurrogate(Utf16(u)[0]) && IsLowSurrogate(Utf16(u)[1])
    ensures SurrogatePair(Utf16(u)[0], Utf16(u)[1]) == u
  {
  }

  /** A literal that spells one scalar value denotes exactly its UTF-8 bytes. */
  lemma SpelledIsUtf8(raw: seq<int>, u: int)
    requires IsScalar(u) && Spells(raw, u)
    ensures Unescape(raw) == Some(Utf8(u))
    ensures Utf8Decode(Payload(raw)) == Some(u)
  {
    hide Utf8, Utf8Decode;
    Utf8RoundTrip(u);
    if u >= 0x10000 {
      SurrogatesRoundTrip(u);
    }
    assert FirstPiece(raw) == Some((|raw|, Utf8(u)));
    assert raw[|raw|..] == [] && Utf8(u) + [] == Utf8(u);
  }

  /** From the string state, the escapes of a scalar value lead back to the string state and leave its
      UTF-8 bytes in the buffer instead of their own text. */
  lemma EscapesBecomeUtf8(cfg: Config, sp: Spine, pre: seq<int>, done: seq<int>, raw: seq<int>, u: int, before: State)
    requires ValidConfig(cfg) && WellFormedPrefix(cfg, Prefix(sp, InString(pre, done, [])))
    requires IsScalar(u) && Spells(raw, u)
    ensures var s := StateOf(Prefix(sp, InString(pre, done, [])), before);
            s.state.ST? && s.high == 0 && Run(cfg, s, raw) == Accept(s.(buf := s.buf + Utf8(u)))
  {
    hide Run, AdvanceAll, WellFormedPrefix, Utf8, Utf8Decode, Spells, FirstPiece, SpineTrace, SpineStack;
    SpelledIsUtf8(raw, u);
    ReadRaw(cfg.depth, sp, pre, done, raw);
    RunAgrees(cfg, Prefix(sp, InString(pre, done, [])), before, raw);
    assert Unescape(done).Some? by { InsideString(cfg, sp, pre, done); }
    UnescapeConcat(done, raw);
    assert Payload(done + raw) + [] == (Payload(done) + []) + Utf8(u);
  }

  lemma InsideString(cfg: Config, sp: Spine, pre: seq<int>, raw: seq<int>)
    requires WellFormedPrefix(cfg, Prefix(sp, InString(pre, raw, [])))
    ensures Unescape(raw).Some?
  {
  }

  /** Every string literal, of any length: the key or string event carries exactly its unescaped bytes. */
  lemma LiteralPayload(cfg: Config, sp: Spine, pre: seq<int>, raw: seq<int>, before: State)
    requires ValidConfig(cfg) && WellFormedPrefix(cfg, Prefix(sp, Gap(pre))) && !sp.Root? && Unescape(raw).Some?
    ensures var s := StateOf(Prefix(sp, Gap(pre)), before);
            var bytes := Unescape(raw).value;
            Run(cfg, s, Quoted(raw)).Accept? &&
            Run(cfg, s, Quoted(raw)).st.events == s.events + [if sp.InKey? then Key(bytes) else Str(bytes)] &&
            Run(cfg, s, Quoted(raw)).st.buf == []
  {
    hide Run, AdvanceAll, WellFormedPrefix, FirstPiece, SpineTrace, SpineStack;
    ReadQuoted(cfg.depth, sp, pre, raw);
    RunAgrees(cfg, Prefix(sp, Gap(pre)), before, Quoted(raw));
  }

  // ---------- Unpaired surrogates ----------

  /** Inside a unit escape that is none, the machine does not get past the last character. */
  lemma {:induction false} StuckRun(cfg: Config, sp: Spine, pre: seq<int>, done: seq<int>, raw: seq<int>, i: nat, before: State)
    requires BadUnits(raw) && 1 <= i < |raw|
    requires ValidConfig(cfg) && WellFormedPrefix(cfg, Prefix(sp, InString(pre, done, raw[..i])))
    ensures Run(cfg, StateOf(Prefix(sp, InString(pre, done, raw[..i])), before), raw[i..]).Reject?
    decreases |raw| - i
  {
    hide Step, StateOf, WellFormedPrefix, FirstPiece, EscapeTail, BadUnits;
    var z := Prefix(sp, InString(pre, done, raw[..i]));
    var c := raw[i];
    assert raw[i..][0] == c && raw[i..][1..] == raw[i + 1..];
    assert raw[..i] + [c] == raw[..i + 1];
    StepAgrees(cfg, z, before, c);
    match Advance(cfg.depth, z, c)
    case None =>
    case Some(z1) =>
      AdvanceGrows(cfg, z, c);
      if i + 1 == |raw| {
        assert raw[..i + 1] == raw;
        FullTail(raw);
      } else {
        ShortPiece(raw, i + 1);
        StuckRun(cfg, sp, pre, done, raw, i + 1, before);
      }
  }

  /** One unit escape, or two if the first is a high surrogate, that denote no character. */
  predicate BadUnits(raw: seq<int>) {
    StartsUnit(raw) && FirstPiece(raw).None? && |raw| == if IsHighSurrogate(UnitOf(raw[2..6])) then 12 else 6
  }

  /** A low surrogate that follows no high one is refused at its last digit. */
  lemma LoneLowIsRefused(cfg: Config, sp: Spine, pre: seq<int>, done: seq<int>, h: seq<int>, before: State)
    requires ValidConfig(cfg) && WellFormedPrefix(cfg, Prefix(sp, InString(pre, done, [])))
    requires |h| == 4 && AllHex(h) && IsLowSurrogate(UnitOf(h))
    ensures Run(cfg, StateOf(Prefix(sp, InString(pre, done, [])), before), UnitEscape(h)).Reject?
  {
    var raw := UnitEscape(h);
    assert raw[2..6] == h;
    BadEscape(cfg, sp, pre, done, raw, before);
  }

  /** A high surrogate followed by anything but the escape of a low one is refused within six characters. */
  lemma LoneHighIsRefused(cfg: Config, sp: Spine, pre: seq<int>, done: seq<int>, h: seq<int>, next: seq<int>, before: State)
    requires ValidConfig(cfg) && WellFormedPrefix(cfg, Prefix(sp, InString(pre, done, [])))
    requires |h| == 4 && AllHex(h) && IsHighSurrogate(UnitOf(h))
    requires |next| == 6 && !(StartsUnit(next) && IsLowSurrogate(UnitOf(next[2..6])))
    ensures Run(cfg, StateOf(Prefix(sp, InString(pre, done, [])), before), UnitEscape(h) + next).Reject?
  {
    var raw := UnitEscape(h) + next;
    assert raw[2..6] == h && raw[6..] == next;
    assert FirstPiece(raw).None?;
    BadEscape(cfg, sp, pre, done, raw, before);
  }

  /** Two bad units, or one: the machine stops inside them. */
  lemma BadEscape(cfg: Config, sp: Spine, pre: seq<int>, done: seq<int>, raw: seq<int>, before: State)
    requires ValidConfig(cfg) && WellFormedPrefix(cfg, Prefix(sp, InString(pre, done, []))) && BadUnits(raw)
    ensures Run(cfg, StateOf(Prefix(sp, InString(pre, done, [])), before), raw).Reject?
  {
    hide Step, StateOf, WellFormedPrefix;
    var z := Prefix(sp, InString(pre, done, []));
    StepAgrees(cfg, z, before, BACKS);
    AdvanceGrows(cfg, z, BACKS);
    assert raw[..1] == [BACKS];
    StuckRun(cfg, sp, pre, done, raw, 1, before);
  }

  /** No proper beginning of a unit escape of full length is complete. */
  lemma ShortPiece(raw: seq<int>, i: nat)
    requires BadUnits(raw) && 2 <= i < |raw|
    ensures FirstPiece(raw[..i]).None?
  {
    var t := raw[..i];
    if i >= 6 {
      assert t[2..6] == raw[2..6];
    }
  }

  lemma FullTail(raw: seq<int>)
    requires BadUnits(raw)
    ensures !EscapeTail(raw) && FirstPiece(raw).None?
  {
  }
}
