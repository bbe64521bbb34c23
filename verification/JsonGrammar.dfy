/** The language the transition table accepts, as trees: string literals with their unescaping,
    number literals, values with every blank of the text, and the callback trace of a tree. */
module JsonGrammar {
  import opened JsonMachine

  // ---------- Unicode ----------

  predicate IsScalar(u: int) {
    0 <= u < 0xD800 || 0xE000 <= u < 0x110000
  }

  /** The UTF-8 bytes of a scalar value, by the table in section 3 of RFC 3629. */
  function Utf8(u: int): seq<int> {
    if u < 0x80 then [u]
    else if u < 0x800 then [0xC0 + u / 0x40, 0x80 + u % 0x40]
    else if u < 0x10000 then [0xE0 + u / 0x1000, 0x80 + u / 0x40 % 0x40, 0x80 + u % 0x40]
    else [0xF0 + u / 0x40000, 0x80 + u / 0x1000 % 0x40, 0x80 + u / 0x40 % 0x40, 0x80 + u % 0x40]
  }

  predicate IsTrail(b: int) {
    0x80 <= b < 0xC0
  }

  /** A strict decoder for exactly one scalar value: no overlong form, no surrogate, nothing above 0x10FFFF. */
  function Utf8Decode(b: seq<int>): Option<int> {
    if |b| == 1 && 0 <= b[0] < 0x80 then Some(b[0])
    else if |b| == 2 && 0xC2 <= b[0] < 0xE0 && IsTrail(b[1]) then
      Some((b[0] - 0xC0) * 0x40 + (b[1] - 0x80))
    else if |b| == 3 && 0xE0 <= b[0] < 0xF0 && IsTrail(b[1]) && IsTrail(b[2]) then
      var u := (b[0] - 0xE0) * 0x1000 + (b[1] - 0x80) * 0x40 + (b[2] - 0x80);
      if u >= 0x800 && IsScalar(u) then Some(u) else None
    else if |b| == 4 && 0xF0 <= b[0] < 0xF5 && IsTrail(b[1]) && IsTrail(b[2]) && IsTrail(b[3]) then
      var u := (b[0] - 0xF0) * 0x40000 + (b[1] - 0x80) * 0x1000 + (b[2] - 0x80) * 0x40 + (b[3] - 0x80);
      if u >= 0x10000 && IsScalar(u) then Some(u) else None
    else None
  }

  predicate IsHex(c: int) {
    0x30 <= c <= 0x39 || 0x41 <= c <= 0x46 || 0x61 <= c <= 0x66
  }

  function HexValue(c: int): int
    requires IsHex(c)
  {
    if c <= 0x39 then c - 0x30 else if c <= 0x46 then c - 0x41 + 10 else c - 0x61 + 10
  }

  predicate AllHex(s: seq<int>) {
    forall i :: 0 <= i < |s| ==> IsHex(s[i])
  }

  /** The 16-bit unit that four hexadecimal digits denote. */
  function UnitOf(h: seq<int>): int
    requires |h| == 4 && AllHex(h)
  {
    HexValue(h[0]) * 4096 + HexValue(h[1]) * 256 + HexValue(h[2]) * 16 + HexValue(h[3])
  }

  // ---------- String literals ----------

  function SimpleEscape(c: int): Option<int> {
    if c == 0x62 then Some(0x08)
    else if c == 0x66 then Some(0x0C)
    else if c == 0x6E then Some(0x0A)
    else if c == 0x72 then Some(0x0D)
    else if c == 0x74 then Some(0x09)
    else if c == QUOTE || c == BACKS || c == SLASH then Some(c)
    else None
  }

  predicate IsPlain(c: int) {
    c >= 0x20 && c != QUOTE && c != BACKS
  }

  /** True if the text starts with a backslash, a u and four hexadecimal digits. */
  predicate StartsUnit(raw: seq<int>) {
    |raw| >= 6 && raw[0] == BACKS && raw[1] == LOW_U && AllHex(raw[2..6])
  }

  /** The length of the first character or escape of a literal, and the bytes it stands for. */
  function FirstPiece(raw: seq<int>): (r: Option<(int, seq<int>)>)
    ensures r.Some? ==> 1 <= r.value.0 <= |raw|
  {
    if |raw| == 0 then None
    else if raw[0] != BACKS then
      if IsPlain(raw[0]) then Some((1, [raw[0] % 256])) else None
    else if |raw| == 1 then None
    else if raw[1] != LOW_U then
      match SimpleEscape(raw[1])
      case None => None
      case Some(b) => Some((2, [b]))
    else if !StartsUnit(raw) then None
    else
      var u := UnitOf(raw[2..6]);
      if IsLowSurrogate(u) then None
      else if !IsHighSurrogate(u) then Some((6, Utf8(u)))
      else if !StartsUnit(raw[6..]) then None
      else
        var lo := UnitOf(raw[6..][2..6]);
        if IsLowSurrogate(lo) then Some((12, Utf8(SurrogatePair(u, lo)))) else None
  }

  /** The bytes a string literal denotes; None if it is no string literal. */
  function Unescape(raw: seq<int>): Option<seq<int>>
    decreases |raw|
  {
    if |raw| == 0 then Some([])
    else
      match FirstPiece(raw)
      case None => None
      case Some(p) =>
        match Unescape(raw[p.0..])
        case None => None
        case Some(rest) => Some(p.1 + rest)
  }

  function Payload(raw: seq<int>): seq<int> {
    match Unescape(raw)
    case None => []
    case Some(b) => b
  }

  lemma FirstPieceExtends(a: seq<int>, b: seq<int>)
    requires FirstPiece(a).Some?
    ensures FirstPiece(a + b) == FirstPiece(a)
  {
    var ab := a + b;
    assert ab[0] == a[0];
    if a[0] == BACKS && |a| > 1 && a[1] == LOW_U {
      assert ab[2..6] == a[2..6];
      if IsHighSurrogate(UnitOf(a[2..6])) {
        assert StartsUnit(a[6..]);
        assert ab[6..][2..6] == a[6..][2..6];
        assert ab[6..][0] == a[6..][0] && ab[6..][1] == a[6..][1];
        assert StartsUnit(ab[6..]);
      }
    }
  }

  /** Unescaping distributes over concatenation of complete literals. */
  lemma {:induction false} UnescapeConcat(a: seq<int>, b: seq<int>)
    requires Unescape(a).Some?
    ensures Unescape(a + b) ==
            (match Unescape(b) case None => None case Some(y) => Some(Unescape(a).value + y))
    decreases |a|
  {
    hide FirstPiece;
    if |a| == 0 {
      assert a + b == b;
      match Unescape(b)
      case None =>
      case Some(y) => assert [] + y == y;
    } else {
      FirstPieceExtends(a, b);
      var n := FirstPiece(a).value.0;
      assert (a + b)[n..] == a[n..] + b;
      UnescapeConcat(a[n..], b);
      match Unescape(b)
      case None =>
      case Some(y) =>
        var p, q := FirstPiece(a).value.1, Unescape(a[n..]).value;
        assert p + (q + y) == (p + q) + y;
    }
  }

  lemma UnescapePiece(a: seq<int>, piece: seq<int>)
    requires Unescape(a).Some?
    requires FirstPiece(piece).Some? && FirstPiece(piece).value.0 == |piece|
    ensures Unescape(a + piece) == Some(Unescape(a).value + FirstPiece(piece).value.1)
  {
    assert piece[|piece|..] == [];
    var p := FirstPiece(piece).value.1;
    assert p + [] == p;
    UnescapeConcat(a, piece);
  }

  // ---------- Number literals ----------

  predicate IsDigit(c: int) {
    0x30 <= c <= 0x39
  }

  predicate AllDigits(s: seq<int>) {
    forall i :: 0 <= i < |s| ==> IsDigit(s[i])
  }

  datatype Exponent = Exponent(marker: int, sign: seq<int>, digits: seq<int>)

  datatype Number = Number(neg: bool, whole: seq<int>, frac: Option<seq<int>>, exp: Option<Exponent>)

  predicate IsZero(n: Number) {
    n.whole == [0x30]
  }

  predicate ExponentShape(e: Exponent) {
    (e.marker == 0x65 || e.marker == 0x45)
    && (e.sign == [] || e.sign == [PLUS] || e.sign == [MINUS])
    && AllDigits(e.digits)
  }

  /** A possibly unfinished number literal of the table's grammar, with at least one character. */
  predicate NumberShape(n: Number) {
    && AllDigits(n.whole)
    && (|n.whole| > 1 ==> n.whole[0] != 0x30)
    && (n.whole == [] ==> n.neg && n.frac.None? && n.exp.None?)
    && (n.frac.Some? ==> AllDigits(n.frac.value))
    && (n.exp.Some? ==> ExponentShape(n.exp.value) && (IsZero(n) ==> n.frac.Some?))
  }

  /** The table's number literals: the fraction may have no digits, and a bare zero takes no exponent. */
  predicate WellFormedNumber(n: Number) {
    NumberShape(n) && n.whole != [] && (n.exp.Some? ==> n.exp.value.digits != [])
  }

  function FractionText(f: Option<seq<int>>): seq<int> {
    match f
    case None => []
    case Some(d) => [POINT] + d
  }

  function ExponentText(e: Option<Exponent>): seq<int> {
    match e
    case None => []
    case Some(x) => [x.marker] + x.sign + x.digits
  }

  function NumberText(n: Number): seq<int> {
    (if n.neg then [MINUS] else []) + n.whole + FractionText(n.frac) + ExponentText(n.exp)
  }

  predicate IsFloat(n: Number) {
    n.frac.Some? || n.exp.Some?
  }

  // ---------- Values ----------

  predicate IsBlankChar(c: int) {
    c == 0x20 || c == 0x09 || c == 0x0A || c == 0x0D
  }

  predicate Blank(s: seq<int>) {
    forall i :: 0 <= i < |s| ==> IsBlankChar(s[i])
  }

  datatype Value =
    | VString(raw: seq<int>) | VNumber(n: Number) | VTrue | VFalse | VNull
    | VEmptyArray(pad: seq<int>) | VArray(items: Items)
    | VEmptyObject(pad: seq<int>) | VObject(members: Members)

  /** A list that grows at its end: each value with the blanks before and after it. */
  datatype Items = NoItems | Items(init: Items, pre: seq<int>, v: Value, post: seq<int>)

  datatype Members = NoMembers
    | Members(init: Members, kpre: seq<int>, key: seq<int>, kpost: seq<int>, pre: seq<int>, v: Value, post: seq<int>)

  /** A whole text: one container between blanks. */
  datatype Document = Document(pre: seq<int>, root: Value, post: seq<int>)

  predicate IsContainer(v: Value) {
    v.VEmptyArray? || v.VArray? || v.VEmptyObject? || v.VObject?
  }

  predicate WellFormed(v: Value) {
    match v
    case VString(raw) => Unescape(raw).Some?
    case VNumber(n) => WellFormedNumber(n)
    case VEmptyArray(pad) => Blank(pad)
    case VArray(items) => items.Items? && WellFormedItems(items)
    case VEmptyObject(pad) => Blank(pad)
    case VObject(ms) => ms.Members? && WellFormedMembers(ms)
    case _ => true
  }

  predicate WellFormedItems(items: Items) {
    match items
    case NoItems => true
    case Items(init, pre, v, post) => WellFormedItems(init) && Blank(pre) && WellFormed(v) && Blank(post)
  }

  predicate WellFormedMembers(ms: Members) {
    match ms
    case NoMembers => true
    case Members(init, kpre, key, kpost, pre, v, post) =>
      WellFormedMembers(init) && Blank(kpre) && Unescape(key).Some? && Blank(kpost) && Blank(pre)
      && WellFormed(v) && Blank(post)
  }

  predicate WellFormedDocument(d: Document) {
    Blank(d.pre) && IsContainer(d.root) && WellFormed(d.root) && Blank(d.post)
  }

  function Max(a: nat, b: nat): nat {
    if a < b then b else a
  }

  /** How many containers are open at the deepest point of a value. */
  function Height(v: Value): nat {
    match v
    case VEmptyArray(_) => 1
    case VEmptyObject(_) => 1
    case VArray(items) => 1 + ItemsHeight(items)
    case VObject(ms) => 1 + MembersHeight(ms)
    case _ => 0
  }

  function ItemsHeight(items: Items): nat {
    match items
    case NoItems => 0
    case Items(init, _, v, _) => Max(ItemsHeight(init), Height(v))
  }

  function MembersHeight(ms: Members): nat {
    match ms
    case NoMembers => 0
    case Members(init, _, _, _, _, v, _) => Max(MembersHeight(init), Height(v))
  }

  const TRUE_TEXT: seq<int> := [0x74, 0x72, 0x75, 0x65]
  const FALSE_TEXT: seq<int> := [0x66, 0x61, 0x6C, 0x73, 0x65]
  const NULL_TEXT: seq<int> := [0x6E, 0x75, 0x6C, 0x6C]

  function Quoted(raw: seq<int>): seq<int> {
    [QUOTE] + raw + [QUOTE]
  }

  /** The printer: the text of a value, blanks included. */
  function Text(v: Value): seq<int> {
    match v
    case VString(raw) => Quoted(raw)
    case VNumber(n) => NumberText(n)
    case VTrue => TRUE_TEXT
    case VFalse => FALSE_TEXT
    case VNull => NULL_TEXT
    case VEmptyArray(pad) => [LSQRB] + pad + [RSQRB]
    case VArray(items) => [LSQRB] + ItemsText(items) + [RSQRB]
    case VEmptyObject(pad) => [LCURB] + pad + [RCURB]
    case VObject(ms) => [LCURB] + MembersText(ms) + [RCURB]
  }

  function Separator(first: bool): seq<int> {
    if first then [] else [COMMA]
  }

  function ItemsText(items: Items): seq<int> {
    match items
    case NoItems => []
    case Items(init, pre, v, post) => ItemsText(init) + Separator(init.NoItems?) + pre + Text(v) + post
  }

  function MembersText(ms: Members): seq<int> {
    match ms
    case NoMembers => []
    case Members(init, kpre, key, kpost, pre, v, post) =>
      MembersText(init) + Separator(init.NoMembers?) + kpre + Quoted(key) + kpost + [COLON] + pre + Text(v) + post
  }

  function DocumentText(d: Document): seq<int> {
    d.pre + Text(d.root) + d.post
  }

  /** The events of a value in document order. A number is reported when the character after its trailing
      blanks arrives, and its text includes those blanks. */
  function Trace(v: Value, post: seq<int>): seq<Event> {
    match v
    case VString(raw) => [Str(Payload(raw))]
    case VNumber(n) => if IsFloat(n) then [Float(NumberText(n) + post)] else [Integer(NumberText(n) + post)]
    case VTrue => [True]
    case VFalse => [False]
    case VNull => [Null]
    case VEmptyArray(_) => [ArrayBegin, ArrayEnd]
    case VArray(items) => [ArrayBegin] + ItemsTrace(items) + [ArrayEnd]
    case VEmptyObject(_) => [ObjectBegin, ObjectEnd]
    case VObject(ms) => [ObjectBegin] + MembersTrace(ms) + [ObjectEnd]
  }

  function ItemsTrace(items: Items): seq<Event> {
    match items
    case NoItems => []
    case Items(init, _, v, post) => ItemsTrace(init) + Trace(v, post)
  }

  function MembersTrace(ms: Members): seq<Event> {
    match ms
    case NoMembers => []
    case Members(init, _, key, _, _, v, post) => MembersTrace(init) + [Key(Payload(key))] + Trace(v, post)
  }
}
