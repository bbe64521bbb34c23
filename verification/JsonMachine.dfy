/** The streaming JSON parser of JSON_parser.c as a step function on values: character
    classes, the transition table, the parse buffer, the mode stack and the callback trace. */
module JsonMachine {

  datatype Option<+T> = None | Some(value: T)

  // ---------- Character classes ----------

  datatype Class =
    | C_SPACE | C_WHITE | C_LCURB | C_RCURB | C_LSQRB | C_RSQRB | C_COLON | C_COMMA
    | C_QUOTE | C_BACKS | C_SLASH | C_PLUS | C_MINUS | C_POINT | C_ZERO | C_DIGIT
    | C_LOW_A | C_LOW_B | C_LOW_C | C_LOW_D | C_LOW_E | C_LOW_F | C_LOW_L | C_LOW_N
    | C_LOW_R | C_LOW_S | C_LOW_T | C_LOW_U | C_ABCDF | C_E | C_ETC | C_STAR

  const QUOTE := 0x22
  const STAR := 0x2A
  const PLUS := 0x2B
  const COMMA := 0x2C
  const MINUS := 0x2D
  const POINT := 0x2E
  const SLASH := 0x2F
  const COLON := 0x3A
  const LSQRB := 0x5B
  const BACKS := 0x5C
  const RSQRB := 0x5D
  const LOW_U := 0x75
  const LCURB := 0x7B
  const RCURB := 0x7D

  /** The class of a non-negative character; None is a control character that is not white space. */
  function Classify(c: int): Option<Class> {
    if c >= 128 then Some(C_ETC)
    else if c == 0x20 then Some(C_SPACE)
    else if c == 0x09 || c == 0x0A || c == 0x0D then Some(C_WHITE)
    else if c < 0x20 then None
    else if 0x31 <= c <= 0x39 then Some(C_DIGIT)
    else if c == 0x30 then Some(C_ZERO)
    else if c == QUOTE then Some(C_QUOTE)
    else if c == STAR then Some(C_STAR)
    else if c == PLUS then Some(C_PLUS)
    else if c == COMMA then Some(C_COMMA)
    else if c == MINUS then Some(C_MINUS)
    else if c == POINT then Some(C_POINT)
    else if c == SLASH then Some(C_SLASH)
    else if c == COLON then Some(C_COLON)
    else if c == 0x45 then Some(C_E)
    else if 0x41 <= c <= 0x46 then Some(C_ABCDF)
    else if c == LSQRB then Some(C_LSQRB)
    else if c == BACKS then Some(C_BACKS)
    else if c == RSQRB then Some(C_RSQRB)
    else if c == 0x61 then Some(C_LOW_A)
    else if c == 0x62 then Some(C_LOW_B)
    else if c == 0x63 then Some(C_LOW_C)
    else if c == 0x64 then Some(C_LOW_D)
    else if c == 0x65 then Some(C_LOW_E)
    else if c == 0x66 then Some(C_LOW_F)
    else if c == 0x6C then Some(C_LOW_L)
    else if c == 0x6E then Some(C_LOW_N)
    else if c == 0x72 then Some(C_LOW_R)
    else if c == 0x73 then Some(C_LOW_S)
    else if c == 0x74 then Some(C_LOW_T)
    else if c == LOW_U then Some(C_LOW_U)
    else if c == LCURB then Some(C_LCURB)
    else if c == RCURB then Some(C_RCURB)
    else Some(C_ETC)
  }

  predicate IsBlank(k: Class) {
    k.C_SPACE? || k.C_WHITE?
  }

  predicate IsHexClass(k: Class) {
    k.C_ZERO? || k.C_DIGIT? || k.C_LOW_A? || k.C_LOW_B? || k.C_LOW_C? || k.C_LOW_D? || k.C_LOW_E?
    || k.C_LOW_F? || k.C_ABCDF? || k.C_E?
  }

  // ---------- States, modes, actions ----------

  datatype State =
    | GO | OK | OB | KE | CO | VA | AR | ST | ES | U1 | U2 | U3 | U4 | MI | ZE | IT | FR | E1 | E2 | E3
    | T1 | T2 | T3 | F1 | F2 | F3 | F4 | N1 | N2 | N3 | C1 | C2 | C3 | FX | D1 | D2

  datatype Mode = MODE_ARRAY | MODE_DONE | MODE_KEY | MODE_OBJECT

  datatype Type = T_NONE | T_INTEGER | T_FLOAT | T_NULL | T_TRUE | T_FALSE | T_STRING

  datatype Action =
    | CB | CE | FA | TR | NU | DE | DF | SB | MX | ZX | IX | EX | UC
    | EmptyObject | EndObject | EndArray | BeginObject | BeginArray | EndString | NextItem | KeyDone

  datatype Edge = Err | To(target: State) | Do(action: Action)

  datatype Error =
    | E_NONE | E_INVALID_CHAR | E_INVALID_KEYWORD | E_INVALID_ESCAPE_SEQUENCE | E_INVALID_UNICODE_SEQUENCE
    | E_INVALID_NUMBER | E_NESTING_DEPTH_REACHED | E_UNBALANCED_COLLECTION | E_EXPECTED_KEY | E_EXPECTED_COLON

  /** One call of the callback. Numbers carry the buffered text that strtod or sscanf is given. */
  datatype Event =
    | ArrayBegin | ArrayEnd | ObjectBegin | ObjectEnd
    | Integer(text: seq<int>) | Float(text: seq<int>)
    | Null | True | False | Str(bytes: seq<int>) | Key(bytes: seq<int>)

  /** The edges shared by every state that ends a number or follows a value. */
  function AfterValueEdge(k: Class): Edge {
    match k
    case C_SPACE => To(OK)
    case C_WHITE => To(OK)
    case C_RCURB => Do(EndObject)
    case C_RSQRB => Do(EndArray)
    case C_COMMA => Do(NextItem)
    case _ => Err
  }

  /** The edges shared by VA and AR. */
  function ValueEdge(k: Class): Edge {
    match k
    case C_LCURB => Do(BeginObject)
    case C_LSQRB => Do(BeginArray)
    case C_QUOTE => Do(SB)
    case C_SLASH => Do(CB)
    case C_MINUS => Do(MX)
    case C_ZERO => Do(ZX)
    case C_DIGIT => Do(IX)
    case C_LOW_F => Do(FA)
    case C_LOW_N => Do(NU)
    case C_LOW_T => Do(TR)
    case _ => Err
  }

  predicate IsDigitClass(k: Class) {
    k.C_ZERO? || k.C_DIGIT?
  }

  predicate IsExponentClass(k: Class) {
    k.C_LOW_E? || k.C_E?
  }

  /** The state transition table, row by row. */
  function Table(s: State, k: Class): Edge {
    match s
    case GO => if IsBlank(k) then To(GO) else if k.C_LCURB? then Do(BeginObject)
               else if k.C_LSQRB? then Do(BeginArray) else if k.C_SLASH? then Do(CB) else Err
    case OK => if k.C_SLASH? then Do(CB) else AfterValueEdge(k)
    case OB => if IsBlank(k) then To(OB) else if k.C_RCURB? then Do(EmptyObject)
               else if k.C_QUOTE? then Do(SB) else if k.C_SLASH? then Do(CB) else Err
    case KE => if IsBlank(k) then To(KE) else if k.C_QUOTE? then Do(SB) else if k.C_SLASH? then Do(CB) else Err
    case CO => if IsBlank(k) then To(CO) else if k.C_COLON? then Do(KeyDone) else if k.C_SLASH? then Do(CB) else Err
    case VA => if IsBlank(k) then To(VA) else ValueEdge(k)
    case AR => if IsBlank(k) then To(AR) else if k.C_RSQRB? then Do(EndArray) else ValueEdge(k)
    case ST => if k.C_WHITE? then Err else if k.C_QUOTE? then Do(EndString) else if k.C_BACKS? then Do(EX) else To(ST)
    case ES => if k.C_QUOTE? || k.C_BACKS? || k.C_SLASH? || k.C_LOW_B? || k.C_LOW_F? || k.C_LOW_N? || k.C_LOW_R?
                  || k.C_LOW_T? then To(ST) else if k.C_LOW_U? then To(U1) else Err
    case U1 => if IsHexClass(k) then To(U2) else Err
    case U2 => if IsHexClass(k) then To(U3) else Err
    case U3 => if IsHexClass(k) then To(U4) else Err
    case U4 => if IsHexClass(k) then Do(UC) else Err
    case MI => if k.C_ZERO? then To(ZE) else if k.C_DIGIT? then To(IT) else Err
    case ZE => if k.C_SLASH? then Do(CB) else if k.C_POINT? then Do(DF) else AfterValueEdge(k)
    case IT => if k.C_SLASH? then Do(CB) else if k.C_POINT? then Do(DF) else if IsDigitClass(k) then To(IT)
               else if IsExponentClass(k) then Do(DE) else AfterValueEdge(k)
    case FR => if k.C_SLASH? then Do(CB) else if IsDigitClass(k) then To(FR)
               else if IsExponentClass(k) then To(E1) else AfterValueEdge(k)
    case E1 => if k.C_PLUS? || k.C_MINUS? then To(E2) else if IsDigitClass(k) then To(E3) else Err
    case E2 => if IsDigitClass(k) then To(E3) else Err
    case E3 => if IsDigitClass(k) then To(E3) else AfterValueEdge(k)
    case T1 => if k.C_LOW_R? then To(T2) else Err
    case T2 => if k.C_LOW_U? then To(T3) else Err
    case T3 => if k.C_SLASH? then Do(CB) else if k.C_LOW_E? then To(OK) else Err
    case F1 => if k.C_LOW_A? then To(F2) else Err
    case F2 => if k.C_LOW_L? then To(F3) else Err
    case F3 => if k.C_LOW_S? then To(F4) else Err
    case F4 => if k.C_SLASH? then Do(CB) else if k.C_LOW_E? then To(OK) else Err
    case N1 => if k.C_LOW_U? then To(N2) else Err
    case N2 => if k.C_LOW_L? then To(N3) else Err
    case N3 => if k.C_SLASH? then Do(CB) else if k.C_LOW_L? then To(OK) else Err
    case C1 => if k.C_STAR? then To(C2) else Err
    case C2 => if k.C_STAR? then To(C3) else To(C2)
    case C3 => if k.C_SLASH? then Do(CE) else if k.C_STAR? then To(C3) else To(C2)
    case FX => if IsDigitClass(k) then To(FR) else if IsExponentClass(k) then To(E1) else AfterValueEdge(k)
    case D1 => if k.C_BACKS? then To(D2) else Err
    case D2 => if k.C_LOW_U? then To(U1) else Err
  }

  // ---------- Parser state ----------

  datatype Config = Config(depth: int, allowComments: bool, manualFloats: bool)

  /** A limited nesting depth. */
  predicate ValidConfig(cfg: Config) {
    1 <= cfg.depth
  }

  datatype PState = PState(
    state: State, before: State, typ: Type, escaped: bool, comment: bool, high: int,
    stack: seq<Mode>, buf: seq<int>, events: seq<Event>)

  datatype Outcome = Accept(st: PState) | Reject(error: Error)

  const INIT := PState(GO, GO, T_NONE, false, false, 0, [MODE_DONE], [], [])

  function SetError(s: State, c: int): Error {
    match s
    case GO => if c == LCURB || c == RCURB || c == LSQRB || c == RSQRB then E_UNBALANCED_COLLECTION else E_INVALID_CHAR
    case OB => E_EXPECTED_KEY
    case AR => E_UNBALANCED_COLLECTION
    case CO => E_EXPECTED_COLON
    case KE => E_EXPECTED_KEY
    case U1 => E_INVALID_UNICODE_SEQUENCE
    case U2 => E_INVALID_UNICODE_SEQUENCE
    case U3 => E_INVALID_UNICODE_SEQUENCE
    case U4 => E_INVALID_UNICODE_SEQUENCE
    case D1 => E_INVALID_UNICODE_SEQUENCE
    case D2 => E_INVALID_UNICODE_SEQUENCE
    case T1 => E_INVALID_KEYWORD
    case T2 => E_INVALID_KEYWORD
    case T3 => E_INVALID_KEYWORD
    case F1 => E_INVALID_KEYWORD
    case F2 => E_INVALID_KEYWORD
    case F3 => E_INVALID_KEYWORD
    case F4 => E_INVALID_KEYWORD
    case N1 => E_INVALID_KEYWORD
    case N2 => E_INVALID_KEYWORD
    case N3 => E_INVALID_KEYWORD
    case MI => E_INVALID_NUMBER
    case ZE => E_INVALID_NUMBER
    case IT => E_INVALID_NUMBER
    case FR => E_INVALID_NUMBER
    case E1 => E_INVALID_NUMBER
    case E2 => E_INVALID_NUMBER
    case E3 => E_INVALID_NUMBER
    case _ => E_INVALID_CHAR
  }

  // ---------- Mode stack ----------

  /** top == |stack| - 1; the limit test is top == depth, and a negative depth is no limit. */
  function Push(cfg: Config, stack: seq<Mode>, m: Mode): Option<seq<Mode>> {
    if cfg.depth >= 0 && |stack| - 1 == cfg.depth then None else Some(stack + [m])
  }

  function Pop(stack: seq<Mode>, m: Mode): Option<seq<Mode>> {
    if |stack| == 0 || stack[|stack| - 1] != m then None else Some(stack[..|stack| - 1])
  }

  function Top(stack: seq<Mode>): Mode {
    if |stack| == 0 then MODE_DONE else stack[|stack| - 1]
  }

  // ---------- Parse buffer ----------

  function DropLast(b: seq<int>): seq<int> {
    if |b| == 0 then [] else b[..|b| - 1]
  }

  /** What add_escaped_char_to_parse_buffer puts in place of the backslash. */
  function EscapedBytes(c: int): Option<seq<int>> {
    if c == 0x62 then Some([0x08])
    else if c == 0x66 then Some([0x0C])
    else if c == 0x6E then Some([0x0A])
    else if c == 0x72 then Some([0x0D])
    else if c == 0x74 then Some([0x09])
    else if c == QUOTE || c == BACKS || c == SLASH then Some([c])
    else if c == LOW_U then Some([BACKS, LOW_U])
    else None
  }

  function AddChar(s: PState, c: int, k: Class): Outcome {
    if s.escaped then
      match EscapedBytes(c)
      case None => Reject(E_INVALID_ESCAPE_SEQUENCE)
      case Some(bs) => Accept(s.(escaped := false, buf := DropLast(s.buf) + bs))
    else if !s.comment && (s.typ != T_NONE || !IsBlank(k)) then
      Accept(s.(buf := s.buf + [c % 256]))
    else
      Accept(s)
  }

  /** The event that parse_parse_buffer reports for the current type and buffer. */
  function PendingEvent(t: Type, b: seq<int>): seq<Event> {
    match t
    case T_NONE => []
    case T_INTEGER => [Integer(b)]
    case T_FLOAT => [Float(b)]
    case T_NULL => [Null]
    case T_TRUE => [True]
    case T_FALSE => [False]
    case T_STRING => [Str(b)]
  }

  function Flush(s: PState): PState {
    s.(events := s.events + PendingEvent(s.typ, s.buf), buf := [])
  }

  function DropChar(s: PState): PState {
    s.(buf := DropLast(s.buf))
  }

  // ---------- \u escapes ----------

  /** The value decode_unicode_char computes for one hexadecimal digit. */
  function HexDigit(x: int): int {
    if x >= 0x61 then x - (0x61 - 10)
    else if x >= 0x41 then x - (0x41 - 10)
    else x / 64 * 64 + x % 16
  }

  function HexUnit(h: seq<int>): int
    requires |h| == 4
  {
    HexDigit(h[0]) * 4096 + HexDigit(h[1]) * 256 + HexDigit(h[2]) * 16 + HexDigit(h[3])
  }

  predicate IsHighSurrogate(u: int) {
    0xD800 <= u < 0xDC00
  }

  predicate IsLowSurrogate(u: int) {
    0xDC00 <= u < 0xE000
  }

  function SurrogatePair(hi: int, lo: int): int {
    (hi % 1024) * 1024 + lo % 1024 + 0x10000
  }

  const LEAD_BITS: seq<int> := [0x00, 0xC0, 0xE0, 0xF0]

  function Pow64(n: nat): (p: int)
    ensures p >= 1
  {
    if n == 0 then 1 else 64 * Pow64(n - 1)
  }

  /** The n continuation bytes that carry the low 6 * n bits of u, most significant first. */
  function TrailBytes(u: int, n: nat): seq<int> {
    if n == 0 then [] else [u / Pow64(n - 1) % 64 + 0x80] + TrailBytes(u, n - 1)
  }

  function EncodeWithTrail(u: int, n: nat): seq<int>
    requires n < 4
  {
    [u / Pow64(n) + LEAD_BITS[n]] + TrailBytes(u, n)
  }

  /** decode_unicode_char once the digits are known: the bytes to append and the surrogate to remember. */
  function DecodeUnit(high: int, u: int): Option<(seq<int>, int)> {
    if high != 0 then
      if IsLowSurrogate(u) then Some((EncodeWithTrail(SurrogatePair(high, u), 3), 0)) else None
    else if u < 0x80 then Some((EncodeWithTrail(u, 0), 0))
    else if u < 0x800 then Some((EncodeWithTrail(u, 1), 0))
    else if IsHighSurrogate(u) then Some(([], u))
    else if IsLowSurrogate(u) then None
    else Some((EncodeWithTrail(u, 2), 0))
  }

  function DecodeUnicode(s: PState): Option<PState> {
    if |s.buf| < 6 then None
    else
      match DecodeUnit(s.high, HexUnit(s.buf[|s.buf| - 4..]))
      case None => None
      case Some(r) => Some(s.(buf := s.buf[..|s.buf| - 6] + r.0, high := r.1))
  }

  // ---------- Actions ----------

  function CloseContainer(s: PState, m: Mode, e: Event): Outcome {
    var t := Flush(DropChar(s));
    match Pop(s.stack, m)
    case None => Reject(E_UNBALANCED_COLLECTION)
    case Some(st) => Accept(t.(events := t.events + [e], stack := st, typ := T_NONE, state := OK))
  }

  function OpenContainer(cfg: Config, s: PState, m: Mode, e: Event, next: State): Outcome {
    match Push(cfg, s.stack, m)
    case None => Reject(E_NESTING_DEPTH_REACHED)
    case Some(st) => Accept(DropChar(s).(events := s.events + [e], stack := st, state := next))
  }

  function BeginComment(cfg: Config, s: PState): Outcome {
    if !cfg.allowComments then Reject(E_NONE)
    else
      var t := Flush(DropChar(s));
      var back := if Top(s.stack).MODE_ARRAY? || Top(s.stack).MODE_OBJECT?
                  then if s.state.VA? || s.state.AR? then s.state else OK
                  else s.state;
      Accept(t.(before := back, typ := T_NONE, state := C1, comment := true))
  }

  function FinishString(s: PState): Outcome {
    var t := DropChar(s);
    match Top(s.stack)
    case MODE_KEY => Accept(t.(typ := T_NONE, state := CO, events := t.events + [Key(t.buf)], buf := []))
    case MODE_ARRAY => Accept(Flush(t).(typ := T_NONE, state := OK))
    case MODE_OBJECT => Accept(Flush(t).(typ := T_NONE, state := OK))
    case MODE_DONE => Reject(E_NONE)
  }

  function NextElement(cfg: Config, s: PState): Outcome {
    var t := Flush(DropChar(s));
    match Top(s.stack)
    case MODE_OBJECT =>
      (match Pop(s.stack, MODE_OBJECT)
       case None => Reject(E_NONE)
       case Some(st) =>
         match Push(cfg, st, MODE_KEY)
         case None => Reject(E_NESTING_DEPTH_REACHED)
         case Some(st2) => Accept(t.(stack := st2, typ := T_NONE, state := KE)))
    case MODE_ARRAY => Accept(t.(typ := T_NONE, state := VA))
    case _ => Reject(E_NONE)
  }

  function ColonAction(cfg: Config, s: PState): Outcome {
    match Pop(s.stack, MODE_KEY)
    case None => Reject(E_NONE)
    case Some(st) =>
      match Push(cfg, st, MODE_OBJECT)
      case None => Reject(E_NESTING_DEPTH_REACHED)
      case Some(st2) => Accept(DropChar(s).(stack := st2, state := VA))
  }

  function EmptyObjectAction(s: PState): Outcome {
    match Pop(s.stack, MODE_KEY)
    case None => Reject(E_NONE)
    case Some(st) => Accept(s.(buf := [], events := s.events + [ObjectEnd], stack := st, state := OK))
  }

  function Perform(cfg: Config, s: PState, a: Action): Outcome {
    match a
    case UC =>
      (match DecodeUnicode(s)
       case None => Reject(E_INVALID_UNICODE_SEQUENCE)
       case Some(t) => Accept(t.(state := if t.high != 0 then D1 else ST)))
    case EX => Accept(s.(escaped := true, state := ES))
    case MX => Accept(s.(typ := T_INTEGER, state := MI))
    case ZX => Accept(s.(typ := T_INTEGER, state := ZE))
    case IX => Accept(s.(typ := T_INTEGER, state := IT))
    case DE => Accept(s.(typ := T_FLOAT, state := E1))
    case DF => Accept(s.(typ := T_FLOAT, state := FX))
    case SB => Accept(s.(buf := [], typ := T_STRING, state := ST))
    case NU => Accept(s.(typ := T_NULL, state := N1))
    case FA => Accept(s.(typ := T_FALSE, state := F1))
    case TR => Accept(s.(typ := T_TRUE, state := T1))
    case CE => Accept(s.(comment := false, state := s.before))
    case CB => BeginComment(cfg, s)
    case EmptyObject => EmptyObjectAction(s)
    case EndObject => CloseContainer(s, MODE_OBJECT, ObjectEnd)
    case EndArray => CloseContainer(s, MODE_ARRAY, ArrayEnd)
    case BeginObject => OpenContainer(cfg, s, MODE_KEY, ObjectBegin, OB)
    case BeginArray => OpenContainer(cfg, s, MODE_ARRAY, ArrayBegin, AR)
    case EndString => FinishString(s)
    case NextItem => NextElement(cfg, s)
    case KeyDone => ColonAction(cfg, s)
  }

  /** JSON_parser_char. */
  function Step(cfg: Config, s: PState, c: int): Outcome {
    if c < 0 then Reject(E_INVALID_CHAR)
    else
      match Classify(c)
      case None => Reject(SetError(s.state, c))
      case Some(k) => StepClass(cfg, s, c, k)
  }

  function StepClass(cfg: Config, s: PState, c: int, k: Class): Outcome {
    match AddChar(s, c, k)
    case Reject(e) => Reject(e)
    case Accept(t) =>
      match Table(t.state, k)
      case Err => Reject(SetError(t.state, c))
      case To(st) => Accept(t.(state := st))
      case Do(a) => Perform(cfg, t, a)
  }

  /** JSON_parser_char on every character of the input; the first false return is final. */
  function Run(cfg: Config, s: PState, input: seq<int>): Outcome
    decreases |input|
  {
    if |input| == 0 then Accept(s)
    else
      match Step(cfg, s, input[0])
      case Reject(e) => Reject(e)
      case Accept(t) => Run(cfg, t, input[1..])
  }

  /** The verdict of JSON_parser_done. */
  predicate IsComplete(s: PState) {
    (s.state.OK? || s.state.GO?) && Pop(s.stack, MODE_DONE).Some?
  }

  /** The verdict over a whole text: every call true, then done true. */
  predicate Accepts(cfg: Config, input: seq<int>) {
    var r := Run(cfg, INIT, input);
    r.Accept? && IsComplete(r.st)
  }

  lemma {:induction false} RunConcat(cfg: Config, s: PState, a: seq<int>, b: seq<int>)
    ensures Run(cfg, s, a + b) ==
            (match Run(cfg, s, a) case Reject(e) => Reject(e) case Accept(t) => Run(cfg, t, b))
    decreases |a|
  {
    if |a| == 0 {
      assert a + b == b;
    } else {
      assert (a + b)[0] == a[0] && (a + b)[1..] == a[1..] + b;
      match Step(cfg, s, a[0])
      case Reject(e) =>
      case Accept(t) => RunConcat(cfg, t, a[1..], b);
    }
  }

  lemma RunOne(cfg: Config, s: PState, c: int)
    ensures Run(cfg, s, [c]) == Step(cfg, s, c)
  {
    match Step(cfg, s, c)
    case Reject(e) =>
    case Accept(t) => assert Run(cfg, t, []) == Accept(t);
  }
}
