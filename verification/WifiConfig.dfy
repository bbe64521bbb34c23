/** The Wi-Fi settings file: what is saved, and what is read back from it. */
module WifiConfig {

  const LINE_SIZE := 128
  const SSID_NAME_MAX := 16
  const PASSWORD_LENGTH_MAX := 32
  const ADDRESS_LENGTH := 6

  /** The saved fields. The strings are C strings in fixed arrays: they hold no NUL and leave room for one. */
  datatype Config = Config(ssid: string, password: string, security: nat, channel: nat, address: seq<nat>)

  predicate ValidConfig(c: Config) {
    && c.security < 256 && c.channel < 256
    && |c.address| == ADDRESS_LENGTH && (forall i :: 0 <= i < ADDRESS_LENGTH ==> c.address[i] < 256)
    && |c.ssid| < SSID_NAME_MAX && |c.password| < PASSWORD_LENGTH_MAX
    && '\0' !in c.ssid && '\0' !in c.password
  }

  /* Printing. */

  function Digit(n: nat): char
    requires n < 16
  {
    if n < 10 then '0' + n as char else 'a' + (n - 10) as char
  }

  /** %d */
  function Decimal(n: nat): string {
    if n < 10 then [Digit(n)] else Decimal(n / 10) + [Digit(n % 10)]
  }

  /** %02x */
  function Hex2(b: nat): string
    requires b < 256
  {
    [Digit(b / 16), Digit(b % 16)]
  }

  function Address(bytes: seq<nat>): string
    requires forall i :: 0 <= i < |bytes| ==> bytes[i] < 256
  {
    if bytes == [] then ""
    else if |bytes| == 1 then Hex2(bytes[0])
    else Hex2(bytes[0]) + "-" + Address(bytes[1..])
  }

  function SavedPassword(c: Config): string {
    if c.security != 0 then c.password else ""
  }

  /** The lines of the file, without their line feeds. */
  function Lines(c: Config): seq<string>
    requires ValidConfig(c)
  {
    ["SSID=" + c.ssid, "password=" + SavedPassword(c), "security=" + Decimal(c.security),
     "channel=" + Decimal(c.channel), "addr=" + Address(c.address)]
  }

  function Join(lines: seq<string>): string {
    if lines == [] then "" else lines[0] + "\n" + Join(lines[1..])
  }

  /** _save_cfg */
  function Save(c: Config): string
    requires ValidConfig(c)
  {
    Join(Lines(c))
  }

  /* Parsing. */

  /** _get_line: the characters up to the line feed or the end, without carriage returns. */
  function GetLine(file: string): (r: (string, string))
    ensures |r.0| + |r.1| <= |file|
    ensures '\r' !in r.0 && '\n' !in r.0
  {
    if file == "" then ("", "")
    else if file[0] == '\n' then ("", file[1..])
    else
      var (line, rest) := GetLine(file[1..]);
      if file[0] == '\r' then (line, rest) else ([file[0]] + line, rest)
  }

  /** The string a C function sees in the buffer. */
  function CString(buffer: string): string {
    if buffer == "" || buffer[0] == '\0' then "" else [buffer[0]] + CString(buffer[1..])
  }

  function Lower(c: char): char {
    if 'A' <= c <= 'Z' then c - 'A' + 'a' else c
  }

  /** str_begin_with; t is one of the keys and has no NUL. */
  predicate BeginsWith(s: string, t: string) {
    |t| <= |s| && forall i :: 0 <= i < |t| ==> Lower(s[i]) == Lower(t[i])
  }

  function ToHex(c: char): int {
    if '0' <= c <= '9' then c as int - '0' as int
    else if 'a' <= c <= 'f' then c as int - 'a' as int + 10
    else if 'A' <= c <= 'F' then c as int - 'A' as int + 10
    else -1
  }

  /** (tohex(a) << 4) | tohex(b), cut to eight bits; tohex is -1 for a character that is no digit. */
  function HexByte(a: char, b: char): nat {
    if ToHex(b) < 0 then 255
    else if ToHex(a) < 0 then 240 + ToHex(b)
    else ToHex(a) * 16 + ToHex(b)
  }

  /** The buffer is zeroed behind the line. */
  function At(line: string, i: nat): char {
    if i < |line| then line[i] else '\0'
  }

  predicate IsDigit(c: char) {
    '0' <= c <= '9'
  }

  function AtoiDigits(s: string, value: nat): nat {
    if s == "" || !IsDigit(s[0]) then value else AtoiDigits(s[1..], value * 10 + (s[0] as int - '0' as int))
  }

  /** atoi, without overflow. */
  function Atoi(s: string): int {
    if s == "" then 0
    else if s[0] == ' ' || ('\t' <= s[0] <= '\r') then Atoi(s[1..])
    else if s[0] == '-' then -(AtoiDigits(s[1..], 0) as int)
    else if s[0] == '+' then AtoiDigits(s[1..], 0)
    else AtoiDigits(s, 0)
  }

  /** The address loop from byte index on. */
  function LoadAddress(line: string, at: nat, address: seq<nat>, index: nat): seq<nat>
    requires |address| == ADDRESS_LENGTH && index <= ADDRESS_LENGTH
    decreases ADDRESS_LENGTH - index
  {
    if index == ADDRESS_LENGTH || At(line, at) == '\0' then address
    else LoadAddress(line, at + 3, address[index := HexByte(At(line, at), At(line, at + 1))], index + 1)
  }

  function LoadLine(c: Config, buffer: string): Config
    requires |c.address| == ADDRESS_LENGTH
  {
    var line := CString(buffer);
    if BeginsWith(line, "SSID=") then c.(ssid := line[5..])
    else if BeginsWith(line, "password=") then c.(password := line[9..])
    else if BeginsWith(line, "security=") then c.(security := Atoi(line[9..]) % 256)
    else if BeginsWith(line, "channel=") then c.(channel := Atoi(line[8..]) % 256)
    else if BeginsWith(line, "addr=") then c.(address := LoadAddress(line, 5, c.address, 0))
    else c
  }

  /** _load_cfg: line by line up to the first empty one. */
  function Load(c: Config, file: string): Config
    requires |c.address| == ADDRESS_LENGTH
    decreases |file|
  {
    var (line, rest) := GetLine(file);
    if line == "" then c else Load(LoadLine(c, line), rest)
  }

  /* The round trip. */

  predicate OneLine(s: string) {
    '\r' !in s && '\n' !in s
  }

  /** The name, and the password if it is saved, have no line ends in them. */
  predicate OneLiners(c: Config) {
    OneLine(c.ssid) && (c.security != 0 ==> OneLine(c.password))
  }

  lemma {:induction false} GetLineGets(line: string, rest: string)
    requires OneLine(line)
    ensures GetLine(line + "\n" + rest) == (line, rest)
  {
    var file := line + "\n" + rest;
    if line == "" {
      assert file[1..] == rest;
    } else {
      assert file[1..] == line[1..] + "\n" + rest;
      GetLineGets(line[1..], rest);
      assert [line[0]] + line[1..] == line;
    }
  }

  lemma {:induction false} CStringWhole(s: string)
    requires '\0' !in s
    ensures CString(s) == s
  {
    if s != "" {
      CStringWhole(s[1..]);
      assert [s[0]] + s[1..] == s;
    }
  }

  lemma {:induction false} AtoiDigitsAppend(s: string, d: nat, value: nat)
    requires d < 10 && forall i :: 0 <= i < |s| ==> IsDigit(s[i])
    ensures AtoiDigits(s + [Digit(d)], value) == AtoiDigits(s, value) * 10 + d
    decreases |s|
  {
    var t := s + [Digit(d)];
    if s == "" {
      assert t[1..] == "";
      assert t == [Digit(d)];
    } else {
      assert t[1..] == s[1..] + [Digit(d)];
      AtoiDigitsAppend(s[1..], d, value * 10 + (s[0] as int - '0' as int));
    }
  }

  lemma {:induction false} DecimalReads(n: nat)
    ensures Decimal(n) != "" && forall i :: 0 <= i < |Decimal(n)| ==> IsDigit(Decimal(n)[i])
    ensures AtoiDigits(Decimal(n), 0) == n
  {
    if n < 10 {
      assert Decimal(n)[1..] == "";
    } else {
      DecimalReads(n / 10);
      AtoiDigitsAppend(Decimal(n / 10), n % 10, 0);
    }
  }

  /** atoi undoes %d. */
  lemma AtoiUndoesDecimal(n: nat)
    ensures Atoi(Decimal(n)) == n
  {
    DecimalReads(n);
    assert IsDigit(Decimal(n)[0]);
  }

  /** The two characters %02x prints give the byte back. */
  lemma HexByteUndoesHex2(b: nat)
    requires b < 256
    ensures HexByte(Hex2(b)[0], Hex2(b)[1]) == b
  {
    assert b == b / 16 * 16 + b % 16;
  }

  lemma DigitPrinted(n: nat)
    requires n < 16
    ensures Digit(n) == "0123456789abcdef"[n]
  {
  }

  /** %02x prints two lower-case digits; %d prints the digits of n / 10, if there are any, and then the last. */
  lemma DigitsPrinted(n: nat)
    ensures n < 256 ==> Hex2(n) == ["0123456789abcdef"[n / 16], "0123456789abcdef"[n % 16]]
    ensures Decimal(n) == (if n < 10 then "" else Decimal(n / 10)) + ["0123456789abcdef"[n % 10]]
  {
    hide Digit;
    DigitPrinted(n % 10);
    DigitPrinted(n % 16);
    if n < 256 {
      DigitPrinted(n / 16);
    }
  }

  /** The digits of both cases, in order, and nothing else. */
  lemma DigitsRead(c: char)
    ensures 0 <= ToHex(c) < 16 ==> c == "0123456789abcdef"[ToHex(c)] || c == "0123456789ABCDEF"[ToHex(c)]
    ensures ToHex(c) < 0 ==> ToHex(c) == -1 && c !in "0123456789abcdefABCDEF"
    ensures ToHex(c) < 16
  {
  }

  /** The byte is the shift and the or of the two values in two's complement, cut to eight bits. */
  lemma HexByteCuts(a: char, b: char)
    ensures HexByte(a, b) == (if ToHex(b) < 0 then ToHex(b) else 16 * ToHex(a) + ToHex(b)) % 256
  {
    DigitsRead(a);
    DigitsRead(b);
  }

  /** atoi skips blanks, takes one sign, and stops at the first character that is no digit. */
  lemma AtoiReads(n: nat, rest: string)
    requires rest == "" || !IsDigit(rest[0])
    ensures Atoi(Decimal(n) + rest) == n && Atoi([' '] + (Decimal(n) + rest)) == n
    ensures Atoi(['+'] + (Decimal(n) + rest)) == n && Atoi(['-'] + (Decimal(n) + rest)) == 0 - n
  {
    hide Decimal, AtoiDigits, Atoi;
    DecimalReads(n);
    AtoiDigitsStop(Decimal(n), rest, 0);
    var s := Decimal(n) + rest;
    assert s[0] == Decimal(n)[0];
    AtoiBegins(s);
  }

  lemma AtoiBegins(s: string)
    requires s != "" && IsDigit(s[0])
    ensures Atoi(s) == AtoiDigits(s, 0) == Atoi([' '] + s) == Atoi(['+'] + s)
    ensures Atoi(['-'] + s) == 0 - AtoiDigits(s, 0)
  {
    hide AtoiDigits;
    assert ([' '] + s)[1..] == s && (['+'] + s)[1..] == s && (['-'] + s)[1..] == s;
  }

  lemma {:induction false} AtoiDigitsStop(s: string, rest: string, value: nat)
    requires forall i :: 0 <= i < |s| ==> IsDigit(s[i])
    requires rest == "" || !IsDigit(rest[0])
    ensures AtoiDigits(s + rest, value) == AtoiDigits(s, value)
    decreases |s|
  {
    if s == "" {
      assert s + rest == rest;
    } else {
      assert (s + rest)[1..] == s[1..] + rest;
      AtoiDigitsStop(s[1..], rest, value * 10 + (s[0] as int - '0' as int));
    }
  }

  /* The five lines, one at a time. */

  lemma LineSsid(c: Config, ssid: string)
    requires |c.address| == ADDRESS_LENGTH && '\0' !in ssid
    ensures LoadLine(c, "SSID=" + ssid) == c.(ssid := ssid)
  {
    CStringWhole("SSID=" + ssid);
  }

  lemma LinePassword(c: Config, password: string)
    requires |c.address| == ADDRESS_LENGTH && '\0' !in password
    ensures LoadLine(c, "password=" + password) == c.(password := password)
  {
    var line := "password=" + password;
    CStringWhole(line);
    assert line[0] == 'p' && line[9..] == password;
  }

  /** The keys are read in any case. */
  lemma LowerSsid(c: Config, ssid: string)
    requires |c.address| == ADDRESS_LENGTH && '\0' !in ssid
    ensures LoadLine(c, "ssid=" + ssid) == c.(ssid := ssid)
  {
    CStringWhole("ssid=" + ssid);
  }

  lemma UpperPassword(c: Config, password: string)
    requires |c.address| == ADDRESS_LENGTH && '\0' !in password
    ensures LoadLine(c, "PASSWORD=" + password) == c.(password := password)
  {
    var line := "PASSWORD=" + password;
    CStringWhole(line);
    assert line[0] == 'P' && line[9..] == password;
  }

  /** A line that begins with no key changes nothing. */
  lemma OtherLinesIgnored(c: Config, line: string)
    requires |c.address| == ADDRESS_LENGTH && line != "" && line[0] !in "sSpPcCaA"
    ensures LoadLine(c, line) == c
  {
    hide Atoi, LoadAddress;
    var text := CString(line);
    assert text != "" ==> text[0] == line[0];
    NoKey(text, "SSID=");
    NoKey(text, "password=");
    NoKey(text, "security=");
    NoKey(text, "channel=");
    NoKey(text, "addr=");
  }

  lemma NoKey(text: string, key: string)
    requires key != "" && (text == "" || Lower(text[0]) != Lower(key[0]))
    ensures !BeginsWith(text, key)
  {
  }

  /** A load ends at the first empty line. */
  lemma LoadStopsAtEmptyLine(c: Config, rest: string)
    requires |c.address| == ADDRESS_LENGTH
    ensures Load(c, "\n" + rest) == c == Load(c, "\r\n" + rest)
  {
    assert ("\r\n" + rest)[1..] == "\n" + rest;
  }

  lemma LineSecurity(c: Config, n: nat)
    requires |c.address| == ADDRESS_LENGTH
    ensures LoadLine(c, "security=" + Decimal(n)) == c.(security := n % 256)
  {
    hide Decimal, Atoi, AtoiDigits, CString, LoadAddress;
    var line := "security=" + Decimal(n);
    DecimalReads(n);
    CStringWhole(line);
    AtoiUndoesDecimal(n);
    assert line[0] == 's' && line[1] == 'e' && line[9..] == Decimal(n);
  }

  lemma LineChannel(c: Config, n: nat)
    requires |c.address| == ADDRESS_LENGTH
    ensures LoadLine(c, "channel=" + Decimal(n)) == c.(channel := n % 256)
  {
    hide Decimal, Atoi, AtoiDigits, CString, LoadAddress;
    var line := "channel=" + Decimal(n);
    DecimalReads(n);
    CStringWhole(line);
    AtoiUndoesDecimal(n);
    assert line[0] == 'c' && line[8..] == Decimal(n);
  }

  predicate Bytes(bytes: seq<nat>) {
    forall i :: 0 <= i < |bytes| ==> bytes[i] < 256
  }

  /** Byte i of the address stands at 3 * i, with a dash behind it unless it is the last. */
  lemma {:induction false} AddressAt(bytes: seq<nat>, i: nat)
    requires Bytes(bytes) && i < |bytes|
    ensures |Address(bytes)| == 3 * |bytes| - 1
    ensures Address(bytes)[3 * i..3 * i + 2] == Hex2(bytes[i])
    ensures i + 1 < |bytes| ==> Address(bytes)[3 * i + 2] == '-'
  {
    if |bytes| > 1 {
      AddressAt(bytes[1..], if i > 0 then i - 1 else 0);
      var rest := Address(bytes[1..]);
      assert Address(bytes) == Hex2(bytes[0]) + "-" + rest;
      if i > 0 {
        assert Address(bytes)[3 * i..3 * i + 2] == rest[3 * (i - 1)..3 * (i - 1) + 2];
      }
    }
  }

  lemma {:induction false} AddressIsText(bytes: seq<nat>)
    requires Bytes(bytes)
    ensures '\0' !in Address(bytes) && OneLine(Address(bytes))
  {
    if |bytes| > 1 {
      AddressIsText(bytes[1..]);
    }
  }

  lemma NotNul(b: nat)
    requires b < 256
    ensures |Hex2(b)| == 2 && Hex2(b)[0] != '\0'
  {
  }

  /** An address of up to six bytes is read into as many bytes of the setting; the others stay. */
  lemma {:induction false} AddressReads(line: string, bytes: seq<nat>, before: seq<nat>, index: nat)
    requires Bytes(bytes) && index <= |bytes| <= |before| == ADDRESS_LENGTH
    requires line == "addr=" + Address(bytes)
    ensures LoadAddress(line, 5 + 3 * index, before, index) ==
            before[..index] + bytes[index..] + before[|bytes|..]
    decreases ADDRESS_LENGTH - index
  {
    if index == |bytes| {
      if bytes != [] {
        AddressAt(bytes, 0);
      }
    } else {
      hide Address, HexByte, Hex2;
      AddressAt(bytes, index);
      HexByteUndoesHex2(bytes[index]);
      NotNul(bytes[index]);
      var at := 5 + 3 * index;
      assert line[at..at + 2] == Address(bytes)[3 * index..3 * index + 2] == Hex2(bytes[index]);
      assert line[at] == Hex2(bytes[index])[0] && line[at + 1] == Hex2(bytes[index])[1];
      var after := before[index := bytes[index]];
      AddressReads(line, bytes, after, index + 1);
      assert after[..index + 1] == before[..index] + [bytes[index]];
    }
  }

  lemma LineAddress(c: Config, bytes: seq<nat>)
    requires |c.address| == ADDRESS_LENGTH == |bytes| && Bytes(bytes)
    ensures LoadLine(c, "addr=" + Address(bytes)) == c.(address := bytes)
  {
    hide Address, LoadAddress, CString;
    var line := "addr=" + Address(bytes);
    AddressIsText(bytes);
    CStringWhole(line);
    AddressReads(line, bytes, c.address, 0);
    assert c.address[..0] + bytes[0..] + c.address[6..] == bytes;
    assert line[0] == 'a';
  }

  lemma LoadOneLine(c: Config, line: string, rest: string)
    requires |c.address| == ADDRESS_LENGTH && line != "" && OneLine(line)
    ensures Load(c, line + "\n" + rest) == Load(LoadLine(c, line), rest)
  {
    GetLineGets(line, rest);
  }

  /** Loading what was saved restores every field, whatever was there before; without security the password goes. */
  lemma SaveThenLoad(c: Config, before: Config)
    requires ValidConfig(c) && OneLiners(c) && |before.address| == ADDRESS_LENGTH
    ensures c.security != 0 ==> Load(before, Save(c)) == c
    ensures c.security == 0 ==> Load(before, Save(c)) == c.(password := "")
  {
    hide LoadLine, Load, Address, Decimal;
    var lines := Lines(c);
    LinesAreText(c);
    JoinFive(lines);
    var c1 := before.(ssid := c.ssid);
    var c2 := c1.(password := SavedPassword(c));
    var c3 := c2.(security := c.security);
    var c4 := c3.(channel := c.channel);
    LineSsid(before, c.ssid);
    LinePassword(c1, SavedPassword(c));
    LineSecurity(c2, c.security);
    LineChannel(c3, c.channel);
    LineAddress(c4, c.address);
    LoadOneLine(before, lines[0], Join(lines[1..]));
    LoadOneLine(c1, lines[1], Join(lines[2..]));
    LoadOneLine(c2, lines[2], Join(lines[3..]));
    LoadOneLine(c3, lines[3], Join(lines[4..]));
    LoadOneLine(c4, lines[4], "");
    LoadNothing(c.(password := SavedPassword(c)));
  }

  lemma LoadNothing(c: Config)
    requires |c.address| == ADDRESS_LENGTH
    ensures Load(c, "") == c
  {
  }

  lemma JoinFive(lines: seq<string>)
    requires |lines| == 5
    ensures Join(lines) == lines[0] + "\n" + Join(lines[1..])
    ensures Join(lines[1..]) == lines[1] + "\n" + Join(lines[2..])
    ensures Join(lines[2..]) == lines[2] + "\n" + Join(lines[3..])
    ensures Join(lines[3..]) == lines[3] + "\n" + Join(lines[4..])
    ensures Join(lines[4..]) == lines[4] + "\n" + ""
  {
    assert lines[1..][1..] == lines[2..];
    assert lines[2..][1..] == lines[3..];
    assert lines[3..][1..] == lines[4..];
    assert lines[4..][1..] == [];
  }

  /** Every line is one line, is not empty, and with its line feed and a NUL fits the buffer it is printed to. */
  lemma LinesAreText(c: Config)
    requires ValidConfig(c) && OneLiners(c)
    ensures forall i :: 0 <= i < 5 ==> Lines(c)[i] != "" && OneLine(Lines(c)[i])
  {
    hide Decimal, Address;
    DecimalReads(c.security);
    DecimalReads(c.channel);
    AddressIsText(c.address);
    TextBehind("SSID=", c.ssid);
    TextBehind("password=", SavedPassword(c));
    TextBehind("security=", Decimal(c.security));
    TextBehind("channel=", Decimal(c.channel));
    TextBehind("addr=", Address(c.address));
  }

  lemma TextBehind(key: string, value: string)
    requires key != "" && OneLine(key) && OneLine(value)
    ensures key + value != "" && OneLine(key + value)
  {
  }

  lemma LinesFit(c: Config, i: nat)
    requires ValidConfig(c) && i < 5
    ensures |Lines(c)[i]| + 2 <= 128
  {
    DecimalFits(c.security);
    DecimalFits(c.channel);
    AddressAt(c.address, 0);
  }

  lemma DecimalFits(n: nat)
    requires n < 256
    ensures |Decimal(n)| <= 3
  {
    assert n >= 10 ==> |Decimal(n)| == |Decimal(n / 10)| + 1;
    assert n >= 100 ==> |Decimal(n / 10)| == |Decimal(n / 100)| + 1;
  }

  /** A load never produces a string with a carriage return or line feed in it. */
  lemma {:induction false} LoadedIsOneLine(c: Config, file: string)
    requires |c.address| == ADDRESS_LENGTH && OneLine(c.ssid) && OneLine(c.password)
    ensures OneLine(Load(c, file).ssid) && OneLine(Load(c, file).password)
    decreases |file|
  {
    var (line, rest) := GetLine(file);
    if line != "" {
      hide LoadLine;
      LineShape(c, line);
      LoadLineIsOneLine(c, line);
      LoadedIsOneLine(LoadLine(c, line), rest);
    }
  }

  lemma LoadLineIsOneLine(c: Config, line: string)
    requires |c.address| == ADDRESS_LENGTH && OneLine(c.ssid) && OneLine(c.password) && OneLine(line)
    ensures OneLine(LoadLine(c, line).ssid) && OneLine(LoadLine(c, line).password)
  {
    hide CString, BeginsWith, LoadAddress, Atoi;
    CStringPrefix(line);
    var text := CString(line);
    assert OneLine(text);
    if |text| >= 5 {
      assert OneLine(text[5..]);
    }
    if |text| >= 9 {
      assert OneLine(text[9..]);
    }
  }

  lemma {:induction false} CStringPrefix(s: string)
    ensures CString(s) <= s
  {
    if s != "" && s[0] != '\0' {
      CStringPrefix(s[1..]);
    }
  }

  /** From blank settings, the round trip works exactly for names and passwords without CR and LF. */
  lemma RestoredExactlyWhenOneLine(c: Config, blank: Config)
    requires ValidConfig(c) && |blank.address| == ADDRESS_LENGTH && blank.ssid == "" && blank.password == ""
    ensures Load(blank, Save(c)) == (if c.security != 0 then c else c.(password := ""))
            <==> OneLine(c.ssid) && (c.security != 0 ==> OneLine(c.password))
  {
    if OneLiners(c) {
      SaveThenLoad(c, blank);
    } else {
      LoadedIsOneLine(blank, Save(c));
    }
  }

  /** A name with a line feed in it loses what follows, and nothing else changes. */
  lemma BrokenNameIsLost(c: Config, blank: Config)
    requires ValidConfig(c) && c.ssid == "a\nb" && |blank.address| == ADDRESS_LENGTH
    requires c.security != 0 ==> OneLine(c.password)
    ensures Load(blank, Save(c)) == c.(ssid := "a", password := if c.security != 0 then c.password else "")
  {
    hide LoadLine, Load, Address, Decimal;
    var d := c.(ssid := "a");
    SaveThenLoad(d, blank);
    var rest := Join(Lines(c)[1..]);
    assert Lines(c)[1..] == Lines(d)[1..];
    assert Save(d) == "SSID=a" + "\n" + rest;
    assert Save(c) == "SSID=a" + "\n" + ("b" + "\n" + rest);
    LoadOneLine(blank, "SSID=a", rest);
    LoadOneLine(blank, "SSID=a", "b" + "\n" + rest);
    LineShape(blank, "SSID=a");
    LoadOneLine(LoadLine(blank, "SSID=a"), "b", rest);
    OneLetterLine(LoadLine(blank, "SSID=a"));
  }

  lemma OneLetterLine(c: Config)
    requires |c.address| == ADDRESS_LENGTH
    ensures LoadLine(c, "b") == c
  {
    CStringWhole("b");
  }

  /* In place. */

  /** The value of a line fits the array of the field that it is copied to, with its NUL. */
  predicate FieldFits(buffer: string) {
    var line := CString(buffer);
    if BeginsWith(line, "SSID=") then |line| - 5 < 16
    else BeginsWith(line, "password=") ==> |line| - 9 < 32
  }

  /** Every line up to the first empty one fits the line buffer with its NUL, and its value its field. */
  predicate FitsBuffers(file: string)
    decreases |file|
  {
    var (line, rest) := GetLine(file);
    line != "" ==> |line| < 128 && FieldFits(line) && FitsBuffers(rest)
  }

  /** Overrun: a line or a value went past the end of its array. */
  datatype Loaded = Overrun | Loaded(config: Config)

  /** _load_cfg with the bounds of its arrays. */
  function BoundedLoad(c: Config, file: string): Loaded
    requires |c.address| == ADDRESS_LENGTH
    decreases |file|
  {
    var (line, rest) := GetLine(file);
    if line == "" then Loaded(c)
    else if |line| + 1 > LINE_SIZE then Overrun
    else
      LineShape(c, line);
      var d := LoadLine(c, line);
      if |d.ssid| + 1 > SSID_NAME_MAX || |d.password| + 1 > PASSWORD_LENGTH_MAX then Overrun
      else BoundedLoad(d, rest)
  }

  predicate FieldsFit(c: Config) {
    |c.ssid| < SSID_NAME_MAX && |c.password| < PASSWORD_LENGTH_MAX && |c.address| == ADDRESS_LENGTH
  }

  lemma FieldFitsExactly(c: Config, line: string)
    requires FieldsFit(c)
    ensures FieldFits(line) <==> FieldsFit(LoadLine(c, line))
  {
    hide CString, Atoi;
    LineShape(c, line);
    var text := CString(line);
    if BeginsWith(text, "SSID=") {
      assert |text[5..]| == |text| - 5;
    } else if BeginsWith(text, "password=") {
      assert |text[9..]| == |text| - 9;
    }
  }

  /** A load overruns none of its arrays exactly when the file fits them; it then loads what Load says. */
  lemma {:induction false} OverrunExactlyUnlessFits(c: Config, file: string)
    requires FieldsFit(c)
    ensures BoundedLoad(c, file) == if FitsBuffers(file) then Loaded(Load(c, file)) else Overrun
    decreases |file|
  {
    hide LoadLine, FieldFits;
    var (line, rest) := GetLine(file);
    if line != "" {
      FieldFitsExactly(c, line);
      LineShape(c, line);
      if |line| < LINE_SIZE && FieldFits(line) {
        OverrunExactlyUnlessFits(LoadLine(c, line), rest);
      }
    }
  }

  /** A name of 16 characters, one too many for the field with its NUL. */
  lemma OverrunIsReached(c: Config, name: string)
    requires FieldsFit(c) && |name| == 16 && OneLine(name) && '\0' !in name
    ensures BoundedLoad(c, "SSID=" + name + "\n") == Overrun
  {
    var line := "SSID=" + name;
    assert line + "\n" + "" == line + "\n";
    GetLineGets(line, "");
    CStringWhole(line);
  }

  lemma LineShape(c: Config, line: string)
    requires |c.address| == ADDRESS_LENGTH
    ensures |LoadLine(c, line).address| == ADDRESS_LENGTH
  {
    hide CString, BeginsWith, Atoi;
  }

  lemma FitsOneLine(line: string, rest: string)
    requires OneLine(line) && |line| < LINE_SIZE && FieldFits(line) && FitsBuffers(rest)
    ensures FitsBuffers(line + "\n" + rest)
  {
    hide FieldFits;
    GetLineGets(line, rest);
  }

  /** The values of a saved file fit their fields. */
  lemma SavedFieldsFit(c: Config, i: nat)
    requires ValidConfig(c) && i < 5
    ensures FieldFits(Lines(c)[i])
  {
    hide Address, Decimal;
    DecimalReads(c.security);
    DecimalReads(c.channel);
    AddressIsText(c.address);
    var line := Lines(c)[i];
    LineHasNoNul(c, i);
    CStringWhole(line);
    assert i >= 2 ==> line[0] != 'S' && line[0] != 'p' && Lower(line[1]) != 's';
  }

  lemma LineHasNoNul(c: Config, i: nat)
    requires ValidConfig(c) && i < 5
    ensures '\0' !in Lines(c)[i]
  {
    hide Address, Decimal;
    DecimalReads(c.security);
    DecimalReads(c.channel);
    AddressIsText(c.address);
  }

  /** A file written by a save can be read back without overrunning the line buffer or a field. */
  lemma SavedFits(c: Config)
    requires ValidConfig(c) && OneLiners(c)
    ensures FitsBuffers(Save(c))
  {
    hide FitsBuffers, FieldFits, Address, Decimal;
    var lines := Lines(c);
    LinesAreText(c);
    JoinFive(lines);
    LinesFit(c, 0);
    LinesFit(c, 1);
    LinesFit(c, 2);
    LinesFit(c, 3);
    LinesFit(c, 4);
    SavedFieldsFit(c, 0);
    SavedFieldsFit(c, 1);
    SavedFieldsFit(c, 2);
    SavedFieldsFit(c, 3);
    SavedFieldsFit(c, 4);
    NothingFits();
    FitsOneLine(lines[4], "");
    FitsOneLine(lines[3], Join(lines[4..]));
    FitsOneLine(lines[2], Join(lines[3..]));
    FitsOneLine(lines[1], Join(lines[2..]));
    FitsOneLine(lines[0], Join(lines[1..]));
  }

  lemma NothingFits()
    ensures FitsBuffers("")
  {
  }

  /** _get_line on the file from position pos on. */
  method ReadLine(file: string, pos: nat, buffer: array<char>) returns (length: nat, next: nat)
    requires pos <= |file| && |GetLine(file[pos..]).0| < buffer.Length
    modifies buffer
    ensures next <= |file| && length < buffer.Length
    ensures (buffer[..length], file[next..]) == GetLine(file[pos..])
    ensures forall i :: length <= i < buffer.Length ==> buffer[i] == '\0'
  {
    ghost var (line, rest) := GetLine(file[pos..]);
    var i := 0;
    while i < buffer.Length
      invariant i <= buffer.Length
      invariant forall j :: 0 <= j < i ==> buffer[j] == '\0'
    {
      buffer[i] := '\0';
      i := i + 1;
    }
    length, next := 0, pos;
    while next < |file|
      invariant pos <= next <= |file| && length <= |line|
      invariant line == buffer[..length] + GetLine(file[next..]).0
      invariant rest == GetLine(file[next..]).1
      invariant forall j :: length <= j < buffer.Length ==> buffer[j] == '\0'
    {
      var ch := file[next];
      assert file[next..][0] == ch && file[next..][1..] == file[next + 1..];
      next := next + 1;
      if ch == '\r' {
        continue;
      }
      if ch == '\n' {
        assert line == buffer[..length] + "" == buffer[..length];
        return;
      }
      ghost var taken, more := buffer[..length], GetLine(file[next..]).0;
      assert line == taken + ([ch] + more) == (taken + [ch]) + more;
      buffer[length] := ch;
      length := length + 1;
      assert buffer[..length] == taken + [ch];
    }
    assert file[next..] == "";
    assert line == buffer[..length] + "" == buffer[..length];
  }

  lemma FitsFirst(file: string)
    requires FitsBuffers(file)
    ensures |GetLine(file).0| < LINE_SIZE
    ensures GetLine(file).0 != "" ==> FieldFits(GetLine(file).0) && FitsBuffers(GetLine(file).1)
  {
  }

  lemma LoadStep(c: Config, file: string)
    requires |c.address| == ADDRESS_LENGTH
    ensures var (line, rest) := GetLine(file);
            Load(c, file) == if line == "" then c else Load(LoadLine(c, line), rest)
  {
    hide LoadLine;
  }

  lemma {:induction false} CStringOf(text: string, rest: string)
    requires '\0' !in text
    ensures CString(text + ['\0'] + rest) == text
  {
    var s := text + ['\0'] + rest;
    if text != "" {
      assert s[1..] == text[1..] + ['\0'] + rest;
      CStringOf(text[1..], rest);
    }
  }

  /** strcpy, from position from of a buffer that holds a NUL behind it. */
  method StrCpy(dst: array<char>, src: array<char>, from: nat)
    requires dst != src && from <= src.Length && |CString(src[from..])| < dst.Length
    modifies dst
    ensures CString(dst[..]) == CString(src[from..])
  {
    ghost var text := CString(src[from..]);
    var i := 0;
    while from + i < src.Length && src[from + i] != '\0'
      invariant i <= |text| && from + i <= src.Length
      invariant dst[..i] == text[..i] && CString(src[from + i..]) == text[i..]
      invariant '\0' !in text[..i]
      decreases src.Length - i
    {
      assert src[from + i..][1..] == src[from + (i + 1)..] && src[from + i..][0] == src[from + i];
      dst[i] := src[from + i];
      assert text[..i + 1] == text[..i] + [text[i]];
      i := i + 1;
    }
    assert text[i..] == "" && text[..i] == text;
    dst[i] := '\0';
    assert dst[..] == text + ['\0'] + dst[i + 1..];
    CStringOf(text, dst[i + 1..]);
  }

  lemma {:induction false} CStringDrop(s: string, n: nat)
    requires n <= |CString(s)|
    ensures n <= |s| && CString(s[n..]) == CString(s)[n..]
  {
    if n > 0 {
      CStringDrop(s[1..], n - 1);
      assert s[1..][n - 1..] == s[n..];
    }
  }

  lemma {:induction false} CStringPadded(s: string, pad: string)
    requires forall i :: 0 <= i < |pad| ==> pad[i] == '\0'
    ensures CString(s + pad) == CString(s)
  {
    if s != "" {
      assert (s + pad)[1..] == s[1..] + pad;
      CStringPadded(s[1..], pad);
    } else {
      assert s + pad == pad;
    }
  }

  /** struct wlan_nvm, with its arrays. */
  class WlanNvm {
    const ssid: array<char>
    const password: array<char>
    var security: nat
    var channel: nat
    var address: seq<nat>

    ghost predicate Valid()
      reads this
    {
      && ssid.Length == SSID_NAME_MAX && password.Length == PASSWORD_LENGTH_MAX && ssid != password
      && |address| == ADDRESS_LENGTH
    }

    ghost function Abs(): Config
      reads this, ssid, password
    {
      Config(CString(ssid[..]), CString(password[..]), security, channel, address)
    }

    constructor ()
      ensures Valid() && Abs() == Config("", "", 0, 0, [0, 0, 0, 0, 0, 0])
      ensures fresh(ssid) && fresh(password)
    {
      ssid := new char[SSID_NAME_MAX](_ => '\0');
      password := new char[PASSWORD_LENGTH_MAX](_ => '\0');
      security, channel, address := 0, 0, [0, 0, 0, 0, 0, 0];
    }

    /** One line of the loop in _load_cfg, on the zero-filled line buffer. */
    method ApplyLine(buffer: array<char>, ghost line: string)
      requires Valid() && buffer != ssid && buffer != password
      requires FieldFits(line) && CString(buffer[..]) == CString(line)
      modifies this`security, this`channel, this`address, ssid, password
      ensures Valid() && Abs() == LoadLine(old(Abs()), line)
    {
      hide Atoi, LoadAddress;
      var text := CString(buffer[..]);
      LineShape(Abs(), line);
      if BeginsWith(text, "SSID=") {
        CStringDrop(buffer[..], 5);
        assert buffer[..][5..] == buffer[5..];
        StrCpy(ssid, buffer, 5);
      } else if BeginsWith(text, "password=") {
        CStringDrop(buffer[..], 9);
        assert buffer[..][9..] == buffer[9..];
        StrCpy(password, buffer, 9);
      } else if BeginsWith(text, "security=") {
        security := Atoi(text[9..]) % 256;
      } else if BeginsWith(text, "channel=") {
        channel := Atoi(text[8..]) % 256;
      } else if BeginsWith(text, "addr=") {
        address := LoadAddress(text, 5, address, 0);
      }
    }

    /** _load_cfg on a file that is there, and that overruns nothing. */
    method LoadConfig(file: string)
      requires Valid() && FitsBuffers(file)
      modifies this`security, this`channel, this`address, ssid, password
      ensures Valid() && Abs() == Load(old(Abs()), file)
    {
      hide Load, LoadLine, FitsBuffers, FieldFits, GetLine, CString;
      ghost var before := Abs();
      var buffer := new char[LINE_SIZE];
      var pos := 0;
      var done := false;
      assert file[0..] == file;
      while !done
        invariant Valid() && pos <= |file|
        invariant !done ==> FitsBuffers(file[pos..]) && Load(Abs(), file[pos..]) == Load(before, file)
        invariant done ==> Abs() == Load(before, file)
        decreases !done, |file| - pos
      {
        FitsFirst(file[pos..]);
        LoadStep(Abs(), file[pos..]);
        ghost var line := GetLine(file[pos..]).0;
        var length;
        length, pos := ReadLine(file, pos, buffer);
        if length == 0 {
          done := true;
        } else {
          assert buffer[..] == line + buffer[length..];
          CStringPadded(line, buffer[length..]);
          ApplyLine(buffer, line);
        }
      }
    }
  }
}
