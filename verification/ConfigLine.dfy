// One line of the mapping file of main/mkh_config.c: printing, parsing, and how the
// two undo each other.
module ConfigLine {
  import opened Wrappers
  import opened CText

  datatype Input =
    | NONE | LSNS | LSEW | RSNS | RSEW | LT | RT | BTN_A | BTN_B | BTN_X | BTN_Y | LB | RB
    | DPAD_UP | DPAD_DOWN | DPAD_LEFT | DPAD_RIGHT | L3 | R3

  datatype InputClass = AXIS | TRIGGER | DIGITAL

  datatype Mode = PROPORTIONAL | MOMENTARY | LATCHED | PULSE | THL

  type uint8 = n: int | 0 <= n < 256

  datatype Binding = Binding(input: Input, invert: bool, max: uint8, mode: Mode)

  const INPUT_TOKENS: seq<(string, Input)> := [
    ("LSNS", LSNS), ("LSEW", LSEW), ("RSNS", RSNS), ("RSEW", RSEW),
    ("LT", LT), ("RT", RT), ("A", BTN_A), ("B", BTN_B),
    ("X", BTN_X), ("Y", BTN_Y), ("LB", LB), ("RB", RB),
    ("DUP", DPAD_UP), ("DDN", DPAD_DOWN), ("DLT", DPAD_LEFT), ("DRT", DPAD_RIGHT),
    ("L3", L3), ("R3", R3)]

  const MODE_TOKENS: seq<(string, Mode)> := [
    ("proportional", PROPORTIONAL), ("momentary", MOMENTARY), ("latched", LATCHED), ("pulse", PULSE), ("thl", THL)]

  function Class(input: Input): InputClass {
    match input
    case LSNS => AXIS
    case LSEW => AXIS
    case RSNS => AXIS
    case RSEW => AXIS
    case LT => TRIGGER
    case RT => TRIGGER
    case _ => DIGITAL
  }

  function DefaultMode(input: Input): Mode {
    if Class(input) == DIGITAL then MOMENTARY else PROPORTIONAL
  }

  // ---- Token tables ------------------------------------------------------------

  // First table entry from i on whose name matches, ignoring case.
  function FindToken<T>(table: seq<(string, T)>, name: string, i: nat): Option<T>
    requires i <= |table|
    decreases |table| - i
  {
    if i == |table| then None
    else if SameIgnoringCase(name, table[i].0) then Some(table[i].1)
    else FindToken(table, name, i + 1)
  }

  // First table entry from i on with the given value.
  function FindName<T(==)>(table: seq<(string, T)>, value: T, i: nat): Option<string>
    requires i <= |table|
    decreases |table| - i
  {
    if i == |table| then None
    else if table[i].1 == value then Some(table[i].0)
    else FindName(table, value, i + 1)
  }

  function InputName(input: Input): string {
    match FindName(INPUT_TOKENS, input, 0) case Some(n) => n case None => "none"
  }

  function ModeName(mode: Mode): string {
    match FindName(MODE_TOKENS, mode, 0) case Some(n) => n case None => "proportional"
  }

  // Visible characters only: nothing that cuts a line or a word.
  predicate Clean(s: string) {
    forall i :: 0 <= i < |s| ==> s[i] > ' '
  }

  // What tells the token names apart: length, first and middle letter.
  datatype Mark = Mark(length: nat, first: char, middle: char)

  function MarkOf(name: string): Mark
    requires name != []
  {
    Mark(|name|, Lower(name[0]), Lower(name[|name| / 2]))
  }

  lemma {:induction false} SameMark(a: string, b: string)
    requires SameIgnoringCase(a, b) && a != []
    ensures MarkOf(a) == MarkOf(b)
  {
  }

  const INPUT_MARKS: seq<Mark> := [
    Mark(4, 'l', 'n'), Mark(4, 'l', 'e'), Mark(4, 'r', 'n'), Mark(4, 'r', 'e'),
    Mark(2, 'l', 't'), Mark(2, 'r', 't'), Mark(1, 'a', 'a'), Mark(1, 'b', 'b'),
    Mark(1, 'x', 'x'), Mark(1, 'y', 'y'), Mark(2, 'l', 'b'), Mark(2, 'r', 'b'),
    Mark(3, 'd', 'u'), Mark(3, 'd', 'd'), Mark(3, 'd', 'l'), Mark(3, 'd', 'r'),
    Mark(2, 'l', '3'), Mark(2, 'r', '3')]

  const MODE_MARKS: seq<Mark> := [
    Mark(12, 'p', 't'), Mark(9, 'm', 'n'), Mark(7, 'l', 'c'), Mark(5, 'p', 'l'), Mark(3, 't', 'h')]

  const NONE_MARK := Mark(4, 'n', 'n')

  lemma {:induction false} InputMarks(i: nat)
    requires i < 18
    ensures |INPUT_TOKENS| == 18 && INPUT_TOKENS[i].0 != [] && MarkOf(INPUT_TOKENS[i].0) == INPUT_MARKS[i]
  {
  }

  lemma {:induction false} ModeMarks(i: nat)
    requires i < 5
    ensures |MODE_TOKENS| == 5 && MODE_TOKENS[i].0 != [] && MarkOf(MODE_TOKENS[i].0) == MODE_MARKS[i]
  {
  }

  lemma {:induction false} MarksDistinct()
    ensures forall i, j :: 0 <= i < j < 18 ==> INPUT_MARKS[i] != INPUT_MARKS[j]
    ensures forall i, j :: 0 <= i < j < 5 ==> MODE_MARKS[i] != MODE_MARKS[j]
    ensures forall i :: 0 <= i < 18 ==> INPUT_MARKS[i] != NONE_MARK
  {
  }

  // The first match for an entry's own name is that entry.
  lemma {:induction false} FindTokenAt<T>(table: seq<(string, T)>, k: nat, i: nat)
    requires i <= k < |table|
    requires forall j :: i <= j < k ==> !SameIgnoringCase(table[k].0, table[j].0)
    ensures FindToken(table, table[k].0, i) == Some(table[k].1)
    decreases k - i
  {
    if i < k {
      FindTokenAt(table, k, i + 1);
    }
  }

  lemma {:induction false} FindTokenMisses<T>(table: seq<(string, T)>, name: string, i: nat)
    requires i <= |table|
    requires forall j :: i <= j < |table| ==> !SameIgnoringCase(name, table[j].0)
    ensures FindToken(table, name, i) == None
    decreases |table| - i
  {
    if i < |table| {
      FindTokenMisses(table, name, i + 1);
    }
  }

  // A printed name is one of the table's, at a position holding the same value.
  lemma {:induction false} FindNameIs<T>(table: seq<(string, T)>, value: T, i: nat) returns (k: nat)
    requires i <= |table|
    ensures i <= k <= |table|
    ensures FindName(table, value, i) == if k == |table| then None else Some(table[k].0)
    ensures k < |table| ==> table[k].1 == value
    ensures k == |table| ==> forall j :: i <= j < |table| ==> table[j].1 != value
    decreases |table| - i
  {
    if i == |table| || table[i].1 == value {
      k := i;
    } else {
      k := FindNameIs(table, value, i + 1);
    }
  }

  function InputOf(name: string): Option<Input> {
    FindToken(INPUT_TOKENS, name, 0)
  }

  function ModeOf(name: string): Option<Mode> {
    FindToken(MODE_TOKENS, name, 0)
  }

  // The parser's tables undo the printer's: every input but NONE, every mode.
  lemma {:induction false} InputNamesRoundTrip(input: Input)
    ensures InputOf(InputName(input)) == if input == NONE then None else Some(input)
    ensures IsWord(InputName(input)) && |InputName(input)| <= 4 && Clean(InputName(input))
  {
    hide SameIgnoringCase, MarkOf, FindToken, FindName;
    var k := FindNameIs(INPUT_TOKENS, input, 0);
    MarksDistinct();
    InputMarks(0);
    if k < 18 {
      EntryIsWord(k);
      forall j | 0 <= j < k
        ensures !SameIgnoringCase(INPUT_TOKENS[k].0, INPUT_TOKENS[j].0)
      {
        InputMarks(j);
        InputMarks(k);
        if SameIgnoringCase(INPUT_TOKENS[k].0, INPUT_TOKENS[j].0) {
          SameMark(INPUT_TOKENS[k].0, INPUT_TOKENS[j].0);
        }
      }
      FindTokenAt(INPUT_TOKENS, k, 0);
    } else {
      EveryInputListed(input);
      NoneMark();
      forall j | 0 <= j < 18
        ensures !SameIgnoringCase("none", INPUT_TOKENS[j].0)
      {
        InputMarks(j);
        if SameIgnoringCase("none", INPUT_TOKENS[j].0) {
          SameMark("none", INPUT_TOKENS[j].0);
        }
      }
      FindTokenMisses(INPUT_TOKENS, "none", 0);
    }
  }

  lemma {:induction false} NoneMark()
    ensures MarkOf("none") == NONE_MARK
  {
  }

  lemma {:induction false} EntryIsWord(k: nat)
    requires k < 18
    ensures INPUT_TOKENS[k].1 != NONE
    ensures IsWord(INPUT_TOKENS[k].0) && |INPUT_TOKENS[k].0| <= 4 && Clean(INPUT_TOKENS[k].0)
  {
  }

  lemma {:induction false} EveryInputListed(input: Input)
    ensures input == NONE || exists j :: 0 <= j < 18 && INPUT_TOKENS[j].1 == input
  {
    match input
    case NONE =>
    case LSNS => assert INPUT_TOKENS[0].1 == input;
    case LSEW => assert INPUT_TOKENS[1].1 == input;
    case RSNS => assert INPUT_TOKENS[2].1 == input;
    case RSEW => assert INPUT_TOKENS[3].1 == input;
    case LT => assert INPUT_TOKENS[4].1 == input;
    case RT => assert INPUT_TOKENS[5].1 == input;
    case BTN_A => assert INPUT_TOKENS[6].1 == input;
    case BTN_B => assert INPUT_TOKENS[7].1 == input;
    case BTN_X => assert INPUT_TOKENS[8].1 == input;
    case BTN_Y => assert INPUT_TOKENS[9].1 == input;
    case LB => assert INPUT_TOKENS[10].1 == input;
    case RB => assert INPUT_TOKENS[11].1 == input;
    case DPAD_UP => assert INPUT_TOKENS[12].1 == input;
    case DPAD_DOWN => assert INPUT_TOKENS[13].1 == input;
    case DPAD_LEFT => assert INPUT_TOKENS[14].1 == input;
    case DPAD_RIGHT => assert INPUT_TOKENS[15].1 == input;
    case L3 => assert INPUT_TOKENS[16].1 == input;
    case R3 => assert INPUT_TOKENS[17].1 == input;
  }

  lemma {:induction false} ModeNamesRoundTrip(mode: Mode)
    ensures ModeOf(ModeName(mode)) == Some(mode)
    ensures IsWord(ModeName(mode)) && |ModeName(mode)| <= 12 && Clean(ModeName(mode))
  {
    hide SameIgnoringCase, MarkOf, FindToken, FindName;
    var k := FindNameIs(MODE_TOKENS, mode, 0);
    MarksDistinct();
    ModeMarks(0);
    EveryModeListed(mode);
    ModeEntryIsWord(k);
    forall j | 0 <= j < k
      ensures !SameIgnoringCase(MODE_TOKENS[k].0, MODE_TOKENS[j].0)
    {
      ModeMarks(j);
      ModeMarks(k);
      if SameIgnoringCase(MODE_TOKENS[k].0, MODE_TOKENS[j].0) {
        SameMark(MODE_TOKENS[k].0, MODE_TOKENS[j].0);
      }
    }
    FindTokenAt(MODE_TOKENS, k, 0);
  }

  lemma {:induction false} ModeEntryIsWord(k: nat)
    requires k < 5
    ensures IsWord(MODE_TOKENS[k].0) && |MODE_TOKENS[k].0| <= 12 && Clean(MODE_TOKENS[k].0)
  {
  }

  lemma {:induction false} EveryModeListed(mode: Mode)
    ensures exists j :: 0 <= j < 5 && MODE_TOKENS[j].1 == mode
  {
    match mode
    case PROPORTIONAL => assert MODE_TOKENS[0].1 == mode;
    case MOMENTARY => assert MODE_TOKENS[1].1 == mode;
    case LATCHED => assert MODE_TOKENS[2].1 == mode;
    case PULSE => assert MODE_TOKENS[3].1 == mode;
    case THL => assert MODE_TOKENS[4].1 == mode;
  }

  // ---- Labels (main/mkh_ports.h) ------------------------------------------------

  function PortLetter(channel: nat): char
    requires channel < 6
  {
    ('A' as int + channel) as char
  }

  // -1 for a letter that names no port.
  function PortFromLetter(letter: char): (port: int)
    ensures -1 <= port < 6
  {
    var upper := if 'a' <= letter <= 'z' then (letter as int - 'a' as int + 'A' as int) as char else letter;
    if upper < 'A' || upper as int >= 'A' as int + 6 then -1 else upper as int - 'A' as int
  }

  function DeviceAppNumber(device: nat): nat {
    device + 1
  }

  // -1 for a number that names no hub.
  function DeviceProtocolIndex(appNumber: int): (device: int)
    ensures -1 <= device < 3
  {
    if appNumber < 1 || appNumber > 3 then -1 else appNumber - 1
  }

  lemma {:induction false} LabelsRoundTrip(device: nat, channel: nat, n: int, letter: char)
    ensures device < 3 ==> DeviceProtocolIndex(DeviceAppNumber(device)) == device
    ensures channel < 6 ==> PortFromLetter(PortLetter(channel)) == channel
    ensures DeviceProtocolIndex(n) >= 0 ==> DeviceAppNumber(DeviceProtocolIndex(n)) == n
    ensures PortFromLetter(letter) >= 0 ==> SameIgnoringCase([PortLetter(PortFromLetter(letter))], [letter])
  {
  }

  // ---- Parsing ---------------------------------------------------------------------

  const LINE_MAX: nat := 127
  const VALUE_MAX: nat := 95

  // sscanf(key, "HUB%d_PORT_%c").
  function ScanKey(key: string): Option<(int, char)> {
    if !("HUB" <= key) then None
    else
      match ScanInt(key[3..])
      case None => None
      case Some((n, rest)) =>
        if "_PORT_" <= rest && |rest| > 6 then Some((n, rest[6])) else None
  }

  datatype Settings = Settings(invert: bool, max: uint8, mode: Mode)

  // One key=value attribute; None skips the whole line.
  function ApplyAttribute(token: string, s: Settings): Option<Settings> {
    var n := Before(token, '=');
    if n == |token| then None
    else
      var key, val := token[..n], token[n + 1..];
      if SameIgnoringCase(key, "invert") then
        if SameIgnoringCase(val, "yes") then Some(s.(invert := true))
        else if SameIgnoringCase(val, "no") then Some(s.(invert := false))
        else None
      else if SameIgnoringCase(key, "max") then
        match ScanInt(val)
        case None => None
        case Some((v, rest)) =>
          if rest != [] || v < 0 || v > 100 then None else Some(s.(max := v))
      else if SameIgnoringCase(key, "curve") then Some(s)
      else if SameIgnoringCase(key, "mode") then
        match ModeOf(val)
        case None => None
        case Some(m) => Some(s.(mode := m))
      else None
  }

  function ApplyAttributes(tokens: seq<string>, s: Settings): Option<Settings> {
    if tokens == [] then Some(s)
    else
      match ApplyAttribute(tokens[0], s)
      case None => None
      case Some(s') => ApplyAttributes(tokens[1..], s')
  }

  datatype Parsed = Ignored | Rejected | Bound(device: nat, port: nat, binding: Binding)

  function ParseValue(device: nat, port: nat, value: string): Parsed {
    var tokens := Tokens(Truncate(value, VALUE_MAX));
    if tokens == [] then Rejected
    else
      match InputOf(tokens[0])
      case None => Rejected
      case Some(input) =>
        match ApplyAttributes(tokens[1..], Settings(false, 100, DefaultMode(input)))
        case None => Rejected
        case Some(s) => Bound(device, port, Binding(input, s.invert, s.max, s.mode))
  }

  function ParseLine(raw: string): (r: Parsed)
    ensures r.Bound? ==> r.device < 3 && r.port < 6
  {
    hide Tokens, InputOf, ApplyAttributes, ScanKey;
    var line := RStrip(Truncate(CString(raw), LINE_MAX));
    var trimmed := SkipBlanks(line);
    if trimmed == [] || trimmed[0] == '#' then Ignored
    else
      var n := Before(line, '=');
      if n == |line| then Rejected
      else
        match ScanKey(RStrip(SkipBlanks(line[..n])))
        case None => Rejected
        case Some((hub, letter)) =>
          var device, port := DeviceProtocolIndex(hub), PortFromLetter(letter);
          if device < 0 || port < 0 then Rejected
          else ParseValue(device, port, SkipBlanks(line[n + 1..]))
  }

  // ---- Printing ----------------------------------------------------------------------

  function PrintKey(device: nat, port: nat): string
    requires device < 3 && port < 6
  {
    "HUB" + Decimal(DeviceAppNumber(device)) + "_PORT_" + [PortLetter(port)]
  }

  function InvertToken(invert: bool): string {
    "invert=" + if invert then "yes" else "no"
  }

  function MaxToken(max: uint8): string {
    "max=" + Decimal(max)
  }

  function CurveToken(): string {
    "curve=linear"
  }

  function ModeToken(mode: Mode): string {
    "mode=" + ModeName(mode)
  }

  function PrintAttributes(b: Binding): string {
    InvertToken(b.invert) + " " + MaxToken(b.max) + " " + CurveToken()
    + if Class(b.input) == AXIS then "" else " " + ModeToken(b.mode)
  }

  function PrintValue(b: Binding): string {
    InputName(b.input) + " " + PrintAttributes(b)
  }

  function PrintLine(device: nat, port: nat, b: Binding): string
    requires device < 3 && port < 6
  {
    PrintKey(device, port) + " = " + PrintValue(b)
  }

  // What a saved binding comes back as: the mode of an axis is not written.
  function Normalized(b: Binding): Binding {
    if Class(b.input) == AXIS then b.(mode := PROPORTIONAL) else b
  }

  predicate Writable(b: Binding) {
    b.input != NONE && b.max <= 100
  }
}
