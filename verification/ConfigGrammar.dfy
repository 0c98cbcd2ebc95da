// What a hand-written mapping line means: the scanning functions on text as a person lays it
// out, attribute by attribute and piece by piece, and every way a line is refused.
module ConfigGrammar {
  import opened Wrappers
  import opened CText
  import opened ConfigLine

  // ---- Pieces of text --------------------------------------------------------------

  predicate Blanks(s: string) {
    forall i :: 0 <= i < |s| ==> s[i] == ' ' || s[i] == '\t'
  }

  // Space, tab, line feed, vertical tab, form feed, carriage return.
  predicate Spaces(s: string) {
    forall i :: 0 <= i < |s| ==> s[i] == ' ' || 9 <= s[i] as int <= 13
  }

  predicate LineEnds(s: string) {
    forall i :: 0 <= i < |s| ==> s[i] == ' ' || s[i] == '\t' || s[i] == '\r' || s[i] == '\n'
  }

  predicate Digits(s: string) {
    s != [] && forall i :: 0 <= i < |s| ==> '0' <= s[i] <= '9'
  }

  // No blank in it, and not empty.
  predicate Word(s: string) {
    s != [] && forall i :: 0 <= i < |s| ==> s[i] != ' ' && s[i] != '\t'
  }

  predicate StartsBlank(s: string) {
    s != [] && (s[0] == ' ' || s[0] == '\t')
  }

  lemma {:induction false} SkipBlanksOfText(lead: string, rest: string)
    requires Blanks(lead) && !StartsBlank(rest)
    ensures SkipBlanks(lead + rest) == rest
  {
    if lead == [] {
      assert lead + rest == rest;
    } else {
      assert (lead + rest)[1..] == lead[1..] + rest;
      SkipBlanksOfText(lead[1..], rest);
    }
  }

  lemma {:induction false} SkipSpaceOfText(lead: string, rest: string)
    requires Spaces(lead) && (rest == [] || !Spaces(rest[..1]))
    ensures SkipSpace(lead + rest) == rest
  {
    if lead == [] {
      assert lead + rest == rest;
    } else {
      assert (lead + rest)[1..] == lead[1..] + rest;
      SkipSpaceOfText(lead[1..], rest);
    }
  }

  lemma {:induction false} RStripOfText(rest: string, tail: string)
    requires LineEnds(tail) && (rest == [] || !LineEnds(rest[|rest| - 1..]))
    ensures RStrip(rest + tail) == rest
    decreases |tail|
  {
    if tail == [] {
      assert rest + tail == rest;
      if rest != [] {
        assert rest[|rest| - 1..] == [rest[|rest| - 1]];
      }
    } else {
      var s := rest + tail;
      assert s[..|s| - 1] == rest + tail[..|tail| - 1];
      RStripOfText(rest, tail[..|tail| - 1]);
    }
  }

  lemma {:induction false} CStringOfText(s: string, junk: string)
    requires forall i :: 0 <= i < |s| ==> s[i] != '\0'
    ensures CString(s + ['\0'] + junk) == s && CString(s) == s
  {
    if s != [] {
      assert (s + ['\0'] + junk)[1..] == s[1..] + ['\0'] + junk;
      CStringOfText(s[1..], junk);
    }
  }

  // Words come out one by one, whatever blanks stand between them.
  lemma {:induction false} WordsOfText(lead: string, word: string, tail: string)
    requires Blanks(lead) && Word(word) && (tail == [] || StartsBlank(tail))
    ensures Tokens(lead + word + tail) == [word] + Tokens(tail)
  {
    var s := lead + word + tail;
    assert s == lead + (word + tail);
    assert (word + tail)[0] == word[0];
    SkipBlanksOfText(lead, word + tail);
    WordLengthStops(word, tail);
    assert (word + tail)[..|word|] == word && (word + tail)[|word|..] == tail;
  }

  lemma {:induction false} NoWordsInBlanks(lead: string)
    requires Blanks(lead)
    ensures Tokens(lead) == []
  {
    assert lead + [] == lead;
    SkipBlanksOfText(lead, []);
  }

  // ---- Numbers ---------------------------------------------------------------------

  function Signed(sign: string, digits: string): int
    requires Digits(digits)
  {
    var v: int := DigitsValue(digits);
    if sign == "-" then -v else v
  }

  lemma {:induction false} SignOfText(sign: string, u: string)
    requires sign in {"", "+", "-"} && u != [] && u[0] != '+' && u[0] != '-'
    ensures var t := sign + u;
            t != [] && (t[0] == '-' <==> sign == "-")
            && (if t[0] == '-' || t[0] == '+' then t[1..] else t) == u
  {
    var t := sign + u;
    if sign == "" {
      assert t == u;
    } else {
      assert t[1..] == u;
    }
  }

  // White space, a sign, digits, and what follows them.
  lemma {:induction false} ScanIntOfText(lead: string, sign: string, digits: string, rest: string)
    requires Spaces(lead) && sign in {"", "+", "-"} && Digits(digits) && (rest == [] || !Digits(rest[..1]))
    ensures ScanInt(lead + sign + digits + rest)
         == Some((Signed(sign, digits), rest))
  {
    hide SkipSpace, DigitRun, DigitsValue;
    var u := digits + rest;
    var t := sign + u;
    assert u[0] == digits[0];
    SignOfText(sign, u);
    assert lead + sign + digits + rest == lead + t;
    assert t[..1] == [t[0]];
    SkipSpaceOfText(lead, t);
    assert rest != [] ==> rest[..1][0] == rest[0];
    DigitRunStops(digits, rest);
    assert u[..|digits|] == digits && u[|digits|..] == rest;
  }

  // Nothing else scans.
  lemma {:induction false} NoIntInText(lead: string, sign: string, rest: string)
    requires Spaces(lead) && sign in {"", "+", "-"} && (rest == [] || !Digits(rest[..1]))
    requires sign == "" ==> rest == [] || (!Spaces(rest[..1]) && rest[0] != '+' && rest[0] != '-')
    ensures ScanInt(lead + sign + rest) == None
  {
    var t := sign + rest;
    assert lead + sign + rest == lead + t;
    if t == [] {
      SkipSpaceOfText(lead, t);
    } else {
      assert t[0] == if sign == "" then rest[0] else sign[0];
      assert !Spaces(t[..1]) by {
        assert t[..1][0] == t[0];
        assert sign == "" ==> t == rest;
      }
      SkipSpaceOfText(lead, t);
      assert sign != "" ==> t[1..] == rest;
      assert sign == "" ==> t == rest;
    }
    assert rest != [] ==> rest[..1][0] == rest[0];
    assert DigitRun(rest) == 0;
  }

  // ---- One attribute -----------------------------------------------------------------

  // A whole number from 0 to 100 and nothing behind it.
  predicate IsPercent(val: string, v: int) {
    ScanInt(val) == Some((v, "")) && 0 <= v <= 100
  }

  // What key=val does to the settings.
  predicate Sets(key: string, val: string, s: Settings, r: Settings) {
    (SameIgnoringCase(key, "invert") && SameIgnoringCase(val, "yes") && r == Settings(true, s.max, s.mode))
    || (SameIgnoringCase(key, "invert") && SameIgnoringCase(val, "no") && r == Settings(false, s.max, s.mode))
    || (SameIgnoringCase(key, "max") && IsPercent(val, r.max) && r.invert == s.invert && r.mode == s.mode)
    || (SameIgnoringCase(key, "curve") && r == s)
    || (SameIgnoringCase(key, "mode") && SameIgnoringCase(val, "proportional")
        && r == Settings(s.invert, s.max, PROPORTIONAL))
    || (SameIgnoringCase(key, "mode") && SameIgnoringCase(val, "momentary")
        && r == Settings(s.invert, s.max, MOMENTARY))
    || (SameIgnoringCase(key, "mode") && SameIgnoringCase(val, "latched") && r == Settings(s.invert, s.max, LATCHED))
    || (SameIgnoringCase(key, "mode") && SameIgnoringCase(val, "pulse") && r == Settings(s.invert, s.max, PULSE))
    || (SameIgnoringCase(key, "mode") && SameIgnoringCase(val, "thl") && r == Settings(s.invert, s.max, THL))
  }

  lemma {:induction false} ModeOfText(val: string)
    ensures ModeOf(val) ==
            if SameIgnoringCase(val, "proportional") then Some(PROPORTIONAL)
            else if SameIgnoringCase(val, "momentary") then Some(MOMENTARY)
            else if SameIgnoringCase(val, "latched") then Some(LATCHED)
            else if SameIgnoringCase(val, "pulse") then Some(PULSE)
            else if SameIgnoringCase(val, "thl") then Some(THL) else None
  {
    hide SameIgnoringCase;
    assert FindToken(MODE_TOKENS, val, 5) == None;
    assert FindToken(MODE_TOKENS, val, 4) == if SameIgnoringCase(val, "thl") then Some(THL) else None;
    assert FindToken(MODE_TOKENS, val, 3)
        == if SameIgnoringCase(val, "pulse") then Some(PULSE) else FindToken(MODE_TOKENS, val, 4);
    assert FindToken(MODE_TOKENS, val, 2)
        == if SameIgnoringCase(val, "latched") then Some(LATCHED) else FindToken(MODE_TOKENS, val, 3);
    assert FindToken(MODE_TOKENS, val, 1)
        == if SameIgnoringCase(val, "momentary") then Some(MOMENTARY) else FindToken(MODE_TOKENS, val, 2);
  }

  lemma {:induction false} LengthsDiffer(a: string, b: string, c: string)
    requires SameIgnoringCase(a, b) && |b| != |c|
    ensures !SameIgnoringCase(a, c)
  {
  }

  // The keys, and the values of a key, exclude each other: their lengths differ.
  lemma {:induction false} KeysExclude(key: string)
    ensures SameIgnoringCase(key, "max") ==> |key| == 3
    ensures SameIgnoringCase(key, "mode") ==> |key| == 4
    ensures SameIgnoringCase(key, "curve") ==> |key| == 5
    ensures SameIgnoringCase(key, "invert") ==> |key| == 6
    ensures SameIgnoringCase(key, "no") ==> |key| == 2
    ensures SameIgnoringCase(key, "yes") ==> |key| == 3
    ensures SameIgnoringCase(key, "thl") ==> |key| == 3
    ensures SameIgnoringCase(key, "pulse") ==> |key| == 5
    ensures SameIgnoringCase(key, "latched") ==> |key| == 7
    ensures SameIgnoringCase(key, "momentary") ==> |key| == 9
    ensures SameIgnoringCase(key, "proportional") ==> |key| == 12
  {
  }

  lemma {:induction false} AttributeOfText(key: string, val: string, s: Settings, r: Settings)
    requires '=' !in key
    ensures ApplyAttribute(key + "=" + val, s) == Some(r) <==> Sets(key, val, s, r)
  {
    hide SameIgnoringCase, ScanInt, ModeOf;
    BeforeStops(key, '=', val);
    var token := key + "=" + val;
    assert token[..|key|] == key && token[|key| + 1..] == val;
    ModeOfText(val);
    KeysExclude(key);
    KeysExclude(val);
  }

  // A word without '=' is refused.
  lemma {:induction false} NoAttributeWithoutEquals(token: string, s: Settings)
    requires '=' !in token
    ensures ApplyAttribute(token, s) == None
  {
  }

  // ---- Attribute lists and values ------------------------------------------------------

  lemma {:induction false} AttributesInOrder(token: string, rest: seq<string>, s: Settings)
    ensures ApplyAttributes([], s) == Some(s)
    ensures ApplyAttributes([token] + rest, s)
         == match ApplyAttribute(token, s) case None => None case Some(s') => ApplyAttributes(rest, s')
  {
    hide ApplyAttribute;
    assert ([token] + rest)[1..] == rest;
  }

  // The settings a binding starts from: no invert, full scale, and the mode of its kind of input.
  function Start(input: Input): Settings {
    Settings(false, 100, if input in {LSNS, LSEW, RSNS, RSEW, LT, RT} then PROPORTIONAL else MOMENTARY)
  }

  // A value is an input's name and then attributes; anything else is refused.
  lemma {:induction false} ValueOfText(device: nat, port: nat, value: string)
    ensures var tokens := Tokens(if |value| <= 95 then value else value[..95]);
            ParseValue(device, port, value) ==
            if tokens == [] || InputOf(tokens[0]) == None then Rejected
            else
              var input := InputOf(tokens[0]).value;
              match ApplyAttributes(tokens[1..], Start(input))
              case None => Rejected
              case Some(s) => Bound(device, port, Binding(input, s.invert, s.max, s.mode))
  {
    hide Tokens, InputOf, ApplyAttributes;
  }

  // ---- Keys and lines ---------------------------------------------------------------------

  // HUB<number>_PORT_<letter>, and anything behind it.
  lemma {:induction false} KeyOfText(lead: string, sign: string, digits: string, letter: char, junk: string)
    requires Spaces(lead) && sign in {"", "+", "-"} && Digits(digits)
    ensures ScanKey("HUB" + (lead + sign + digits + ("_PORT_" + [letter] + junk)))
         == Some((Signed(sign, digits), letter))
  {
    hide ScanInt;
    var rest := "_PORT_" + [letter] + junk;
    var key := "HUB" + (lead + sign + digits + rest);
    assert key[3..] == lead + sign + digits + rest;
    assert rest[..1][0] == '_';
    ScanIntOfText(lead, sign, digits, rest);
    assert rest[6] == letter;
  }

  // Only such a key is one.
  lemma {:induction false} KeysAreSpelled(key: string)
    ensures ScanKey(key).Some? ==>
              "HUB" <= key && ScanInt(key[3..]).Some?
              && "_PORT_" <= ScanInt(key[3..]).value.1 && |ScanInt(key[3..]).value.1| > 6
  {
  }

  // A line as a person writes it: blanks, a key, blanks, '=', blanks, a value, and what ends the
  // line. It says what its key and value say.
  lemma {:induction false} LineOfText(lead: string, key: string, gap: string, gap': string, value: string, tail: string)
    requires Blanks(lead) && LineEnds(gap) && Blanks(gap') && LineEnds(tail)
    requires key != [] && '=' !in key && !StartsBlank(key) && key[0] != '#' && !LineEnds(key[|key| - 1..])
    requires '=' !in gap && value != [] && !StartsBlank(value) && !LineEnds(value[|value| - 1..])
    requires forall c :: c in lead + key + gap + "=" + gap' + value + tail ==> c != '\0'
    requires |lead + key + gap + "=" + gap' + value + tail| <= 127
    ensures ParseLine(lead + key + gap + "=" + gap' + value + tail) ==
            match ScanKey(key)
            case None => Rejected
            case Some((hub, letter)) =>
              if DeviceProtocolIndex(hub) < 0 || PortFromLetter(letter) < 0 then Rejected
              else ParseValue(DeviceProtocolIndex(hub), PortFromLetter(letter), value)
  {
    hide ScanKey, ParseValue, RStrip, SkipBlanks, CString, DeviceProtocolIndex, PortFromLetter, Tokens;
    var line := lead + key + gap + "=" + gap' + value;
    var raw := line + tail;
    assert raw == lead + key + gap + "=" + gap' + value + tail;
    NoNulIsWhole(raw);
    assert line[|line| - 1..] == value[|value| - 1..];
    RStripOfText(line, tail);
    var rest := key + gap + "=" + gap' + value;
    assert line == lead + rest && rest[0] == key[0];
    SkipBlanksOfText(lead, rest);
    var left := lead + key + gap;
    NoEquals(lead, key, gap);
    BeforeStops(left, '=', gap' + value);
    assert line == left + ['='] + (gap' + value);
    assert line[..|left|] == left && line[|left| + 1..] == gap' + value;
    assert left == lead + (key + gap) && (key + gap)[0] == key[0];
    SkipBlanksOfText(lead, key + gap);
    RStripOfText(key, gap);
    SkipBlanksOfText(gap', value);
  }

  lemma {:induction false} NoEquals(lead: string, key: string, gap: string)
    requires Blanks(lead) && '=' !in key && '=' !in gap
    ensures '=' !in lead + key + gap
  {
  }

  lemma {:induction false} NoNulIsWhole(raw: string)
    requires forall c :: c in raw ==> c != '\0'
    ensures CString(raw) == raw
  {
    forall i | 0 <= i < |raw|
      ensures raw[i] != '\0'
    {
      assert raw[i] in raw;
    }
    CStringOfText(raw, []);
  }

  // Lines that say nothing: blank ones, and those whose first visible character is '#'.
  lemma {:induction false} IgnoredLines(lead: string, rest: string, tail: string)
    requires Blanks(lead) && LineEnds(tail) && |lead + rest + tail| <= 127
    requires forall c :: c in lead + rest + tail ==> c != '\0'
    requires rest == [] || (!StartsBlank(rest) && !LineEnds(rest[|rest| - 1..]) && !LineEnds(rest[..1]))
    ensures ParseLine(lead + rest + tail) == Ignored <==> rest == [] || rest[0] == '#'
  {
    hide RStrip, SkipBlanks, CString, ScanKey, ParseValue, DeviceProtocolIndex, PortFromLetter;
    var raw := lead + rest + tail;
    NoNulIsWhole(raw);
    if rest == [] {
      AllLineEnds(lead, tail);
      assert [] + raw == raw;
      RStripOfText([], raw);
      assert "" + "" == "";
      SkipBlanksOfText("", "");
    } else {
      var line := lead + rest;
      assert line[|line| - 1..] == rest[|rest| - 1..];
      RStripOfText(line, tail);
      SkipBlanksOfText(lead, rest);
      ParsedIsNotIgnored(line, rest, raw);
    }
  }

  lemma {:induction false} AllLineEnds(lead: string, tail: string)
    requires Blanks(lead) && LineEnds(tail)
    ensures LineEnds(lead + [] + tail)
  {
  }

  lemma {:induction false} ParsedIsNotIgnored(line: string, rest: string, raw: string)
    requires |raw| <= 127 && CString(raw) == raw && RStrip(raw) == line && SkipBlanks(line) == rest && rest != []
    ensures ParseLine(raw) == Ignored <==> rest[0] == '#'
  {
    hide RStrip, SkipBlanks, CString, ScanKey, Tokens, InputOf, ApplyAttributes;
  }

  // A meaningful line without '=' is refused, and so is one whose key is no key, whatever its
  // layout.
  lemma {:induction false} RefusedWithoutEquals(lead: string, rest: string, tail: string)
    requires Blanks(lead) && LineEnds(tail) && |lead + rest + tail| <= 127
    requires forall c :: c in lead + rest + tail ==> c != '\0'
    requires rest != [] && !StartsBlank(rest) && !LineEnds(rest[|rest| - 1..]) && rest[0] != '#' && '=' !in rest
    ensures ParseLine(lead + rest + tail) == Rejected
  {
    hide RStrip, SkipBlanks, CString, ScanKey, ParseValue, DeviceProtocolIndex, PortFromLetter;
    var raw, line := lead + rest + tail, lead + rest;
    NoNulIsWhole(raw);
    assert line[|line| - 1..] == rest[|rest| - 1..];
    RStripOfText(line, tail);
    SkipBlanksOfText(lead, rest);
    assert '=' !in line;
    assert Before(line, '=') == |line|;
  }

  // Only the first 127 characters of a line are looked at.
  lemma {:induction false} OnlyFirst127(raw: string)
    requires forall c :: c in raw ==> c != '\0'
    ensures ParseLine(raw) == ParseLine(if |raw| <= 127 then raw else raw[..127])
  {
    hide RStrip, SkipBlanks, CString, ScanKey, ParseValue, DeviceProtocolIndex, PortFromLetter;
    NoNulIsWhole(raw);
    if |raw| > 127 {
      assert forall c :: c in raw[..127] ==> c in raw;
      NoNulIsWhole(raw[..127]);
    }
  }

  // ---- Names --------------------------------------------------------------------------------

  lemma {:induction false} NameOfEntry(k: nat)
    requires k < |INPUT_TOKENS|
    requires forall j :: 0 <= j < |INPUT_TOKENS| && INPUT_TOKENS[j].1 == INPUT_TOKENS[k].1 ==> j == k
    ensures InputName(INPUT_TOKENS[k].1) == INPUT_TOKENS[k].0
  {
    hide INPUT_TOKENS, FindName;
    var j := FindNameIs(INPUT_TOKENS, INPUT_TOKENS[k].1, 0);
  }

  // The names people write, one by one.
  lemma {:induction false} InputNamesAre()
    ensures InputName(LSNS) == "LSNS" && InputName(LSEW) == "LSEW" && InputName(RSNS) == "RSNS"
    ensures InputName(RSEW) == "RSEW" && InputName(LT) == "LT" && InputName(RT) == "RT"
    ensures InputName(BTN_A) == "A" && InputName(BTN_B) == "B" && InputName(BTN_X) == "X" && InputName(BTN_Y) == "Y"
    ensures InputName(LB) == "LB" && InputName(RB) == "RB" && InputName(L3) == "L3" && InputName(R3) == "R3"
    ensures InputName(DPAD_UP) == "DUP" && InputName(DPAD_DOWN) == "DDN"
    ensures InputName(DPAD_LEFT) == "DLT" && InputName(DPAD_RIGHT) == "DRT"
  {
    hide InputName;
    for k := 0 to |INPUT_TOKENS|
      invariant forall j :: 0 <= j < k ==> InputName(INPUT_TOKENS[j].1) == INPUT_TOKENS[j].0
    {
      NameOfEntry(k);
    }
    assert INPUT_TOKENS[0] == ("LSNS", LSNS) && INPUT_TOKENS[1] == ("LSEW", LSEW) && INPUT_TOKENS[2] == ("RSNS", RSNS);
    assert INPUT_TOKENS[3] == ("RSEW", RSEW) && INPUT_TOKENS[4] == ("LT", LT) && INPUT_TOKENS[5] == ("RT", RT);
    assert INPUT_TOKENS[6] == ("A", BTN_A) && INPUT_TOKENS[7] == ("B", BTN_B) && INPUT_TOKENS[8] == ("X", BTN_X);
    assert INPUT_TOKENS[9] == ("Y", BTN_Y) && INPUT_TOKENS[10] == ("LB", LB) && INPUT_TOKENS[11] == ("RB", RB);
    assert INPUT_TOKENS[12] == ("DUP", DPAD_UP) && INPUT_TOKENS[13] == ("DDN", DPAD_DOWN);
    assert INPUT_TOKENS[14] == ("DLT", DPAD_LEFT) && INPUT_TOKENS[15] == ("DRT", DPAD_RIGHT);
    assert INPUT_TOKENS[16] == ("L3", L3) && INPUT_TOKENS[17] == ("R3", R3);
  }

  lemma {:induction false} ModeNamesAre()
    ensures ModeName(PROPORTIONAL) == "proportional" && ModeName(MOMENTARY) == "momentary"
    ensures ModeName(LATCHED) == "latched" && ModeName(PULSE) == "pulse" && ModeName(THL) == "thl"
  {
  }

  // Hub n is slot n - 1; ports are the letters A to F in either case.
  lemma {:induction false} LabelsAre(hub: int, letter: char)
    ensures DeviceProtocolIndex(hub) == (if hub in {1, 2, 3} then hub - 1 else -1)
    ensures PortFromLetter(letter) == (if 'A' <= letter <= 'F' then letter as int - 65
                                       else if 'a' <= letter <= 'f' then letter as int - 97 else -1)
  {
  }
}
