// A printed mapping line parses back to its binding.
module ConfigRoundTrip {
  import opened Wrappers
  import opened CText
  import opened ConfigLine

  // ---- Attributes ----------------------------------------------------------------

  lemma {:induction false} SameAsItself(s: string)
    ensures SameIgnoringCase(s, s)
  {
  }

  lemma {:induction false} DifferentLengths(a: string, b: string)
    requires |a| != |b|
    ensures !SameIgnoringCase(a, b)
  {
  }

  lemma {:induction false} SplitAttribute(key: string, val: string)
    requires '=' !in key
    ensures Before(key + "=" + val, '=') == |key|
    ensures (key + "=" + val)[..|key|] == key && (key + "=" + val)[|key| + 1..] == val
  {
    BeforeStops(key, '=', val);
  }

  lemma {:induction false} InvertAttribute(invert: bool, s: Settings)
    ensures ApplyAttribute(InvertToken(invert), s) == Some(s.(invert := invert))
  {
    var val := if invert then "yes" else "no";
    SplitAttribute("invert", val);
    assert "invert=" + val == "invert" + "=" + val;
    SameAsItself("invert");
    SameAsItself("yes");
    SameAsItself("no");
    DifferentLengths("no", "yes");
  }

  lemma {:induction false} MaxAttribute(max: uint8, s: Settings)
    ensures ApplyAttribute(MaxToken(max), s) == if max <= 100 then Some(s.(max := max)) else None
  {
    var val := Decimal(max);
    SplitAttribute("max", val);
    assert "max=" + val == "max" + "=" + val;
    SameAsItself("max");
    DifferentLengths("max", "invert");
    ScanDecimal(max, []);
    assert val + [] == val;
  }

  lemma {:induction false} CurveAttribute(s: Settings)
    ensures ApplyAttribute(CurveToken(), s) == Some(s)
  {
    SplitAttribute("curve", "linear");
    assert "curve=linear" == "curve" + "=" + "linear";
    SameAsItself("curve");
    DifferentLengths("curve", "invert");
    DifferentLengths("curve", "max");
  }

  lemma {:induction false} ModeAttribute(mode: Mode, s: Settings)
    ensures ApplyAttribute(ModeToken(mode), s) == Some(s.(mode := mode))
  {
    hide ModeOf, ModeName;
    var val := ModeName(mode);
    SplitAttribute("mode", val);
    assert "mode=" + val == "mode" + "=" + val;
    SameAsItself("mode");
    DifferentLengths("mode", "invert");
    DifferentLengths("mode", "max");
    DifferentLengths("mode", "curve");
    ModeNamesRoundTrip(mode);
  }

  function AttributeTokens(b: Binding): seq<string> {
    [InvertToken(b.invert), MaxToken(b.max), CurveToken()]
    + if Class(b.input) == AXIS then [] else [ModeToken(b.mode)]
  }

  lemma {:induction false} ApplyStep(token: string, rest: seq<string>, s: Settings, s': Settings)
    requires ApplyAttribute(token, s) == Some(s')
    ensures ApplyAttributes([token] + rest, s) == ApplyAttributes(rest, s')
  {
    assert ([token] + rest)[1..] == rest;
  }

  lemma {:induction false} PrintedAttributesApply(b: Binding, s: Settings)
    requires s.mode == DefaultMode(b.input)
    ensures ApplyAttributes(AttributeTokens(b), s)
         == if b.max <= 100 then Some(Settings(b.invert, b.max, Normalized(b).mode)) else None
  {
    hide ApplyAttribute, ApplyAttributes, InvertToken, MaxToken, CurveToken, ModeToken;
    var last := if Class(b.input) == AXIS then [] else [ModeToken(b.mode)];
    var s1 := s.(invert := b.invert);
    var s2 := s1.(max := b.max);
    assert AttributeTokens(b) == [InvertToken(b.invert)] + ([MaxToken(b.max)] + ([CurveToken()] + last));
    InvertAttribute(b.invert, s);
    ApplyStep(InvertToken(b.invert), [MaxToken(b.max)] + ([CurveToken()] + last), s, s1);
    MaxAttribute(b.max, s1);
    if b.max <= 100 {
      ApplyStep(MaxToken(b.max), [CurveToken()] + last, s1, s2);
      CurveAttribute(s2);
      ApplyStep(CurveToken(), last, s2, s2);
      ModeAttribute(b.mode, s2);
      NothingToApply(s2);
      NothingToApply(s2.(mode := b.mode));
      if Class(b.input) != AXIS {
        assert last == [ModeToken(b.mode)] + [];
        ApplyStep(ModeToken(b.mode), [], s2, s2.(mode := b.mode));
      }
    } else {
      FirstFails(MaxToken(b.max), [CurveToken()] + last, s1);
    }
  }

  lemma {:induction false} NothingToApply(s: Settings)
    ensures ApplyAttributes([], s) == Some(s)
  {
  }

  lemma {:induction false} FirstFails(token: string, rest: seq<string>, s: Settings)
    requires ApplyAttribute(token, s) == None
    ensures ApplyAttributes([token] + rest, s) == None
  {
  }

  // ---- Tokens of a printed value ----------------------------------------------------

  lemma {:induction false} CleanIsWord(s: string)
    requires s != [] && Clean(s)
    ensures IsWord(s)
  {
  }

  lemma {:induction false} CleanAppend(a: string, b: string)
    requires Clean(a) && Clean(b)
    ensures Clean(a + b)
  {
  }

  lemma {:induction false} DecimalIsClean(n: nat)
    ensures Clean(Decimal(n)) && (n < 1000 ==> |Decimal(n)| <= 3)
  {
    assert forall i :: 0 <= i < |Decimal(n)| ==> IsDigit(Decimal(n)[i]);
    if 10 <= n < 1000 {
      assert Decimal(n / 10) == if n / 10 < 10 then [('0' as int + n / 10) as char]
                                else Decimal(n / 100) + [('0' as int + n / 10 % 10) as char];
    }
  }

  predicate IsCleanWord(t: string, limit: nat) {
    t != [] && Clean(t) && |t| <= limit
  }

  lemma {:induction false} TokensAreClean(b: Binding)
    ensures IsCleanWord(InputName(b.input), 4)
    ensures IsCleanWord(InvertToken(b.invert), 10) && IsCleanWord(MaxToken(b.max), 7)
    ensures IsCleanWord(CurveToken(), 12) && IsCleanWord(ModeToken(b.mode), 17)
  {
    LiteralsAreClean();
    hide ModeName, Decimal, InputName, Clean;
    DecimalIsClean(b.max);
    InputNamesRoundTrip(b.input);
    ModeNamesRoundTrip(b.mode);
    CleanAppend("max=", Decimal(b.max));
    CleanAppend("mode=", ModeName(b.mode));
  }

  lemma {:induction false} LiteralsAreClean()
    ensures Clean("invert=yes") && Clean("invert=no") && Clean("max=") && Clean("mode=") && Clean("curve=linear")
    ensures "invert=" + "yes" == "invert=yes" && "invert=" + "no" == "invert=no"
  {
  }

  lemma {:induction false} TokensOfPrintedAttributes(b: Binding)
    ensures Tokens(PrintAttributes(b)) == AttributeTokens(b)
  {
    hide Tokens, InvertToken, MaxToken, CurveToken, ModeToken, InputName, IsWord, Clean;
    TokensAreClean(b);
    var i, m, c, o := InvertToken(b.invert), MaxToken(b.max), CurveToken(), ModeToken(b.mode);
    CleanIsWord(i);
    CleanIsWord(m);
    CleanIsWord(c);
    CleanIsWord(o);
    if Class(b.input) == AXIS {
      assert PrintAttributes(b) == i + " " + (m + " " + c);
      TokensCons(i, m + " " + c);
      TokensCons(m, c);
      TokensOfWord(c);
    } else {
      assert PrintAttributes(b) == i + " " + (m + " " + (c + " " + o));
      TokensCons(i, m + " " + (c + " " + o));
      TokensCons(m, c + " " + o);
      TokensCons(c, o);
      TokensOfWord(o);
    }
  }

  // Visible words separated by single blanks, no blank at either end.
  predicate Spaced(s: string) {
    s != [] && s[0] > ' ' && s[|s| - 1] > ' ' && forall i :: 0 <= i < |s| ==> s[i] >= ' '
  }

  lemma {:induction false} CleanIsSpaced(s: string)
    requires s != [] && Clean(s)
    ensures Spaced(s)
  {
  }

  lemma {:induction false} SpacedJoin(a: string, b: string)
    requires Spaced(a) && Spaced(b)
    ensures Spaced(a + " " + b)
  {
  }

  // No printed value reaches the 95-character cut.
  lemma {:induction false} PrintedValueFits(b: Binding)
    ensures |PrintValue(b)| <= 54 < VALUE_MAX
    ensures Spaced(PrintValue(b))
  {
    hide InvertToken, MaxToken, CurveToken, ModeToken, InputName, Clean, Spaced;
    TokensAreClean(b);
    var n, i, m, c, o := InputName(b.input), InvertToken(b.invert), MaxToken(b.max), CurveToken(), ModeToken(b.mode);
    CleanIsSpaced(n);
    CleanIsSpaced(i);
    CleanIsSpaced(m);
    CleanIsSpaced(c);
    CleanIsSpaced(o);
    SpacedJoin(n, i);
    SpacedJoin(n + " " + i, m);
    SpacedJoin(n + " " + i + " " + m, c);
    SpacedJoin(n + " " + i + " " + m + " " + c, o);
    if Class(b.input) == AXIS {
      assert PrintValue(b) == n + " " + i + " " + m + " " + c;
    } else {
      assert PrintValue(b) == n + " " + i + " " + m + " " + c + " " + o;
    }
  }

  lemma {:induction false} PrintedValueParses(device: nat, port: nat, b: Binding)
    ensures ParseValue(device, port, PrintValue(b))
         == if Writable(b) then Bound(device, port, Normalized(b)) else Rejected
  {
    hide Tokens, PrintAttributes, InputName, InputOf, ApplyAttributes, AttributeTokens;
    PrintedValueFits(b);
    InputNamesRoundTrip(b.input);
    TokensCons(InputName(b.input), PrintAttributes(b));
    TokensOfPrintedAttributes(b);
    var tokens := [InputName(b.input)] + AttributeTokens(b);
    assert tokens[1..] == AttributeTokens(b);
    if b.input != NONE {
      PrintedAttributesApply(b, Settings(false, 100, DefaultMode(b.input)));
    }
  }

  // ---- The whole line ------------------------------------------------------------------

  lemma {:induction false} CStringWhole(s: string)
    requires forall i :: 0 <= i < |s| ==> s[i] >= ' '
    ensures CString(s) == s
  {
    if s != [] {
      CStringWhole(s[1..]);
    }
  }

  lemma {:induction false} PrintedKeyScans(device: nat, port: nat)
    requires device < 3 && port < 6
    ensures ScanKey(PrintKey(device, port)) == Some((DeviceAppNumber(device), PortLetter(port)))
    ensures Clean(PrintKey(device, port)) && '=' !in PrintKey(device, port)
    ensures 0 < |PrintKey(device, port)| <= 11 && PrintKey(device, port)[0] == 'H'
  {
    var n := DeviceAppNumber(device);
    var key := PrintKey(device, port);
    var rest := "_PORT_" + [PortLetter(port)];
    KeyParts(n, PortLetter(port));
    hide Decimal, ScanInt, Clean;
    assert key == "HUB" + (Decimal(n) + rest);
    assert key[3..] == Decimal(n) + rest;
    ScanDecimal(n, rest);
    assert rest[6] == PortLetter(port);
  }

  lemma {:induction false} KeyParts(n: nat, letter: char)
    requires 1 <= n <= 3 && letter > ' ' && letter != '='
    ensures |Decimal(n)| == 1
    ensures var key := "HUB" + Decimal(n) + "_PORT_" + [letter];
            |key| == 11 && key[0] == 'H' && Clean(key) && '=' !in key
  {
    assert Decimal(n) == [('0' as int + n) as char];
  }

  lemma {:induction false} StripKey(key: string)
    requires key != [] && Clean(key)
    ensures RStrip(SkipBlanks(key + " ")) == key
  {
    assert (key + " ")[..|key|] == key;
    assert RStrip(key) == key;
  }

  lemma {:induction false} StripLine(line: string)
    requires 0 < |line| <= LINE_MAX && line[0] == 'H' && line[|line| - 1] > ' '
    requires forall i :: 0 <= i < |line| ==> line[i] >= ' '
    ensures RStrip(Truncate(CString(line), LINE_MAX)) == line
    ensures SkipBlanks(line) == line
  {
    CStringWhole(line);
  }

  // A saved line comes back as its binding exactly when its input is assigned and its
  // maximum is at most 100; any other saved line is skipped on reading.
  lemma {:induction false} PrintedLineParses(device: nat, port: nat, b: Binding)
    requires device < 3 && port < 6
    ensures ParseLine(PrintLine(device, port, b))
         == if Writable(b) then Bound(device, port, Normalized(b)) else Rejected
    ensures |PrintLine(device, port, b)| < LINE_MAX && '\n' !in PrintLine(device, port, b)
  {
    hide PrintKey, PrintValue, ParseValue, ScanKey, RStrip, SkipBlanks, CString, Clean;
    var key, value := PrintKey(device, port), PrintValue(b);
    var line := PrintLine(device, port, b);
    PrintedKeyScans(device, port);
    PrintedValueFits(b);
    VisibleLine(key, value);
    assert line == key + " = " + value;
    StripLine(line);
    BeforeStops(key + " ", '=', " " + value);
    assert line == (key + " ") + ['='] + (" " + value);
    assert line[..|key| + 1] == key + " " && line[|key| + 2..] == " " + value;
    StripKey(key);
    SkipOneBlank(value);
    LabelsRoundTrip(device, port, 0, 'A');
    PrintedValueParses(device, port, b);
  }

  lemma {:induction false} VisibleLine(key: string, value: string)
    requires Clean(key) && Spaced(value)
    ensures forall i :: 0 <= i < |key + " = " + value| ==> (key + " = " + value)[i] >= ' '
  {
  }

  lemma {:induction false} SkipOneBlank(value: string)
    requires value != [] && value[0] > ' '
    ensures SkipBlanks(" " + value) == value
  {
    assert (" " + value)[1..] == value;
  }
}
