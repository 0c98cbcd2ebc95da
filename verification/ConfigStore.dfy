// The static table and functions of main/mkh_config.c as an object: scanning loops and
// table updates, proved against the functions on lines and tables.
module ConfigStore {
  import opened Wrappers
  import opened CText
  import opened ConfigLine
  import opened ConfigRoundTrip
  import opened ConfigTable

  // ---- Scanning loops -----------------------------------------------------------

  method SkipSpacesOf(s: string) returns (r: string)
    ensures r == SkipBlanks(s)
  {
    var i := 0;
    assert s[0..] == s;
    while i < |s| && IsBlank(s[i])
      invariant 0 <= i <= |s|
      invariant SkipBlanks(s) == SkipBlanks(s[i..])
    {
      assert s[i..][1..] == s[i + 1..];
      i := i + 1;
    }
    r := s[i..];
  }

  method RStripOf(s: string) returns (r: string)
    ensures r == RStrip(s)
  {
    var len := |s|;
    assert s[..|s|] == s;
    while len > 0 && IsTrailing(s[len - 1])
      invariant 0 <= len <= |s|
      invariant RStrip(s) == RStrip(s[..len])
    {
      assert s[..len][..len - 1] == s[..len - 1];
      len := len - 1;
    }
    r := s[..len];
  }

  // strchr: the index of the first c, or the length.
  method StrChr(s: string, c: char) returns (n: nat)
    ensures n == Before(s, c)
  {
    n := 0;
    while n < |s| && s[n] != c
      invariant 0 <= n <= |s|
      invariant forall i :: 0 <= i < n ==> s[i] != c
    {
      n := n + 1;
    }
    BeforeIsFirst(s, c, n);
  }

  lemma {:induction false} BeforeIsFirst(s: string, c: char, n: nat)
    requires n <= |s| && (n < |s| ==> s[n] == c) && forall i :: 0 <= i < n ==> s[i] != c
    ensures Before(s, c) == n
  {
    if n > 0 {
      BeforeIsFirst(s[1..], c, n - 1);
    }
  }

  // strtok_r: the next word and what follows it, or None.
  method StrTok(s: string) returns (tok: Option<string>, rest: string)
    ensures tok.None? <==> Tokens(s) == []
    ensures tok.Some? ==> Tokens(s) == [tok.value] + Tokens(rest) && |rest| < |s|
  {
    SkipBlanksShrinks(s);
    var t := SkipSpacesOf(s);
    if t == [] {
      return None, [];
    }
    var n := 0;
    while n < |t| && !IsBlank(t[n])
      invariant 0 <= n <= |t|
      invariant forall i :: 0 <= i < n ==> !IsBlank(t[i])
    {
      n := n + 1;
    }
    WordLengthStops(t[..n], t[n..]);
    assert t[..n] + t[n..] == t;
    return Some(t[..n]), t[n..];
  }

  method LookUp<T>(table: seq<(string, T)>, name: string) returns (r: Option<T>)
    ensures r == FindToken(table, name, 0)
  {
    for i := 0 to |table|
      invariant FindToken(table, name, 0) == FindToken(table, name, i)
    {
      if SameIgnoringCase(name, table[i].0) {
        return Some(table[i].1);
      }
    }
    return None;
  }

  // The attribute loop: None as soon as one attribute is refused.
  method ParseAttributes(value: string, start: Settings) returns (r: Option<Settings>)
    ensures r == ApplyAttributes(Tokens(value), start)
  {
    hide Tokens, SameIgnoringCase, FindToken, ScanInt;
    var settings := start;
    var tok, rest := StrTok(value);
    while tok.Some?
      invariant ApplyAttributes(Tokens(value), start)
             == ApplyAttributes(if tok.Some? then [tok.value] + Tokens(rest) else [], settings)
      decreases if tok.Some? then 1 + |rest| else 0
    {
      ghost var before := settings;
      var n := StrChr(tok.value, '=');
      if n == |tok.value| {
        return None;
      }
      var key, val := tok.value[..n], tok.value[n + 1..];
      if SameIgnoringCase(key, "invert") {
        if SameIgnoringCase(val, "yes") {
          settings := settings.(invert := true);
        } else if SameIgnoringCase(val, "no") {
          settings := settings.(invert := false);
        } else {
          return None;
        }
      } else if SameIgnoringCase(key, "max") {
        var scanned := ScanInt(val);
        if scanned.None? || scanned.value.1 != [] || scanned.value.0 < 0 || scanned.value.0 > 100 {
          return None;
        }
        settings := settings.(max := scanned.value.0);
      } else if SameIgnoringCase(key, "curve") {
      } else if SameIgnoringCase(key, "mode") {
        var mode := LookUp(MODE_TOKENS, val);
        if mode.None? {
          return None;
        }
        settings := settings.(mode := mode.value);
      } else {
        return None;
      }
      ApplyStep(tok.value, Tokens(rest), before, settings);
      tok, rest := StrTok(rest);
    }
    return Some(settings);
  }

  // ---- The table -----------------------------------------------------------------

  class Store {
    const rows: array<Row>
    var sourceIsFile: bool
    var skippedLines: int

    ghost predicate Valid()
      reads this
    {
      rows.Length == 3
    }

    ghost function View(): (c: Config)
      requires Valid()
      reads this, rows
    {
      Config(rows[..], skippedLines, sourceIsFile)
    }

    constructor ()
      ensures Valid() && View() == SetDefaults(View()) && !sourceIsFile && fresh(rows)
    {
      rows := new Row[3](_ => BLANK_ROW);
      sourceIsFile, skippedLines := false, 0;
      new;
      assert rows[..] == [BLANK_ROW, BLANK_ROW, BLANK_ROW];
    }

    // mkh_config_set_defaults.
    method MkhConfigSetDefaults()
      requires Valid()
      modifies this`skippedLines, rows
      ensures View() == SetDefaults(old(View()))
    {
      for d := 0 to 3
        invariant forall e :: 0 <= e < d ==> rows[e] == BLANK_ROW
      {
        for p := 0 to 6
          invariant forall e :: 0 <= e < d ==> rows[e] == BLANK_ROW
          invariant forall q :: 0 <= q < p ==> rows[d][q] == Port([], false)
        {
          rows[d] := rows[d][p := Port([], false)];
        }
        assert rows[d] == BLANK_ROW;
      }
      skippedLines := 0;
      assert rows[..] == [BLANK_ROW, BLANK_ROW, BLANK_ROW];
    }

    // mkh_config_apply_compiled_in_fallbacks.
    method MkhConfigApplyFallbacks()
      requires Valid()
      modifies rows
      ensures View() == ApplyFallbacks(old(View()))
    {
      if |rows[0][0].bindings| == 0 {
        rows[0] := rows[0][0 := rows[0][0].(bindings := [FallbackBinding(LSNS)])];
      }
      if |rows[1][0].bindings| == 0 {
        rows[1] := rows[1][0 := rows[1][0].(bindings := [FallbackBinding(RSNS)])];
      }
    }

    // mkh_config_note_source.
    method MkhConfigNoteSource(fromFile: bool)
      requires Valid()
      modifies this`sourceIsFile
      ensures View() == old(View()).(sourceIsFile := fromFile)
    {
      sourceIsFile := fromFile;
    }

    // mkh_config_set_port_bindings.
    method MkhConfigSetPortBindings(d: int, p: int, bindings: seq<Binding>, count: int)
      requires Valid() && (0 <= count ==> count <= |bindings|)
      modifies rows
      ensures View() == SetPortBindings(old(View()), d, p, bindings, count)
    {
      if d < 0 || d >= 3 {
        return;
      }
      if p < 0 || p >= 6 {
        return;
      }
      if count < 0 {
        return;
      }
      var n := if count > MAX_BINDINGS_PER_PORT then MAX_BINDINGS_PER_PORT else count;
      var list: seq<Binding> := [];
      for i := 0 to n
        invariant list == bindings[..i]
      {
        list := list + [bindings[i]];
      }
      rows[d] := rows[d][p := Port(list, true)];
    }

    method SkipLine()
      requires Valid()
      modifies this`skippedLines
      ensures View() == Skip(old(View()))
    {
      skippedLines := skippedLines + 1;
    }

    // mkh_config_parse_line.
    method MkhConfigParseLine(raw: string)
      requires Valid()
      modifies this`skippedLines, rows
      ensures View() == ApplyLine(old(View()), raw)
    {
      hide CString, RStrip, SkipBlanks, Before, ScanKey, Tokens, ApplyAttributes, FindToken;
      var line := RStripOf(Truncate(CString(raw), LINE_MAX));
      var trimmed := SkipSpacesOf(line);
      if trimmed == [] || trimmed[0] == '#' {
        return;
      }
      var n := StrChr(line, '=');
      if n == |line| {
        SkipLine();
        return;
      }
      var blankKey := SkipSpacesOf(line[..n]);
      var key := RStripOf(blankKey);
      var value := SkipSpacesOf(line[n + 1..]);
      var scanned := ScanKey(key);
      if scanned.None? {
        SkipLine();
        return;
      }
      var device := DeviceProtocolIndex(scanned.value.0);
      if device < 0 {
        SkipLine();
        return;
      }
      var port := PortFromLetter(scanned.value.1);
      if port < 0 {
        SkipLine();
        return;
      }
      assert ParseLine(raw) == ParseValue(device, port, value);
      if |rows[device][port].bindings| >= MAX_BINDINGS_PER_PORT {
        assert ParseValue(device, port, value).Bound? ==>
                 ParseValue(device, port, value).device == device && ParseValue(device, port, value).port == port;
        RejectedOrBound(device, port, value);
        SkipLine();
        return;
      }
      var tok, rest := StrTok(Truncate(value, VALUE_MAX));
      if tok.None? {
        SkipLine();
        return;
      }
      var input := LookUp(INPUT_TOKENS, tok.value);
      if input.None? {
        SkipLine();
        return;
      }
      var settings := ParseAttributes(rest, Settings(false, 100, DefaultMode(input.value)));
      assert Tokens(Truncate(value, VALUE_MAX))[1..] == Tokens(rest);
      if settings.None? {
        SkipLine();
        return;
      }
      var s := settings.value;
      var binding := Binding(input.value, s.invert, s.max, s.mode);
      rows[device] := rows[device][port := Port(rows[device][port].bindings + [binding], true)];
    }

    // mkh_config_serialize: the text of the table, or -1 when the buffer cannot hold it
    // with its terminator.
    method MkhConfigSerialize(buf: array<char>) returns (n: int)
      requires Valid() && buf as object != rows as object
      modifies buf
      ensures View() == old(View())
      ensures var t := View().table;
              n == if TableLines(t, 18) != [] && |TableText(t)| >= buf.Length then -1 else |TableText(t)|
      ensures n >= 0 ==> n <= buf.Length && buf[..n] == TableText(View().table)
    {
      hide PrintLine, Unlines, PortLines;
      ghost var t: Table := rows[..];
      var used: nat := 0;
      NothingPrinted();
      for d := 0 to 3
        invariant rows[..] == t
        invariant Filled(buf, used, TableLines(t, 6 * d))
      {
        for p := 0 to 6
          invariant rows[..] == t
          invariant Filled(buf, used, TableLines(t, 6 * d + p))
        {
          var ok;
          ok, used := SerializePort(buf, used, t, d, p, rows[d][p].bindings);
          if !ok {
            return -1;
          }
          assert (6 * d + p + 1 - 1) / 6 == d && (6 * d + p + 1 - 1) % 6 == p;
        }
      }
      return used;
    }
  }

  // The innermost loop: one line per binding of a port.
  method SerializePort(buf: array<char>, start: nat, ghost t: Table, d: nat, p: nat, bindings: seq<Binding>)
    returns (ok: bool, used: nat)
    requires d < 3 && p < 6 && bindings == t[d][p].bindings
    requires Filled(buf, start, TableLines(t, 6 * d + p))
    modifies buf
    ensures ok ==> Filled(buf, used, TableLines(t, 6 * d + p) + PortLines(d, p, bindings))
    ensures !ok ==> TableLines(t, 18) != [] && |TableText(t)| >= buf.Length
  {
    hide PrintLine, Unlines, TableLines;
    used := start;
    ghost var before := TableLines(t, 6 * d + p);
    assert before + PortLines(d, p, bindings[..0]) == before;
    for i := 0 to |bindings|
      invariant Filled(buf, used, before + PortLines(d, p, bindings[..i]))
    {
      ghost var lines := before + PortLines(d, p, bindings[..i]);
      var text := PrintLine(d, p, bindings[i]);
      var line := text + "\n";
      assert before + PortLines(d, p, bindings[..i + 1]) == lines + [text];
      OneMoreLine(lines, text);
      LineOfTable(t, d, p, i);
      if |line| >= buf.Length - used {
        return false, used;
      }
      Snprintf(buf, used, line);
      used := used + |line|;
    }
    assert bindings[..|bindings|] == bindings;
    return true, used;
  }

  // The buffer holds exactly the given lines, and room for a terminator if any.
  ghost predicate Filled(buf: array<char>, used: nat, lines: seq<string>)
    reads buf
  {
    used <= buf.Length && (lines != [] ==> used < buf.Length) && buf[..used] == Unlines(lines)
  }

  // snprintf of text that fits: the characters and a terminator.
  method Snprintf(buf: array<char>, used: nat, text: string)
    requires used + |text| < buf.Length
    modifies buf
    ensures buf[..used + |text|] == old(buf[..used]) + text
  {
    for i := 0 to |text|
      invariant buf[..used + i] == old(buf[..used]) + text[..i]
    {
      ghost var done := buf[..used + i];
      buf[used + i] := text[i];
      assert buf[..used + i + 1] == done + [text[i]];
    }
    buf[used + |text|] := '\0';
  }

  lemma {:induction false} NothingPrinted()
    ensures Unlines([]) == []
  {
  }

  lemma {:induction false} OneMoreLine(lines: seq<string>, line: string)
    ensures Unlines(lines + [line]) == Unlines(lines) + (line + "\n")
  {
    UnlinesAppend(lines, [line]);
    assert [line][1..] == [];
    assert Unlines([line]) == line + "\n" + Unlines([]);
  }

  // The first lines of a port are part of the whole text.
  lemma {:induction false} LineOfTable(t: Table, d: nat, p: nat, i: nat)
    requires d < 3 && p < 6 && i < |t[d][p].bindings|
    ensures |Unlines(TableLines(t, 6 * d + p) + PortLines(d, p, t[d][p].bindings[..i + 1]))| <= |TableText(t)|
    ensures TableLines(t, 18) != []
  {
    hide PrintLine, Unlines, TableLines, PortLines;
    var bs := t[d][p].bindings;
    var q := 6 * d + p;
    var first, tail := PortLines(d, p, bs[..i + 1]), PortLines(d, p, bs)[i + 1..];
    FirstLines(d, p, bs, i + 1);
    LinesThroughPort(t, d, p);
    assert TableLines(t, q + 1) == (TableLines(t, q) + first) + tail;
    UnlinesAppend(TableLines(t, q) + first, tail);
    TextGrows(t, q + 1, 18);
  }

  lemma {:induction false} FirstLines(d: nat, p: nat, bs: seq<Binding>, n: nat)
    requires d < 3 && p < 6 && n <= |bs|
    ensures PortLines(d, p, bs) == PortLines(d, p, bs[..n]) + PortLines(d, p, bs)[n..]
  {
    hide PrintLine;
  }

  lemma {:induction false} LinesThroughPort(t: Table, d: nat, p: nat)
    requires d < 3 && p < 6
    ensures TableLines(t, 6 * d + p + 1) == TableLines(t, 6 * d + p) + PortLines(d, p, t[d][p].bindings)
  {
    hide PortLines;
    assert (6 * d + p + 1 - 1) / 6 == d && (6 * d + p + 1 - 1) % 6 == p;
  }

  lemma {:induction false} TextGrows(t: Table, q: nat, r: nat)
    requires q <= r <= 18
    ensures |Unlines(TableLines(t, q))| <= |Unlines(TableLines(t, r))|
    ensures |TableLines(t, q)| <= |TableLines(t, r)|
    decreases r - q
  {
    hide PrintLine, Unlines;
    if q < r {
      TextGrows(t, q, r - 1);
      UnlinesAppend(TableLines(t, r - 1), PortLines((r - 1) / 6, (r - 1) % 6, t[(r - 1) / 6][(r - 1) % 6].bindings));
    }
  }

  lemma {:induction false} RejectedOrBound(device: nat, port: nat, value: string)
    ensures !ParseValue(device, port, value).Ignored?
  {
    hide Tokens, ApplyAttributes, FindToken;
  }
}
