// The mapping table of main/mkh_config.c: what a list of lines means for it, and how
// a whole table survives being written and read back.
module ConfigTable {
  import opened Wrappers
  import opened CText
  import opened ConfigLine
  import opened ConfigRoundTrip

  const MAX_BINDINGS_PER_PORT: nat := 8

  datatype Port = Port(bindings: seq<Binding>, fromFile: bool)

  type Row = r: seq<Port> | |r| == 6 witness seq(6, _ => Port([], false))
  type Table = t: seq<Row> | |t| == 3 witness seq(3, _ => seq(6, _ => Port([], false)))

  datatype Config = Config(table: Table, skipped: int, sourceIsFile: bool)

  const BLANK_ROW: Row := [Port([], false), Port([], false), Port([], false),
                           Port([], false), Port([], false), Port([], false)]

  function SetDefaults(c: Config): Config {
    Config([BLANK_ROW, BLANK_ROW, BLANK_ROW], 0, c.sourceIsFile)
  }

  function SetPort(t: Table, d: nat, p: nat, port: Port): (t': Table)
    requires d < 3 && p < 6
  {
    t[d := t[d][p := port]]
  }

  function FallbackBinding(input: Input): Binding {
    Binding(input, false, 100, PROPORTIONAL)
  }

  function Fallback(t: Table, d: nat, input: Input): Table
    requires d < 3
  {
    if t[d][0].bindings == [] then SetPort(t, d, 0, t[d][0].(bindings := [FallbackBinding(input)])) else t
  }

  function ApplyFallbacks(c: Config): Config {
    c.(table := Fallback(Fallback(c.table, 0, LSNS), 1, RSNS))
  }

  function SetPortBindings(c: Config, d: int, p: int, bindings: seq<Binding>, count: int): Config
    requires 0 <= count ==> count <= |bindings|
  {
    if !(0 <= d < 3) || !(0 <= p < 6) || count < 0 then c
    else
      var n := if count > MAX_BINDINGS_PER_PORT then MAX_BINDINGS_PER_PORT else count;
      c.(table := SetPort(c.table, d, p, Port(bindings[..n], true)))
  }

  // ---- Lines ---------------------------------------------------------------------

  function Skip(c: Config): Config {
    c.(skipped := c.skipped + 1)
  }

  function ApplyParsed(c: Config, parsed: Parsed): Config
    requires parsed.Bound? ==> parsed.device < 3 && parsed.port < 6
  {
    match parsed
    case Ignored => c
    case Rejected => Skip(c)
    case Bound(d, p, b) =>
      if |c.table[d][p].bindings| >= MAX_BINDINGS_PER_PORT then Skip(c)
      else c.(table := SetPort(c.table, d, p, Port(c.table[d][p].bindings + [b], true)))
  }

  function ApplyLine(c: Config, raw: string): Config {
    ApplyParsed(c, ParseLine(raw))
  }

  function ApplyLines(c: Config, lines: seq<string>): Config {
    if lines == [] then c else ApplyLine(ApplyLines(c, lines[..|lines| - 1]), lines[|lines| - 1])
  }

  // The bindings of the valid lines addressed to one port, in order.
  function ValidFor(lines: seq<string>, d: nat, p: nat): seq<Binding> {
    if lines == [] then []
    else
      var rest := ValidFor(lines[..|lines| - 1], d, p);
      match ParseLine(lines[|lines| - 1])
      case Bound(e, q, b) => if e == d && q == p then rest + [b] else rest
      case _ => rest
  }

  function FirstEight(bs: seq<Binding>): seq<Binding> {
    if |bs| <= MAX_BINDINGS_PER_PORT then bs else bs[..MAX_BINDINGS_PER_PORT]
  }

  // The meaning of a file: every port ends with the first eight valid lines addressed
  // to it, after what it already had; no other line touches it.
  lemma {:induction false} FileMeaning(c: Config, lines: seq<string>, d: nat, p: nat)
    requires d < 3 && p < 6 && |c.table[d][p].bindings| <= MAX_BINDINGS_PER_PORT
    ensures ApplyLines(c, lines).table[d][p].bindings == FirstEight(c.table[d][p].bindings + ValidFor(lines, d, p))
  {
    hide ParseLine;
    if lines == [] {
      assert c.table[d][p].bindings + [] == c.table[d][p].bindings;
    } else {
      var init := lines[..|lines| - 1];
      FileMeaning(c, init, d, p);
      var valid := ValidFor(init, d, p);
      match ParseLine(lines[|lines| - 1])
      case Bound(e, q, b) =>
        if e == d && q == p {
          assert c.table[d][p].bindings + (valid + [b]) == (c.table[d][p].bindings + valid) + [b];
        }
      case _ =>
    }
  }

  // Lines for different ports may interleave in any way.
  lemma {:induction false} InterleavingIsIrrelevant(c: Config, lines: seq<string>, other: seq<string>)
    requires forall d, p :: 0 <= d < 3 && 0 <= p < 6 ==> |c.table[d][p].bindings| <= MAX_BINDINGS_PER_PORT
    requires forall d, p :: 0 <= d < 3 && 0 <= p < 6 ==> ValidFor(lines, d, p) == ValidFor(other, d, p)
    ensures forall d, p :: 0 <= d < 3 && 0 <= p < 6 ==>
                             ApplyLines(c, lines).table[d][p].bindings == ApplyLines(c, other).table[d][p].bindings
  {
    forall d, p | 0 <= d < 3 && 0 <= p < 6
      ensures ApplyLines(c, lines).table[d][p].bindings == ApplyLines(c, other).table[d][p].bindings
    {
      FileMeaning(c, lines, d, p);
      FileMeaning(c, other, d, p);
    }
  }

  // Bindings in the first q ports, in printing order.
  function Total(t: Table, q: nat): nat
    requires q <= 18
  {
    if q == 0 then 0 else Total(t, q - 1) + |t[(q - 1) / 6][(q - 1) % 6].bindings|
  }

  lemma {:induction false} TotalAfterSet(t: Table, d: nat, p: nat, port: Port, q: nat)
    requires d < 3 && p < 6 && q <= 18
    ensures Total(SetPort(t, d, p, port), q)
         == Total(t, q) + if 6 * d + p < q then |port.bindings| - |t[d][p].bindings| else 0
  {
    if q > 0 {
      TotalAfterSet(t, d, p, port, q - 1);
    }
  }

  function Meaningful(lines: seq<string>): nat {
    if lines == [] then 0
    else Meaningful(lines[..|lines| - 1]) + if ParseLine(lines[|lines| - 1]) == Ignored then 0 else 1
  }

  // Conservation: every line that is not blank or a comment either adds one binding or
  // is counted as skipped.
  lemma {:induction false} LinesAreConserved(c: Config, lines: seq<string>)
    ensures var r := ApplyLines(c, lines);
            r.skipped + Total(r.table, 18) == c.skipped + Total(c.table, 18) + Meaningful(lines)
  {
    hide ParseLine, Total;
    if lines != [] {
      var init := lines[..|lines| - 1];
      LinesAreConserved(c, init);
      var r := ApplyLines(c, init);
      match ParseLine(lines[|lines| - 1])
      case Bound(d, p, b) =>
        TotalAfterSet(r.table, d, p, Port(r.table[d][p].bindings + [b], true), 18);
      case _ =>
    }
  }

  // A port is marked as coming from the file exactly when lines gave it a binding.
  lemma {:induction false} MarkedFromFile(c: Config, lines: seq<string>, d: nat, p: nat)
    requires d < 3 && p < 6 && c.table[d][p] == Port([], false)
    ensures ApplyLines(c, lines).table[d][p].fromFile <==> ApplyLines(c, lines).table[d][p].bindings != []
  {
    hide ParseLine;
    if lines != [] {
      MarkedFromFile(c, lines[..|lines| - 1], d, p);
    }
  }

  // ---- Fallbacks ------------------------------------------------------------------

  lemma {:induction false} FallbackLaws(c: Config)
    ensures ApplyFallbacks(ApplyFallbacks(c)) == ApplyFallbacks(c)
    ensures forall d, p :: 0 <= d < 3 && 0 <= p < 6 && c.table[d][p].bindings != [] ==>
                             ApplyFallbacks(c).table[d][p] == c.table[d][p]
    ensures forall d, p :: 0 <= d < 3 && 0 <= p < 6 && !(d < 2 && p == 0) ==>
                             ApplyFallbacks(c).table[d][p] == c.table[d][p]
    ensures ApplyFallbacks(c).table[0][0].bindings != [] && ApplyFallbacks(c).table[1][0].bindings != []
    ensures ApplyFallbacks(c) == c <==> c.table[0][0].bindings != [] && c.table[1][0].bindings != []
  {
  }

  // ---- Writing and reading back ------------------------------------------------------

  function PortLines(d: nat, p: nat, bs: seq<Binding>): (lines: seq<string>)
    requires d < 3 && p < 6
    ensures |lines| == |bs|
  {
    seq(|bs|, i requires 0 <= i < |bs| => PrintLine(d, p, bs[i]))
  }

  // The lines of the first q ports.
  function TableLines(t: Table, q: nat): seq<string>
    requires q <= 18
  {
    if q == 0 then []
    else
      TableLines(t, q - 1) + PortLines((q - 1) / 6, (q - 1) % 6, t[(q - 1) / 6][(q - 1) % 6].bindings)
  }

  function TableText(t: Table): string {
    Unlines(TableLines(t, 18))
  }

  // What reading makes of written bindings: those that can be written, normalised.
  function Restored(bs: seq<Binding>): seq<Binding> {
    if bs == [] then []
    else
      var b := bs[|bs| - 1];
      Restored(bs[..|bs| - 1]) + if Writable(b) then [Normalized(b)] else []
  }

  lemma {:induction false} ValidForAppend(a: seq<string>, b: seq<string>, d: nat, p: nat)
    ensures ValidFor(a + b, d, p) == ValidFor(a, d, p) + ValidFor(b, d, p)
  {
    hide ParseLine;
    if b == [] {
      assert a + b == a;
    } else {
      assert (a + b)[..|a + b| - 1] == a + b[..|b| - 1];
      ValidForAppend(a, b[..|b| - 1], d, p);
    }
  }

  lemma {:induction false} ValidForPortLines(e: nat, q: nat, bs: seq<Binding>, d: nat, p: nat)
    requires e < 3 && q < 6 && d < 3 && p < 6
    ensures ValidFor(PortLines(e, q, bs), d, p) == if e == d && q == p then Restored(bs) else []
  {
    hide ParseLine, PrintLine;
    if bs != [] {
      var init := bs[..|bs| - 1];
      var lines := PortLines(e, q, bs);
      assert lines[..|lines| - 1] == PortLines(e, q, init);
      ValidForPortLines(e, q, init, d, p);
      PrintedLineParses(e, q, bs[|bs| - 1]);
    }
  }

  lemma {:induction false} ValidForTableLines(t: Table, q: nat, d: nat, p: nat)
    requires q <= 18 && d < 3 && p < 6
    ensures ValidFor(TableLines(t, q), d, p) == if 6 * d + p < q then Restored(t[d][p].bindings) else []
  {
    hide ValidFor, PortLines, Restored;
    if q == 0 {
      NoLinesNoBindings(d, p);
    } else {
      var e, r := (q - 1) / 6, (q - 1) % 6;
      ValidForTableLines(t, q - 1, d, p);
      ValidForAppend(TableLines(t, q - 1), PortLines(e, r, t[e][r].bindings), d, p);
      ValidForPortLines(e, r, t[e][r].bindings, d, p);
    }
  }

  lemma {:induction false} NoLinesNoBindings(d: nat, p: nat)
    ensures ValidFor([], d, p) == []
  {
  }

  lemma {:induction false} TableLinesHaveNoNewline(t: Table, q: nat)
    requires q <= 18
    ensures forall i :: 0 <= i < |TableLines(t, q)| ==> '\n' !in TableLines(t, q)[i]
  {
    if q > 0 {
      hide PrintLine;
      TableLinesHaveNoNewline(t, q - 1);
      var e, r := (q - 1) / 6, (q - 1) % 6;
      var bs := t[e][r].bindings;
      forall i | 0 <= i < |bs|
        ensures '\n' !in PortLines(e, r, bs)[i]
      {
        PrintedLineParses(e, r, bs[i]);
      }
    }
  }

  // Reading a written table back into a blank one: port by port the bindings come back
  // in order, axis modes normalised, unwritable ones dropped.
  lemma {:induction false} TableRoundTrip(t: Table, c: Config, d: nat, p: nat)
    requires d < 3 && p < 6
    ensures SplitLines(TableText(t)) == TableLines(t, 18)
    ensures ApplyLines(SetDefaults(c), SplitLines(TableText(t))).table[d][p].bindings
         == FirstEight(Restored(t[d][p].bindings))
  {
    hide TableLines, SplitLines, Unlines, ValidFor, ApplyLines;
    TableLinesHaveNoNewline(t, 18);
    SplitUnlines(TableLines(t, 18));
    ValidForTableLines(t, 18, d, p);
    FileMeaning(SetDefaults(c), TableLines(t, 18), d, p);
    var bs := Restored(t[d][p].bindings);
    assert [] + bs == bs;
  }

  function AllNormalized(bs: seq<Binding>): (r: seq<Binding>)
    ensures |r| == |bs|
  {
    seq(|bs|, i requires 0 <= i < |bs| => Normalized(bs[i]))
  }

  // Nothing is lost exactly when every binding can be written.
  lemma {:induction false} RestoredIsComplete(bs: seq<Binding>)
    ensures |Restored(bs)| <= |bs|
    ensures Restored(bs) == AllNormalized(bs) <==> forall i :: 0 <= i < |bs| ==> Writable(bs[i])
    ensures |Restored(bs)| == |bs| <==> forall i :: 0 <= i < |bs| ==> Writable(bs[i])
  {
    if bs != [] {
      var n := |bs| - 1;
      RestoredIsComplete(bs[..n]);
      assert AllNormalized(bs) == AllNormalized(bs[..n]) + [Normalized(bs[n])];
      assert forall i :: 0 <= i < n ==> bs[i] == bs[..n][i];
      if forall i :: 0 <= i < n ==> Writable(bs[..n][i]) {
        forall i | 0 <= i < |bs| && Writable(bs[n])
          ensures Writable(bs[i])
        {
          assert i < n ==> bs[i] == bs[..n][i];
        }
      } else {
        var i :| 0 <= i < n && !Writable(bs[..n][i]);
        assert !Writable(bs[i]);
      }
    }
  }

  // Writing is stable: a read-back table prints the same text.
  lemma {:induction false} NormalizedPrintsTheSame(b: Binding, d: nat, p: nat)
    requires d < 3 && p < 6
    ensures PrintLine(d, p, Normalized(b)) == PrintLine(d, p, b)
  {
  }

  lemma {:induction false} SameTextAfterNormalizing(t: Table, u: Table, q: nat)
    requires q <= 18
    requires forall d, p :: 0 <= d < 3 && 0 <= p < 6 ==> u[d][p].bindings == AllNormalized(t[d][p].bindings)
    ensures TableLines(u, q) == TableLines(t, q)
  {
    if q > 0 {
      hide PrintLine;
      SameTextAfterNormalizing(t, u, q - 1);
      var e, r := (q - 1) / 6, (q - 1) % 6;
      var bs := t[e][r].bindings;
      forall i | 0 <= i < |bs|
        ensures PortLines(e, r, u[e][r].bindings)[i] == PortLines(e, r, bs)[i]
      {
        NormalizedPrintsTheSame(bs[i], e, r);
      }
      assert PortLines(e, r, u[e][r].bindings) == PortLines(e, r, bs);
    }
  }

  // ---- Tables that lines and fallbacks can produce ------------------------------------

  predicate Savable(t: Table) {
    forall d, p :: 0 <= d < 3 && 0 <= p < 6 ==>
                     |t[d][p].bindings| <= MAX_BINDINGS_PER_PORT
                     && forall i :: 0 <= i < |t[d][p].bindings| ==> Writable(t[d][p].bindings[i])
  }

  lemma {:induction false} ParsedIsWritable(raw: string)
    ensures ParseLine(raw).Bound? ==> Writable(ParseLine(raw).binding)
  {
    hide Tokens, ScanKey, RStrip, SkipBlanks, Before, CString;
    var parsed := ParseLine(raw);
    if parsed.Bound? {
      var line := RStrip(Truncate(CString(raw), LINE_MAX));
      var value := SkipBlanks(line[Before(line, '=') + 1..]);
      assert parsed == ParseValue(parsed.device, parsed.port, value);
      var tokens := Tokens(Truncate(value, VALUE_MAX));
      InputOfIsAssigned(tokens[0]);
      AttributesKeepMax(tokens[1..], Settings(false, 100, DefaultMode(InputOf(tokens[0]).value)));
    }
  }

  lemma {:induction false} InputOfIsAssigned(name: string)
    ensures InputOf(name).Some? ==> InputOf(name).value != NONE
  {
    FoundIsListed(INPUT_TOKENS, name, 0);
    hide FindToken;
    if InputOf(name).Some? {
      var k :| 0 <= k < |INPUT_TOKENS| && INPUT_TOKENS[k].1 == InputOf(name).value;
      EntryIsWord(k);
    }
  }

  lemma {:induction false} FoundIsListed<T>(table: seq<(string, T)>, name: string, i: nat)
    requires i <= |table|
    ensures var r := FindToken(table, name, i);
            r.Some? ==> exists k :: 0 <= k < |table| && table[k].1 == r.value
    decreases |table| - i
  {
    if i < |table| {
      FoundIsListed(table, name, i + 1);
    }
  }

  lemma {:induction false} AttributesKeepMax(tokens: seq<string>, s: Settings)
    requires s.max <= 100
    ensures var r := ApplyAttributes(tokens, s); r.Some? ==> r.value.max <= 100
  {
    if tokens != [] {
      hide SameIgnoringCase, Before, ScanInt, ModeOf;
      var r := ApplyAttribute(tokens[0], s);
      if r.Some? {
        AttributesKeepMax(tokens[1..], r.value);
      }
    }
  }

  lemma {:induction false} LinesGiveSavable(c: Config, lines: seq<string>)
    requires Savable(c.table)
    ensures Savable(ApplyLines(c, lines).table)
  {
    hide ParseLine, Writable;
    if lines != [] {
      LinesGiveSavable(c, lines[..|lines| - 1]);
      ParsedIsWritable(lines[|lines| - 1]);
    }
  }

  lemma {:induction false} FallbacksGiveSavable(c: Config)
    requires Savable(c.table)
    ensures Savable(ApplyFallbacks(c).table)
  {
  }

  // What an edit does, port by port: the addressed port takes the first eight of the bindings and is
  // marked; bad arguments change nothing, and nothing else ever changes.
  lemma {:induction false} EditExactly(c: Config, d: int, p: int, bindings: seq<Binding>, count: int, e: nat, q: nat)
    requires (0 <= count ==> count <= |bindings|) && e < 3 && q < 6
    ensures var r := SetPortBindings(c, d, p, bindings, count);
            r.table[e][q] == (if d == e && p == q && count >= 0
                              then Port(bindings[..if count <= 8 then count else 8], true) else c.table[e][q])
            && r.skipped == c.skipped && r.sourceIsFile == c.sourceIsFile
  {
  }

  // An edit keeps a table savable exactly when the bindings it takes over can be written.
  lemma {:induction false} EditKeepsSavable(c: Config, d: nat, p: nat, bindings: seq<Binding>, count: nat)
    requires Savable(c.table) && d < 3 && p < 6 && count <= |bindings|
    ensures Savable(SetPortBindings(c, d, p, bindings, count).table) <==>
            forall i :: 0 <= i < count && i < MAX_BINDINGS_PER_PORT ==> Writable(bindings[i])
  {
    hide Writable;
    var t := SetPortBindings(c, d, p, bindings, count).table;
    var n := if count > MAX_BINDINGS_PER_PORT then MAX_BINDINGS_PER_PORT else count;
    assert t[d][p].bindings == bindings[..n];
    assert forall i :: 0 <= i < n ==> t[d][p].bindings[i] == bindings[i];
    if Savable(t) {
      forall i | 0 <= i < count && i < MAX_BINDINGS_PER_PORT
        ensures Writable(bindings[i])
      {
        assert t[d][p].bindings[i] == bindings[i];
      }
    }
  }

  // Reading back what a savable table prints.
  lemma {:induction false} SavableRoundTrip(t: Table, c: Config, d: nat, p: nat)
    requires Savable(t) && d < 3 && p < 6
    ensures ApplyLines(SetDefaults(c), SplitLines(TableText(t))).table[d][p].bindings == AllNormalized(t[d][p].bindings)
  {
    hide ApplyLines, TableText, Writable, Restored;
    TableRoundTrip(t, c, d, p);
    RestoredIsComplete(t[d][p].bindings);
  }
}
