// Boot, save, migration and reload of main/mkh_storage.cpp over a map from path to
// text, where closing a written file, removing and renaming are atomic.
module Storage {
  import opened Wrappers
  import opened CText
  import opened ConfigLine
  import opened ConfigRoundTrip
  import opened ConfigTable
  import opened ConfigGrammar

  type Disk = map<string, string>

  const CONFIG_PATH := "/mk1config.txt"
  const TMP_PATH := "/mk1config.txt.tmp"
  const SCHEMA_VERSION_CURRENT := 3
  const SAVE_BUFFER_SIZE: nat := 2048
  const VERSION_KEY := "MK1CONFIG_SCHEMA_VERSION="
  const HEADER_LINE := "# MK1CONFIG_SCHEMA_VERSION=3"
  const DEFAULT_ATTRIBUTES := "invert=no" + " " + "max=100" + " " + "curve=linear"
  const DEFAULT_HUB1 := "HUB1_PORT_A" + " = " + ("LSNS" + " " + DEFAULT_ATTRIBUTES)
  const DEFAULT_HUB2 := "HUB2_PORT_A" + " = " + ("RSNS" + " " + DEFAULT_ATTRIBUTES)
  const DEFAULT_LINES: seq<string> := [HEADER_LINE, DEFAULT_HUB1, DEFAULT_HUB2]

  // Which operations of the file system succeed this time.
  datatype Luck = Luck(mount: bool, create: bool, openRead: bool, openTmp: bool, remove: bool, rename: bool)

  // sscanf(first_line, "# MK1CONFIG_SCHEMA_VERSION=%d"), 0 when it does not match.
  function SchemaVersion(line: string): int {
    var s := CString(line);
    if s == [] || s[0] != '#' then 0
    else
      var t := SkipSpace(s[1..]);
      if !(VERSION_KEY <= t) then 0
      else
        match ScanInt(t[|VERSION_KEY|..])
        case None => 0
        case Some((v, _)) => v
  }

  // ---- Save ------------------------------------------------------------------------

  function SavedText(t: Table): string {
    HEADER_LINE + "\n" + TableText(t)
  }

  predicate Fits(t: Table) {
    TableLines(t, 18) == [] || |TableText(t)| < SAVE_BUFFER_SIZE
  }

  // A table without bindings always fits; any other fits with at most 2047 characters of text, which
  // leave room for the terminating NUL.
  lemma {:induction false} FitsExactly(t: Table)
    ensures (forall d, p :: 0 <= d < 3 && 0 <= p < 6 ==> t[d][p].bindings == []) ==> Fits(t)
    ensures TableLines(t, 18) != [] ==> (Fits(t) <==> |TableText(t)| <= 2047)
  {
    if forall d, p :: 0 <= d < 3 && 0 <= p < 6 ==> t[d][p].bindings == [] {
      EmptyPortsPrintNothing(t, 0, 18);
    }
  }

  // The disk after each operation of one save, in order: every crash point.
  function SaveSteps(disk: Disk, t: Table, luck: Luck): seq<Disk> {
    if !Fits(t) || !luck.openTmp then []
    else
      var written := disk[TMP_PATH := SavedText(t)];
      if CONFIG_PATH !in disk then [written] + RenameSteps(written, luck)
      else if !luck.remove then [written]
      else
        var removed := written - {CONFIG_PATH};
        [written, removed] + RenameSteps(removed, luck)
  }

  function RenameSteps(disk: Disk, luck: Luck): seq<Disk>
    requires TMP_PATH in disk
  {
    if !luck.rename then [] else [(disk - {TMP_PATH})[CONFIG_PATH := disk[TMP_PATH]]]
  }

  predicate SaveSucceeds(disk: Disk, t: Table, luck: Luck) {
    Fits(t) && luck.openTmp && (CONFIG_PATH in disk ==> luck.remove) && luck.rename
  }

  function DiskAfter(disk: Disk, steps: seq<Disk>): Disk {
    if steps == [] then disk else steps[|steps| - 1]
  }

  function SaveDisk(disk: Disk, t: Table, luck: Luck): Disk {
    DiskAfter(disk, SaveSteps(disk, t, luck))
  }

  function SaveConfig(disk: Disk, c: Config, luck: Luck): Config {
    if SaveSucceeds(disk, c.table, luck) then c.(sourceIsFile := true) else c
  }

  // At every crash point the config path holds the whole old text, the whole new text,
  // or nothing, and no other file but the temporary one changes.
  lemma {:induction false} SaveIsAtomic(disk: Disk, t: Table, luck: Luck, i: nat)
    requires i < |SaveSteps(disk, t, luck)|
    ensures var d := SaveSteps(disk, t, luck)[i];
            (CONFIG_PATH in d ==> d[CONFIG_PATH] == SavedText(t)
                                  || (CONFIG_PATH in disk && d[CONFIG_PATH] == disk[CONFIG_PATH]))
            && (CONFIG_PATH !in d ==> TMP_PATH in d && d[TMP_PATH] == SavedText(t))
            && (forall p :: p != CONFIG_PATH && p != TMP_PATH ==> (p in d <==> p in disk) && (p in d ==> d[p] == disk[p]))
  {
    hide SavedText, Fits;
  }

  // A save that succeeds leaves exactly the new text. One that fails after removing
  // the old file, in the rename, leaves no config file at all; any other failure
  // leaves the config path as it was.
  lemma {:induction false} SaveOutcome(disk: Disk, t: Table, luck: Luck)
    ensures var d := SaveDisk(disk, t, luck);
            if SaveSucceeds(disk, t, luck) then d == (disk - {TMP_PATH})[CONFIG_PATH := SavedText(t)]
            else if Fits(t) && luck.openTmp && (CONFIG_PATH in disk ==> luck.remove) then
              CONFIG_PATH !in d && TMP_PATH in d && d[TMP_PATH] == SavedText(t)
            else
              (CONFIG_PATH in d <==> CONFIG_PATH in disk)
              && (CONFIG_PATH in d ==> d[CONFIG_PATH] == disk[CONFIG_PATH])
  {
    hide SavedText, Fits;
    if SaveSucceeds(disk, t, luck) {
      assert SaveDisk(disk, t, luck) == (disk - {TMP_PATH})[CONFIG_PATH := SavedText(t)];
    }
  }

  // ---- Boot ------------------------------------------------------------------------

  datatype Booted = Booted(disk: Disk, config: Config)

  function WithoutFile(disk: Disk, c: Config): Booted {
    Booted(disk, ApplyFallbacks(c.(sourceIsFile := false)))
  }

  function Parsed(text: string, c: Config): Config {
    ApplyFallbacks(ApplyLines(c, SplitLines(text)).(sourceIsFile := true))
  }

  // -1 for an empty file.
  function FileVersion(text: string): int {
    var lines := SplitLines(text);
    if lines == [] then -1 else SchemaVersion(lines[0])
  }

  predicate NeedsMigration(text: string) {
    0 <= FileVersion(text) < SCHEMA_VERSION_CURRENT
  }

  function ReadAndParse(disk: Disk, c: Config, luck: Luck): Booted {
    if CONFIG_PATH !in disk || !luck.openRead then WithoutFile(disk, c)
    else
      var text := disk[CONFIG_PATH];
      var c1 := Parsed(text, c);
      if NeedsMigration(text) then Booted(SaveDisk(disk, c1.table, luck), SaveConfig(disk, c1, luck))
      else Booted(disk, c1)
  }

  function BootRead(disk: Disk, c: Config, luck: Luck): Booted {
    var c0 := SetDefaults(c);
    if !luck.mount then WithoutFile(disk, c0)
    else if CONFIG_PATH !in disk then
      if !luck.create then WithoutFile(disk, c0)
      else ReadAndParse(disk[CONFIG_PATH := Unlines(DEFAULT_LINES)], c0, luck)
    else ReadAndParse(disk, c0, luck)
  }

  function Reload(disk: Disk, c: Config, luck: Luck): Booted {
    ReadAndParse(disk, SetDefaults(c), luck)
  }

  // ---- What a boot leaves behind -------------------------------------------------------

  lemma {:induction false} BlankIsSavable(c: Config)
    ensures Savable(SetDefaults(c).table)
  {
  }

  predicate BothDriven(t: Table) {
    t[0][0].bindings != [] && t[1][0].bindings != []
  }

  // Whatever the disk holds and whatever fails, the booted table can be saved and both
  // default ports are assigned.
  lemma {:induction false} BootGivesSavable(disk: Disk, c: Config, luck: Luck)
    ensures Savable(BootRead(disk, c, luck).config.table)
    ensures BothDriven(BootRead(disk, c, luck).config.table)
  {
    hide ApplyLines, SplitLines, SaveDisk, Unlines, Savable, NeedsMigration, SaveSucceeds, SetDefaults, ApplyFallbacks;
    var c0 := SetDefaults(c);
    BlankIsSavable(c);
    FallbacksGiveSavable(c0.(sourceIsFile := false));
    FallbackLaws(c0.(sourceIsFile := false));
    var text := if CONFIG_PATH in disk then disk[CONFIG_PATH] else Unlines(DEFAULT_LINES);
    LinesGiveSavable(c0, SplitLines(text));
    var read := ApplyLines(c0, SplitLines(text)).(sourceIsFile := true);
    FallbacksGiveSavable(read);
    FallbackLaws(read);
  }

  // ---- Boot, save, boot ------------------------------------------------------------------

  // A comment in printable characters is ignored by the parser.
  lemma {:induction false} CommentIsIgnored(line: string)
    requires 0 < |line| <= LINE_MAX && line[0] == '#' && line[|line| - 1] > ' '
    requires forall i :: 0 <= i < |line| ==> line[i] >= ' '
    ensures ParseLine(line) == Ignored
  {
    CStringWhole(line);
  }

  // Behind '#' and a blank, the key and a printed number scan as that number.
  lemma {:induction false} ScanAfterKey(key: string, n: nat)
    requires key != [] && key[0] > ' '
    ensures SkipSpace(" " + key + Decimal(n)) == key + Decimal(n)
    ensures ScanInt((key + Decimal(n))[|key|..]) == Some((n, ""))
  {
    hide Decimal, ScanInt;
    var t := " " + key + Decimal(n);
    assert t[1..] == key + Decimal(n);
    assert SkipSpace(t) == SkipSpace(t[1..]) == t[1..];
    assert (key + Decimal(n))[|key|..] == Decimal(n) == Decimal(n) + [];
    ScanDecimal(n, []);
  }

  lemma {:induction false} HeaderIsWhole(key: string, n: nat)
    requires forall i :: 0 <= i < |key| ==> key[i] >= ' '
    ensures CString("# " + key + Decimal(n)) == "# " + key + Decimal(n)
  {
    hide Decimal;
    DecimalIsClean(n);
    CStringWhole("# " + key + Decimal(n));
  }

  // The header of version n is read back as n.
  lemma {:induction false} VersionOfHeader(key: string, n: nat, line: string)
    requires key == VERSION_KEY && line == "# " + key + Decimal(n)
    requires key != [] && key[0] > ' ' && forall i :: 0 <= i < |key| ==> key[i] >= ' '
    ensures SchemaVersion(line) == n
  {
    hide VERSION_KEY, Decimal, ScanInt, SkipSpace, CString;
    HeaderIsWhole(key, n);
    ScanAfterKey(key, n);
    assert line[1..] == " " + key + Decimal(n);
    assert key <= key + Decimal(n);
  }

  lemma {:induction false} HeaderLineIsComment()
    ensures ParseLine(HEADER_LINE) == Ignored
    ensures SchemaVersion(HEADER_LINE) == SCHEMA_VERSION_CURRENT
    ensures '\n' !in HEADER_LINE
  {
    hide ParseLine, SchemaVersion;
    CommentIsIgnored(HEADER_LINE);
    assert HEADER_LINE == "# " + VERSION_KEY + "3";
    assert Decimal(3) == "3";
    VersionOfHeader(VERSION_KEY, 3, HEADER_LINE);
  }

  lemma {:induction false} SavedLines(t: Table)
    ensures SplitLines(SavedText(t)) == [HEADER_LINE] + TableLines(t, 18)
  {
    hide TableLines, Unlines, SplitLines, HEADER_LINE;
    HeaderLineIsComment();
    TableLinesHaveNoNewline(t, 18);
    UnlinesCons(HEADER_LINE, TableLines(t, 18));
    SplitUnlines([HEADER_LINE] + TableLines(t, 18));
  }

  lemma {:induction false} UnlinesCons(line: string, rest: seq<string>)
    ensures Unlines([line] + rest) == line + "\n" + Unlines(rest)
  {
    assert ([line] + rest)[1..] == rest;
  }

  lemma {:induction false} SavedFileIsCurrent(t: Table)
    ensures FileVersion(SavedText(t)) == SCHEMA_VERSION_CURRENT && !NeedsMigration(SavedText(t))
  {
    hide SchemaVersion, SavedText;
    SavedLines(t);
    HeaderLineIsComment();
  }

  // What a saved port comes back as: its bindings, axis modes normalised, except that the
  // fallbacks fill a default port that was saved empty.
  function Reborn(t: Table, d: nat, p: nat): seq<Binding>
    requires d < 3 && p < 6
  {
    if d == 0 && p == 0 && t[0][0].bindings == [] then [FallbackBinding(LSNS)]
    else if d == 1 && p == 0 && t[1][0].bindings == [] then [FallbackBinding(RSNS)]
    else AllNormalized(t[d][p].bindings)
  }

  // Parsing a saved file brings every port back so.
  lemma {:induction false} SavedFileParses(t: Table, c: Config, d: nat, p: nat)
    requires Savable(t) && d < 3 && p < 6
    ensures Parsed(SavedText(t), SetDefaults(c)).table[d][p].bindings == Reborn(t, d, p)
  {
    hide ApplyLines, ValidFor, TableLines, Restored, Writable, ParseLine, SavedText, AllNormalized, HEADER_LINE;
    SavedLines(t);
    var c0 := SetDefaults(c);
    var lines := [HEADER_LINE] + TableLines(t, 18);
    SavedLinesRestore(t, c, d, p);
    NormalizedKeepsLength(t[d][p].bindings);
    FallbackEffect(ApplyLines(c0, lines).(sourceIsFile := true), d, p);
  }

  lemma {:induction false} FallbackEffect(c: Config, d: nat, p: nat)
    requires d < 3 && p < 6
    ensures ApplyFallbacks(c).table[d][p].bindings
         == if d == 0 && p == 0 && c.table[0][0].bindings == [] then [FallbackBinding(LSNS)]
            else if d == 1 && p == 0 && c.table[1][0].bindings == [] then [FallbackBinding(RSNS)]
            else c.table[d][p].bindings
  {
  }

  // All ports come back exactly when neither default port was saved empty.
  lemma {:induction false} AllPortsComeBackExactly(t: Table)
    ensures (forall d, p :: 0 <= d < 3 && 0 <= p < 6 ==> Reborn(t, d, p) == AllNormalized(t[d][p].bindings))
            <==> BothDriven(t)
  {
    hide AllNormalized;
    NormalizedKeepsLength(t[0][0].bindings);
    NormalizedKeepsLength(t[1][0].bindings);
    assert Reborn(t, 0, 0) != [] && Reborn(t, 1, 0) != [];
  }

  lemma {:induction false} NormalizedKeepsLength(bs: seq<Binding>)
    ensures AllNormalized(bs) == [] <==> bs == []
  {
  }

  lemma {:induction false} SavedLinesRestore(t: Table, c: Config, d: nat, p: nat)
    requires Savable(t) && d < 3 && p < 6
    ensures ApplyLines(SetDefaults(c), [HEADER_LINE] + TableLines(t, 18)).table[d][p].bindings
         == AllNormalized(t[d][p].bindings)
  {
    hide ApplyLines, ValidFor, TableLines, Restored, Writable, HEADER_LINE;
    HeaderAddsNothing(TableLines(t, 18), d, p);
    ValidForTableLines(t, 18, d, p);
    FileMeaning(SetDefaults(c), [HEADER_LINE] + TableLines(t, 18), d, p);
    RestoredIsComplete(t[d][p].bindings);
    assert [] + Restored(t[d][p].bindings) == Restored(t[d][p].bindings);
  }

  lemma {:induction false} HeaderAddsNothing(lines: seq<string>, d: nat, p: nat)
    ensures ValidFor([HEADER_LINE] + lines, d, p) == ValidFor(lines, d, p)
  {
    HeaderLineIsComment();
    ValidForAppend([HEADER_LINE], lines, d, p);
    hide ParseLine;
    assert [HEADER_LINE][..0] == [];
    assert ValidFor([HEADER_LINE], d, p) == [];
  }

  // ---- The version of a first line --------------------------------------------------------

  // The line, up to a NUL, is '#', white space, the key, and then the number v.
  ghost predicate CarriesVersion(line: string, v: int) {
    exists lead, rest :: Spaces(lead) && CString(line) == "#" + lead + VERSION_KEY + rest && ReadsAs(rest, v)
  }

  predicate ReadsAs(rest: string, v: int) {
    ScanInt(rest).Some? && ScanInt(rest).value.0 == v
  }

  lemma {:induction false} SkipSpaceSplits(s: string) returns (lead: string)
    ensures s == lead + SkipSpace(s) && Spaces(lead)
  {
    if s != [] && IsSpace(s[0]) {
      var rest := SkipSpaceSplits(s[1..]);
      lead := [s[0]] + rest;
    } else {
      lead := "";
      assert s == lead + s;
    }
  }

  lemma {:induction false} KeyStarts(key: string, rest: string)
    requires key == VERSION_KEY
    ensures key != [] && !Spaces((key + rest)[..1]) && key <= key + rest && (key + rest)[|key|..] == rest
  {
    assert (key + rest)[..1][0] == 'M';
  }

  lemma {:induction false} HeaderSays(line: string, lead: string, rest: string, key: string)
    requires key == VERSION_KEY && Spaces(lead) && CString(line) == "#" + lead + key + rest
    ensures SchemaVersion(line) == match ScanInt(rest) case None => 0 case Some((v, _)) => v
  {
    hide VERSION_KEY, ScanInt, SkipSpace, CString;
    KeyStarts(key, rest);
    var s := CString(line);
    assert s == "#" + lead + (key + rest) && s[1..] == lead + (key + rest);
    SkipSpaceOfText(lead, key + rest);
  }

  // A version other than 0 is exactly the number a line carries; every line that carries none has
  // version 0.
  lemma {:induction false} VersionExactly(line: string, v: int)
    ensures v != 0 ==> (SchemaVersion(line) == v <==> CarriesVersion(line, v))
    ensures (forall w :: !CarriesVersion(line, w)) ==> SchemaVersion(line) == 0
  {
    hide ScanInt, SkipSpace, CString, VERSION_KEY, Spaces;
    var w := SchemaVersion(line);
    if w != 0 {
      var s := CString(line);
      var lead := SkipSpaceSplits(s[1..]);
      var rest := SkipSpace(s[1..])[|VERSION_KEY|..];
      assert s == "#" + s[1..] && SkipSpace(s[1..]) == VERSION_KEY + rest;
      assert s == "#" + lead + VERSION_KEY + rest;
      assert "#" + lead + VERSION_KEY + rest == "#" + lead + (VERSION_KEY + rest);
      assert ReadsAs(rest, w);
      assert CarriesVersion(line, w);
    }
    if v != 0 && CarriesVersion(line, v) {
      var lead, rest :| Spaces(lead) && CString(line) == "#" + lead + VERSION_KEY + rest && ReadsAs(rest, v);
      HeaderSays(line, lead, rest, VERSION_KEY);
    }
  }

  // Migration, on the text: a non-empty file whose first line carries no version of 3 or more, and
  // no negative one.
  lemma {:induction false} MigrationExactly(text: string)
    ensures NeedsMigration(text)
            <==> text != "" && forall v :: v < 0 || v >= 3 ==> !CarriesVersion(SplitLines(text)[0], v)
  {
    hide SchemaVersion, CarriesVersion;
    SplitOfNonEmpty(text);
    if text != "" {
      var line := SplitLines(text)[0];
      VersionExactly(line, SchemaVersion(line));
      forall v | v < 0 || v >= 3
        ensures CarriesVersion(line, v) <==> SchemaVersion(line) == v
      {
        VersionExactly(line, v);
      }
    }
  }

  // Boot, save, boot: for any disk and any failures on the way, a boot whose table is
  // then saved comes back with the same bindings up to axis modes, the second boot
  // writes nothing, and every later save writes the same bytes.
  lemma {:induction false} BootSaveBoot(disk: Disk, c: Config, luck: Luck, saveLuck: Luck, c': Config, luck': Luck,
                                        d: nat, p: nat)
    requires d < 3 && p < 6 && luck'.mount && luck'.openRead
    requires var first := BootRead(disk, c, luck); SaveSucceeds(first.disk, first.config.table, saveLuck)
    ensures var first := BootRead(disk, c, luck);
            var saved := SaveDisk(first.disk, first.config.table, saveLuck);
            var second := BootRead(saved, c', luck');
            second.config.table[d][p].bindings == AllNormalized(first.config.table[d][p].bindings)
            && second.disk == saved
            && SavedText(second.config.table) == SavedText(first.config.table)
  {
    hide SavedText, BootRead, SaveDisk, Parsed, Savable, NeedsMigration, SaveSucceeds, Fits, ApplyLines;
    var first := BootRead(disk, c, luck);
    var t := first.config.table;
    BootGivesSavable(disk, c, luck);
    SaveOutcome(first.disk, t, saveLuck);
    var saved := SaveDisk(first.disk, t, saveLuck);
    assert saved[CONFIG_PATH] == SavedText(t);
    SecondBoot(saved, t, c', luck');
    var u := BootRead(saved, c', luck').config.table;
    forall e, q | 0 <= e < 3 && 0 <= q < 6
      ensures u[e][q].bindings == AllNormalized(t[e][q].bindings)
    {
      SavedFileParses(t, c', e, q);
      AllPortsComeBackExactly(t);
    }
    SameSavedText(t, u);
  }

  // Save, boot, for any table that can be saved: every port comes back as Reborn says, and
  // the boot writes nothing.
  lemma {:induction false} SaveThenBoot(disk: Disk, t: Table, luck: Luck, c: Config, luck': Luck, d: nat, p: nat)
    requires Savable(t) && SaveSucceeds(disk, t, luck) && luck'.mount && luck'.openRead && d < 3 && p < 6
    ensures var saved := SaveDisk(disk, t, luck);
            BootRead(saved, c, luck').disk == saved
            && BootRead(saved, c, luck').config.table[d][p].bindings == Reborn(t, d, p)
  {
    hide SavedText, BootRead, SaveDisk, Parsed, Savable, NeedsMigration, SaveSucceeds, Fits, ApplyLines;
    SaveOutcome(disk, t, luck);
    SecondBoot(SaveDisk(disk, t, luck), t, c, luck');
    SavedFileParses(t, c, d, p);
  }

  // The editor: one port of a savable table is set to writable bindings, the table is saved
  // and booted. The edited table comes back whole exactly when it drives both default ports.
  lemma {:induction false} EditSaveBoot(disk: Disk, c: Config, e: nat, q: nat, bindings: seq<Binding>, count: nat,
                                        luck: Luck, c': Config, luck': Luck)
    requires Savable(c.table) && e < 3 && q < 6 && count <= |bindings|
    requires forall i :: 0 <= i < count && i < MAX_BINDINGS_PER_PORT ==> Writable(bindings[i])
    requires SaveSucceeds(disk, SetPortBindings(c, e, q, bindings, count).table, luck)
    requires luck'.mount && luck'.openRead
    ensures var t := SetPortBindings(c, e, q, bindings, count).table;
            var u := BootRead(SaveDisk(disk, t, luck), c', luck').config.table;
            (forall d, p :: 0 <= d < 3 && 0 <= p < 6 ==> u[d][p].bindings == Reborn(t, d, p))
            && ((forall d, p :: 0 <= d < 3 && 0 <= p < 6 ==> u[d][p].bindings == AllNormalized(t[d][p].bindings))
                <==> BothDriven(t))
  {
    hide BootRead, SaveDisk, Savable, SaveSucceeds, Writable, AllNormalized, Reborn, SetPortBindings, BothDriven;
    var t := SetPortBindings(c, e, q, bindings, count).table;
    EditKeepsSavable(c, e, q, bindings, count);
    forall d, p | 0 <= d < 3 && 0 <= p < 6
      ensures BootRead(SaveDisk(disk, t, luck), c', luck').config.table[d][p].bindings == Reborn(t, d, p)
    {
      SaveThenBoot(disk, t, luck, c', luck', d, p);
    }
    AllPortsComeBackExactly(t);
  }

  // RESET ALL saves a table without a binding; the next boot drives both default ports again.
  lemma {:induction false} ResetAllIsUndone(disk: Disk, t: Table, luck: Luck, c: Config, luck': Luck, d: nat, p: nat)
    requires forall e, q :: 0 <= e < 3 && 0 <= q < 6 ==> t[e][q].bindings == []
    requires SaveSucceeds(disk, t, luck) && luck'.mount && luck'.openRead && d < 3 && p < 6
    ensures BootRead(SaveDisk(disk, t, luck), c, luck').config.table[d][p].bindings
         == if d == 0 && p == 0 then [FallbackBinding(LSNS)]
            else if d == 1 && p == 0 then [FallbackBinding(RSNS)] else []
  {
    hide BootRead, SaveDisk, SaveSucceeds;
    SaveThenBoot(disk, t, luck, c, luck', d, p);
  }

  lemma {:induction false} SecondBoot(disk: Disk, t: Table, c: Config, luck: Luck)
    requires CONFIG_PATH in disk && disk[CONFIG_PATH] == SavedText(t) && luck.mount && luck.openRead
    ensures BootRead(disk, c, luck) == Booted(disk, Parsed(SavedText(t), SetDefaults(c)))
  {
    hide SavedText, Parsed, NeedsMigration, SaveDisk;
    SavedFileIsCurrent(t);
  }

  lemma {:induction false} SameSavedText(t: Table, u: Table)
    requires forall d, p :: 0 <= d < 3 && 0 <= p < 6 ==> u[d][p].bindings == AllNormalized(t[d][p].bindings)
    ensures SavedText(u) == SavedText(t)
  {
    hide TableLines;
    SameTextAfterNormalizing(t, u, 18);
  }

  // ---- Migration --------------------------------------------------------------------------

  // The disk after each file operation of one boot, in order.
  function ReadSteps(disk: Disk, c: Config, luck: Luck): seq<Disk> {
    if CONFIG_PATH !in disk || !luck.openRead || !NeedsMigration(disk[CONFIG_PATH]) then []
    else SaveSteps(disk, Parsed(disk[CONFIG_PATH], SetDefaults(c)).table, luck)
  }

  function BootSteps(disk: Disk, c: Config, luck: Luck): seq<Disk> {
    if !luck.mount then []
    else if CONFIG_PATH in disk then ReadSteps(disk, c, luck)
    else if !luck.create then []
    else
      var seeded := disk[CONFIG_PATH := Unlines(DEFAULT_LINES)];
      [seeded] + ReadSteps(seeded, c, luck)
  }

  // A boot writes files exactly when it seeds a missing file, or finds one that is non-empty
  // with no header or version 0 to 2 and can write its table: the table fits the save buffer
  // and the temporary file opens.
  lemma {:induction false} BootWritesExactly(disk: Disk, c: Config, luck: Luck)
    ensures BootRead(disk, c, luck).disk == DiskAfter(disk, BootSteps(disk, c, luck))
    ensures BootSteps(disk, c, luck) != [] <==>
            luck.mount
            && if CONFIG_PATH !in disk then luck.create
               else luck.openRead && NeedsMigration(disk[CONFIG_PATH])
                    && Fits(Parsed(disk[CONFIG_PATH], SetDefaults(c)).table) && luck.openTmp
    ensures CONFIG_PATH in disk ==>
              (NeedsMigration(disk[CONFIG_PATH]) <==>
               disk[CONFIG_PATH] != ""
               && forall v :: v < 0 || v >= 3 ==> !CarriesVersion(SplitLines(disk[CONFIG_PATH])[0], v))
  {
    hide SavedText, Parsed, SchemaVersion, Fits, Unlines, CarriesVersion;
    DefaultFileIsCurrent();
    if CONFIG_PATH in disk {
      MigrationExactly(disk[CONFIG_PATH]);
    } else {
      hide NeedsMigration;
      assert ReadSteps(disk[CONFIG_PATH := Unlines(DEFAULT_LINES)], c, luck) == [];
    }
  }

  lemma {:induction false} SplitOfNonEmpty(text: string)
    ensures SplitLines(text) == [] <==> text == ""
  {
  }

  // ---- What a file boots to ---------------------------------------------------------------

  lemma {:induction false} FlagIsNotRead(c: Config, flag: bool, lines: seq<string>)
    ensures ApplyLines(c.(sourceIsFile := flag), lines) == ApplyLines(c, lines).(sourceIsFile := flag)
  {
    hide ParseLine;
    if lines != [] {
      FlagIsNotRead(c, flag, lines[..|lines| - 1]);
    }
  }

  // What is parsed depends on the text alone.
  lemma {:induction false} ParsedForgets(text: string, c: Config, c': Config)
    ensures Parsed(text, SetDefaults(c)) == Parsed(text, SetDefaults(c'))
  {
    hide ApplyLines, SplitLines, ApplyFallbacks;
    FlagIsNotRead(SetDefaults(c), c'.sourceIsFile, SplitLines(text));
  }

  // The bindings the lines of a file give its first q ports.
  function Given(lines: seq<string>, q: nat): nat
    requires q <= 18
  {
    if q == 0 then 0 else Given(lines, q - 1) + |FirstEight(ValidFor(lines, (q - 1) / 6, (q - 1) % 6))|
  }

  lemma {:induction false} GivenIsTotal(c: Config, lines: seq<string>, q: nat)
    requires q <= 18
    ensures Total(ApplyLines(SetDefaults(c), lines).table, q) == Given(lines, q)
  {
    hide ApplyLines, ValidFor;
    if q > 0 {
      GivenIsTotal(c, lines, q - 1);
      var d, p := (q - 1) / 6, (q - 1) % 6;
      FileMeaning(SetDefaults(c), lines, d, p);
      assert [] + ValidFor(lines, d, p) == ValidFor(lines, d, p);
    }
  }

  // A file that is read sets each port to the first eight valid lines addressed to it, and an
  // empty default port to its fallback; marks the ports that got lines; counts every other line
  // that means something as skipped; and is the source of the table.
  lemma {:induction false} FileIsTable(text: string, c: Config, d: nat, p: nat)
    requires d < 3 && p < 6
    ensures var lines, r := SplitLines(text), Parsed(text, SetDefaults(c));
            r.table[d][p].bindings ==
              (if d == 0 && p == 0 && ValidFor(lines, 0, 0) == [] then [Binding(LSNS, false, 100, PROPORTIONAL)]
               else if d == 1 && p == 0 && ValidFor(lines, 1, 0) == [] then [Binding(RSNS, false, 100, PROPORTIONAL)]
               else FirstEight(ValidFor(lines, d, p)))
            && (r.table[d][p].fromFile <==> ValidFor(lines, d, p) != [])
            && r.skipped + Given(lines, 18) == Meaningful(lines)
            && r.sourceIsFile
  {
    hide ApplyLines, ValidFor, SplitLines, Total, Given;
    var lines, c0 := SplitLines(text), SetDefaults(c);
    FileMeaning(c0, lines, d, p);
    assert [] + ValidFor(lines, d, p) == ValidFor(lines, d, p);
    MarkedFromFile(c0, lines, d, p);
    LinesAreConserved(c0, lines);
    GivenIsTotal(c, lines, 18);
    NothingTotal(c);
    FallbackEffect(ApplyLines(c0, lines).(sourceIsFile := true), d, p);
    FallbackKeepsMarks(ApplyLines(c0, lines).(sourceIsFile := true), d, p);
  }

  lemma {:induction false} NothingTotal(c: Config)
    ensures Total(SetDefaults(c).table, 18) == 0 && SetDefaults(c).skipped == 0
  {
    BlankTotal(SetDefaults(c).table, 18);
  }

  lemma {:induction false} BlankTotal(t: Table, q: nat)
    requires q <= 18 && forall d, p :: 0 <= d < 3 && 0 <= p < 6 ==> t[d][p].bindings == []
    ensures Total(t, q) == 0
  {
    if q > 0 {
      BlankTotal(t, q - 1);
    }
  }

  lemma {:induction false} FallbackKeepsMarks(c: Config, d: nat, p: nat)
    requires d < 3 && p < 6
    ensures ApplyFallbacks(c).table[d][p].fromFile == c.table[d][p].fromFile
    ensures ApplyFallbacks(c).skipped == c.skipped && ApplyFallbacks(c).sourceIsFile == c.sourceIsFile
  {
  }

  // Which file a boot runs on, if any: the one it finds and can read, or the one it seeds.
  predicate ReadsFile(disk: Disk, luck: Luck) {
    luck.mount && luck.openRead && (CONFIG_PATH in disk || luck.create)
  }

  // A boot runs on that file, and on the two fallback bindings alone without one.
  lemma {:induction false} BootRunsOn(disk: Disk, c: Config, luck: Luck)
    ensures BootRead(disk, c, luck).config ==
            if ReadsFile(disk, luck) then
              Parsed(if CONFIG_PATH in disk then disk[CONFIG_PATH] else Unlines(DEFAULT_LINES), SetDefaults(c))
            else WithoutFile(disk, SetDefaults(c)).config
    ensures var r := WithoutFile(disk, SetDefaults(c)).config;
            !r.sourceIsFile && r.skipped == 0
            && forall d, p :: 0 <= d < 3 && 0 <= p < 6 ==>
                 r.table[d][p] == Port(if d == 0 && p == 0 then [Binding(LSNS, false, 100, PROPORTIONAL)]
                                       else if d == 1 && p == 0 then [Binding(RSNS, false, 100, PROPORTIONAL)]
                                       else [], false)
  {
    hide Parsed, NeedsMigration, Unlines, SaveDisk, SaveSucceeds;
    DefaultFileIsCurrent();
    ParsedIsSource(if CONFIG_PATH in disk then disk[CONFIG_PATH] else Unlines(DEFAULT_LINES), SetDefaults(c));
  }

  lemma {:induction false} ParsedIsSource(text: string, c: Config)
    ensures Parsed(text, c).sourceIsFile
  {
    hide ApplyLines, SplitLines;
  }

  // A save notes the file as the source exactly when it succeeds, and changes nothing else.
  lemma {:induction false} SaveNotesSource(disk: Disk, c: Config, luck: Luck)
    ensures SaveConfig(disk, c, luck).table == c.table && SaveConfig(disk, c, luck).skipped == c.skipped
    ensures SaveConfig(disk, c, luck).sourceIsFile <==> c.sourceIsFile || SaveSucceeds(disk, c.table, luck)
  {
    hide SaveSucceeds;
  }

  // ---- Reload ------------------------------------------------------------------------------

  // A reload forgets the table it finds.
  lemma {:induction false} ReloadForgets(disk: Disk, c: Config, c': Config, luck: Luck)
    ensures Reload(disk, c, luck) == Reload(disk, c', luck)
  {
    hide Parsed, NeedsMigration, SaveDisk, SaveSucceeds, SaveConfig;
    if CONFIG_PATH in disk {
      ParsedForgets(disk[CONFIG_PATH], c, c');
    }
  }

  // On a mounted disk with a config file a reload is a boot.
  lemma {:induction false} ReloadIsBoot(disk: Disk, c: Config, c': Config, luck: Luck)
    requires CONFIG_PATH in disk && luck.mount
    ensures Reload(disk, c, luck) == BootRead(disk, c', luck)
  {
    hide ReadAndParse, SetDefaults;
    ReloadForgets(disk, c, c', luck);
  }

  // So saving and reloading gives what saving and booting gives, and a current file is only read.
  lemma {:induction false} SaveThenReload(disk: Disk, t: Table, luck: Luck, c: Config, luck': Luck, d: nat, p: nat)
    requires Savable(t) && SaveSucceeds(disk, t, luck) && luck'.openRead && d < 3 && p < 6
    ensures var saved := SaveDisk(disk, t, luck);
            Reload(saved, c, luck').disk == saved
            && Reload(saved, c, luck').config.table[d][p].bindings == Reborn(t, d, p)
  {
    hide SaveDisk, Savable, SaveSucceeds, Reload, BootRead, Reborn;
    SaveOutcome(disk, t, luck);
    SaveThenBoot(disk, t, luck, c, luck'.(mount := true), d, p);
    ReloadIsBoot(SaveDisk(disk, t, luck), c, c, luck'.(mount := true));
    MountIsNotAsked(SaveDisk(disk, t, luck), c, luck');
  }

  lemma {:induction false} MountIsNotAsked(disk: Disk, c: Config, luck: Luck)
    ensures Reload(disk, c, luck.(mount := true)) == Reload(disk, c, luck)
  {
    hide Parsed, NeedsMigration;
  }

  lemma {:induction false} CurrentFileIsOnlyRead(disk: Disk, c: Config, luck: Luck)
    requires CONFIG_PATH in disk && !NeedsMigration(disk[CONFIG_PATH])
    ensures Reload(disk, c, luck).disk == disk
  {
    hide Parsed, NeedsMigration;
  }

  // Whatever the disk holds, the reloaded table can be saved and drives both default ports.
  lemma {:induction false} ReloadGivesSavable(disk: Disk, c: Config, luck: Luck)
    ensures Savable(Reload(disk, c, luck).config.table)
    ensures BothDriven(Reload(disk, c, luck).config.table)
  {
    hide Savable, BothDriven, BootRead, Reload;
    var luck' := luck.(mount := true);
    MountIsNotAsked(disk, c, luck);
    if CONFIG_PATH in disk {
      ReloadIsBoot(disk, c, c, luck');
      BootGivesSavable(disk, c, luck');
    } else {
      ReloadWithoutFile(disk, c, luck);
      BootGivesSavable(disk, c, luck.(mount := false));
    }
  }

  lemma {:induction false} ReloadWithoutFile(disk: Disk, c: Config, luck: Luck)
    requires CONFIG_PATH !in disk
    ensures Reload(disk, c, luck).config == BootRead(disk, c, luck.(mount := false)).config
  {
  }

  // Power lost inside a save: the next boot runs on the old file, on the new one, or, where
  // the old file is gone and the new one not yet in place, on the seeded defaults.
  lemma {:induction false} CrashThenBoot(disk: Disk, t: Table, luck: Luck, i: nat, c: Config, luck': Luck)
    requires i < |SaveSteps(disk, t, luck)| && luck'.mount && luck'.create && luck'.openRead
    ensures var d := SaveSteps(disk, t, luck)[i];
            i == 0 ==> (CONFIG_PATH in d <==> CONFIG_PATH in disk)
    ensures var d := SaveSteps(disk, t, luck)[i];
            BootRead(d, c, luck').config ==
            Parsed(if CONFIG_PATH !in d then Unlines(DEFAULT_LINES)
                   else if i == 0 then disk[CONFIG_PATH] else SavedText(t), SetDefaults(c))
  {
    hide SavedText, Fits, Unlines, Parsed, BootRead;
    var d := SaveSteps(disk, t, luck)[i];
    if CONFIG_PATH in d {
      BootRunsOnItsFile(d, c, luck');
    } else {
      BootRunsOnSeed(d, c, luck');
    }
  }

  lemma {:induction false} BootRunsOnItsFile(disk: Disk, c: Config, luck: Luck)
    requires CONFIG_PATH in disk && luck.mount && luck.openRead
    ensures BootRead(disk, c, luck).config == Parsed(disk[CONFIG_PATH], SetDefaults(c))
  {
    hide NeedsMigration, SaveDisk, SaveSucceeds, ApplyLines, SplitLines, SetDefaults;
  }

  lemma {:induction false} BootRunsOnSeed(disk: Disk, c: Config, luck: Luck)
    requires CONFIG_PATH !in disk && luck.mount && luck.create && luck.openRead
    ensures BootRead(disk, c, luck).config == Parsed(Unlines(DEFAULT_LINES), SetDefaults(c))
  {
    hide Parsed, NeedsMigration, Unlines;
    DefaultFileIsCurrent();
  }

  // A migrated file is not migrated again.
  lemma {:induction false} MigratedOnce(disk: Disk, c: Config, luck: Luck, c': Config, luck': Luck)
    requires CONFIG_PATH in disk && luck.mount && luck.openRead && NeedsMigration(disk[CONFIG_PATH])
    requires SaveSucceeds(disk, Parsed(disk[CONFIG_PATH], SetDefaults(c)).table, luck)
    requires luck'.mount && luck'.openRead
    ensures var once := BootRead(disk, c, luck).disk;
            CONFIG_PATH in once && !NeedsMigration(once[CONFIG_PATH])
            && BootRead(once, c', luck').disk == once
  {
    hide SavedText, Parsed, NeedsMigration, SaveDisk, SaveSucceeds, Fits;
    var t := Parsed(disk[CONFIG_PATH], SetDefaults(c)).table;
    SaveOutcome(disk, t, luck);
    SavedFileIsCurrent(t);
    SecondBoot(SaveDisk(disk, t, luck), t, c', luck');
  }

  // A rename that fails costs the configuration: the next boot finds no file, seeds
  // the defaults and never looks at the temporary file.
  lemma {:induction false} FailedRenameLosesConfig(disk: Disk, t: Table, luck: Luck, c: Config, luck': Luck)
    requires Fits(t) && luck.openTmp && luck.remove && !luck.rename
    requires luck'.mount && luck'.create && luck'.openRead
    ensures var next := BootRead(SaveDisk(disk, t, luck), c, luck');
            CONFIG_PATH in next.disk && next.disk[CONFIG_PATH] == Unlines(DEFAULT_LINES)
            && next.config == Parsed(Unlines(DEFAULT_LINES), SetDefaults(c))
  {
    hide SavedText, Parsed, NeedsMigration, Fits;
    SaveOutcome(disk, t, luck);
    DefaultFileIsCurrent();
  }

  lemma {:induction false} DefaultFileIsCurrent()
    ensures !NeedsMigration(Unlines(DEFAULT_LINES))
  {
    hide SchemaVersion, Unlines, SplitLines;
    HeaderLineIsComment();
    NoNewlineInDefaults();
    SplitUnlines(DEFAULT_LINES);
    FileVersionOf(Unlines(DEFAULT_LINES), DEFAULT_LINES, HEADER_LINE);
  }

  lemma {:induction false} FileVersionOf(text: string, lines: seq<string>, first: string)
    requires SplitLines(text) == lines && lines != [] && lines[0] == first
    ensures FileVersion(text) == SchemaVersion(first)
  {
    var split := SplitLines(text);
    assert split == lines;
    assert split[0] == first;
    assert split != [];
    assert FileVersion(text) == SchemaVersion(split[0]);
    assert SchemaVersion(split[0]) == SchemaVersion(first);
  }

  // ---- The seeded file ----------------------------------------------------------------------

  lemma {:induction false} DefaultTokens()
    ensures InvertToken(false) == "invert=no" && CurveToken() == "curve=linear"
    ensures InputName(LSNS) == "LSNS" && InputName(RSNS) == "RSNS"
  {
  }

  lemma {:induction false} DefaultNumbers()
    ensures Decimal(1) == "1" && Decimal(2) == "2"
    ensures MaxToken(100) == "max=100"
  {
    assert Decimal(10) == "10";
    assert Decimal(100) == "100";
  }

  lemma {:induction false} DefaultKeys()
    ensures PrintKey(0, 0) == "HUB1_PORT_A" && PrintKey(1, 0) == "HUB2_PORT_A"
  {
    DefaultNumbers();
    hide Decimal;
    assert PortLetter(0) == 'A';
  }

  lemma {:induction false} DefaultValue(input: Input)
    requires input == LSNS || input == RSNS
    ensures PrintValue(FallbackBinding(input)) == InputName(input) + " " + DEFAULT_ATTRIBUTES
  {
    DefaultTokens();
    DefaultNumbers();
    hide InvertToken, MaxToken, CurveToken, InputName;
    var attributes := PrintAttributes(FallbackBinding(input));
    assert attributes == DEFAULT_ATTRIBUTES + "";
  }

  lemma {:induction false} DefaultLinesArePrinted()
    ensures PrintLine(0, 0, FallbackBinding(LSNS)) == DEFAULT_HUB1
    ensures PrintLine(1, 0, FallbackBinding(RSNS)) == DEFAULT_HUB2
  {
    DefaultKeys();
    DefaultTokens();
    DefaultValue(LSNS);
    DefaultValue(RSNS);
    hide PrintKey, PrintValue, InputName, DEFAULT_ATTRIBUTES;
  }

  lemma {:induction false} NoNewlineInDefaults()
    ensures forall i :: 0 <= i < |DEFAULT_LINES| ==> '\n' !in DEFAULT_LINES[i]
  {
    hide PrintLine, DEFAULT_HUB1, DEFAULT_HUB2, HEADER_LINE;
    HeaderLineIsComment();
    DefaultLinesArePrinted();
    PrintedLineParses(0, 0, FallbackBinding(LSNS));
    PrintedLineParses(1, 0, FallbackBinding(RSNS));
  }

  lemma {:induction false} EmptyPortsPrintNothing(t: Table, q: nat, r: nat)
    requires q <= r <= 18
    requires forall d, p :: 0 <= d < 3 && 0 <= p < 6 && q <= 6 * d + p < r ==> t[d][p].bindings == []
    ensures TableLines(t, r) == TableLines(t, q)
    decreases r - q
  {
    if q < r {
      EmptyPortsPrintNothing(t, q, r - 1);
      var d, p := (r - 1) / 6, (r - 1) % 6;
      assert 6 * d + p == r - 1;
      assert PortLines(d, p, t[d][p].bindings) == [];
    }
  }

  // The seeded text is byte for byte what saving the default mapping writes.
  lemma {:induction false} SeedIsSavedDefaults(c: Config)
    ensures SavedText(ApplyFallbacks(SetDefaults(c)).table) == Unlines(DEFAULT_LINES)
  {
    hide PrintLine, Unlines, DEFAULT_HUB1, DEFAULT_HUB2, HEADER_LINE;
    var t := ApplyFallbacks(SetDefaults(c)).table;
    DefaultLinesArePrinted();
    EmptyPortsPrintNothing(t, 1, 6);
    EmptyPortsPrintNothing(t, 7, 18);
    assert PortLines(0, 0, t[0][0].bindings) == [DEFAULT_HUB1];
    assert PortLines(1, 0, t[1][0].bindings) == [DEFAULT_HUB2];
    assert TableLines(t, 1) == TableLines(t, 0) + [DEFAULT_HUB1] == [DEFAULT_HUB1];
    assert TableLines(t, 7) == TableLines(t, 6) + [DEFAULT_HUB2];
    UnlinesCons(HEADER_LINE, TableLines(t, 18));
    assert [HEADER_LINE] + TableLines(t, 18) == DEFAULT_LINES;
  }
}
