// The settings page's RESET, from the file on the disk to the running machine.
module ReloadRuns {
  import opened ConfigTable
  import opened Failsafe
  import S = Storage

  lemma {:induction false} SavableIsCapped(t: Table)
    requires Savable(t)
    ensures Capped(t)
  {
  }

  // RESET puts the machine on the table a boot from this disk would give, whatever the table was
  // before; every latch, pulse, lock, channel and controller stays.
  lemma {:induction false} ResetTakesFile(s: System, disk: S.Disk, c: Config, c': Config, luck: S.Luck)
    requires S.CONFIG_PATH in disk && luck.mount && luck.openRead
    ensures var table := S.Reload(disk, c, luck).config.table;
            Capped(table)
            && table == S.BootRead(disk, c', luck).config.table
            && Apply(s, Reload(table)) == System(table, s.pads, s.grid, s.slicer)
  {
    hide Apply, S.Reload, S.BootRead;
    S.ReloadGivesSavable(disk, c, luck);
    SavableIsCapped(S.Reload(disk, c, luck).config.table);
    S.ReloadIsBoot(disk, c, c', luck);
    ReloadStep(s, S.Reload(disk, c, luck).config.table);
  }

  lemma {:induction false} ReloadStep(s: System, t: MappingTable)
    ensures Apply(s, Reload(t)) == System(t, s.pads, s.grid, s.slicer)
  {
  }

  // After a save, edits that were only tried out are undone by RESET, port by port.
  lemma {:induction false} ResetRestoresSaved(s: System, disk: S.Disk, saved: Table, luck: S.Luck, c: Config,
                                              luck': S.Luck, d: nat, p: nat)
    requires Savable(saved) && S.SaveSucceeds(disk, saved, luck) && luck'.openRead && d < 3 && p < 6
    ensures var table := S.Reload(S.SaveDisk(disk, saved, luck), c, luck').config.table;
            Capped(table) && Apply(s, Reload(table)).table[d][p].bindings == S.Reborn(saved, d, p)
  {
    hide Apply, S.Reload, S.SaveDisk, S.Reborn, Savable;
    var now := S.SaveDisk(disk, saved, luck);
    S.SaveThenReload(disk, saved, luck, c, luck', d, p);
    S.ReloadGivesSavable(now, c, luck');
    SavableIsCapped(S.Reload(now, c, luck').config.table);
    ReloadStep(s, S.Reload(now, c, luck').config.table);
  }
}
