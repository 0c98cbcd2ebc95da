// The functions of main/mkh_storage.cpp as an object over a disk, proved against the
// Storage functions. `history` records the disk after every file operation.
module StorageObject {
  import opened Wrappers
  import opened CText
  import opened ConfigTable
  import opened Storage
  import opened ConfigStore

  class FlashStorage {
    const config: Store
    var disk: Disk
    ghost var history: seq<Disk>

    ghost predicate Valid()
      reads this, config
    {
      config.Valid()
    }

    constructor (config: Store, disk: Disk)
      requires config.Valid()
      ensures Valid() && this.config == config && this.disk == disk && history == []
    {
      this.config := config;
      this.disk := disk;
      history := [];
    }

    // Open for writing, write, close.
    method WriteFile(path: string, text: string)
      modifies this
      ensures disk == old(disk)[path := text] && history == old(history) + [disk]
    {
      disk := disk[path := text];
      history := history + [disk];
    }

    method RemoveFile(path: string)
      modifies this
      ensures disk == old(disk) - {path} && history == old(history) + [disk]
    {
      disk := disk - {path};
      history := history + [disk];
    }

    method RenameFile(from: string, target: string)
      requires from in disk
      modifies this
      ensures disk == (old(disk) - {from})[target := old(disk)[from]] && history == old(history) + [disk]
    {
      disk := (disk - {from})[target := disk[from]];
      history := history + [disk];
    }

    // mkh_storage_save_config.
    method MkhStorageSaveConfig(luck: Luck) returns (ok: bool)
      requires Valid()
      modifies this, config`sourceIsFile
      ensures Valid()
      ensures var t := old(config.View()).table;
              ok == SaveSucceeds(old(disk), t, luck)
              && disk == SaveDisk(old(disk), t, luck)
              && history == old(history) + SaveSteps(old(disk), t, luck)
              && config.View() == SaveConfig(old(disk), old(config.View()), luck)
    {
      hide TableLines, Unlines;
      var buf := new char[SAVE_BUFFER_SIZE];
      var n := config.MkhConfigSerialize(buf);
      if n < 0 {
        return false;
      }
      if !luck.openTmp {
        return false;
      }
      WriteFile(TMP_PATH, HEADER_LINE + "\n" + buf[..n]);
      assert disk[TMP_PATH] == SavedText(old(config.View()).table);
      if CONFIG_PATH in disk {
        if !luck.remove {
          return false;
        }
        RemoveFile(CONFIG_PATH);
      }
      if !luck.rename {
        return false;
      }
      RenameFile(TMP_PATH, CONFIG_PATH);
      config.MkhConfigNoteSource(true);
      return true;
    }

    // readAndParseConfigFile.
    method ReadAndParseConfigFile(luck: Luck)
      requires Valid()
      modifies this, config, config.rows
      ensures Valid()
      ensures Booted(disk, config.View()) == ReadAndParse(old(disk), old(config.View()), luck)
    {
      hide SplitLines, SaveDisk, SaveSucceeds, SchemaVersion;
      if CONFIG_PATH !in disk || !luck.openRead {
        config.MkhConfigNoteSource(false);
        config.MkhConfigApplyFallbacks();
        return;
      }
      var lines := SplitLines(disk[CONFIG_PATH]);
      var lineNum := 0;
      var fileSchemaVersion := -1;
      while lineNum < |lines|
        invariant 0 <= lineNum <= |lines|
        invariant disk == old(disk) && Valid()
        invariant config.View() == ApplyLines(old(config.View()), lines[..lineNum])
        invariant fileSchemaVersion == if lineNum == 0 then -1 else SchemaVersion(lines[0])
      {
        var line := lines[lineNum];
        if lineNum == 0 {
          fileSchemaVersion := SchemaVersion(line);
        }
        config.MkhConfigParseLine(line);
        assert lines[..lineNum + 1][..lineNum] == lines[..lineNum];
        lineNum := lineNum + 1;
      }
      assert lines[..|lines|] == lines;
      config.MkhConfigNoteSource(true);
      config.MkhConfigApplyFallbacks();
      if fileSchemaVersion >= 0 && fileSchemaVersion < SCHEMA_VERSION_CURRENT {
        var ok := MkhStorageSaveConfig(luck);
      }
    }

    // mkh_storage_boot_read.
    method MkhStorageBootRead(luck: Luck)
      requires Valid()
      modifies this, config, config.rows
      ensures Valid()
      ensures Booted(disk, config.View()) == BootRead(old(disk), old(config.View()), luck)
    {
      hide ReadAndParse;
      config.MkhConfigSetDefaults();
      if !luck.mount {
        config.MkhConfigNoteSource(false);
        config.MkhConfigApplyFallbacks();
        return;
      }
      if CONFIG_PATH !in disk {
        if !luck.create {
          config.MkhConfigNoteSource(false);
          config.MkhConfigApplyFallbacks();
          return;
        }
        WriteFile(CONFIG_PATH, Unlines(DEFAULT_LINES));
      }
      ReadAndParseConfigFile(luck);
    }

    // mkh_storage_reload_config.
    method MkhStorageReloadConfig(luck: Luck)
      requires Valid()
      modifies this, config, config.rows
      ensures Valid()
      ensures Booted(disk, config.View()) == Reload(old(disk), old(config.View()), luck)
    {
      hide ReadAndParse;
      config.MkhConfigSetDefaults();
      ReadAndParseConfigFile(luck);
    }
  }
}
