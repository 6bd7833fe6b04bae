/**
 * The database-settings page of the Electron distribution: the rewrite
 * without the done button, and a set-up that shows the stored folders.
 */
module ElectronDbSettings {
  import opened Wrappers
  import opened Text
  import Prefs
  import opened DbPage

  const Dbs: seq<string> := ["PHI", "TLG", "DDP"]

  /** What an unreadable preferences file is replaced by. */
  const Header: string := "# Created by electron"

  /** `setPath`: the file is rewritten and the folder shown; this page has no done button to ready. */
  method SetPath(page: SettingsPage, db: string, folder: Option<string>, files: set<string>)
    requires page.Valid() && db in page.dbs
    modifies page
    ensures page.Valid()
    ensures page.doneShown == old(page.doneShown)
    ensures folder.None? ==>
      page.prefsFile == old(page.prefsFile) && page.paths == old(page.paths) && page.marks == old(page.marks)
    ensures folder.Some? ==>
      && page.prefsFile == Prefs.WriteSettings(old(page.prefsFile), Header, db, folder)
      && page.paths == old(page.paths)[db := folder.value]
      && page.marks == old(page.marks)[db := MarkFor(files, folder.value, false)]
  {
    if folder.None? {
      return;
    }
    page.Store(db, folder.value, Header);
    page.ShowPath(db, folder.value, files, false);
  }

  /** `dbSettingsSetup`: no directory is made; an unreadable file shows nothing; otherwise TLG, PHI and DDP are shown. */
  method DbSettingsSetup(page: SettingsPage, files: set<string>) returns (mkdir: bool)
    requires page.Valid() && page.dbs == Dbs
    modifies page
    ensures page.Valid()
    ensures !mkdir
    ensures forall i :: 0 <= i < |Dbs| ==>
      page.paths[Dbs[i]] == StoredPath(old(page.prefsFile), Dbs[i], old(page.paths)[Dbs[i]])
      && page.marks[Dbs[i]] == StoredMark(old(page.prefsFile), Dbs[i], files, false, old(page.marks)[Dbs[i]])
    ensures page.doneShown == old(page.doneShown) && page.prefsFile == old(page.prefsFile)
  {
    mkdir := false;
    var data := page.prefsFile;
    if data.Some? {
      ghost var p0, m0 := page.paths, page.marks;
      page.ShowStored(data.value, "TLG", files, false);
      page.ShowStored(data.value, "PHI", files, false);
      page.ShowStored(data.value, "DDP", files, false);
      assert page.paths == p0["TLG" := StoredPath(data, "TLG", p0["TLG"])]
                             ["PHI" := StoredPath(data, "PHI", p0["PHI"])]
                             ["DDP" := StoredPath(data, "DDP", p0["DDP"])];
    }
  }
}
