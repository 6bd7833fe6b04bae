/**
 * The preload script of the client's first-run page: it rewrites the
 * preferences file when a folder is chosen, and shows the stored folders
 * when the page loads.
 */
module ClientPreload {
  import opened Wrappers
  import opened Text
  import Prefs
  import opened DbPage

  const Dbs: seq<string> := ["PHI", "TLG", "DDP"]

  /** What an unreadable preferences file is replaced by. */
  const Header: string := "# Created by electron"

  /**
   * `setPath`: nothing when the dialog was cancelled; otherwise the file is
   * rewritten, the folder shown with its check mark, and the done section
   * revealed if any path is set.
   */
  method SetPath(page: SettingsPage, db: string, folder: Option<string>, files: set<string>)
    requires page.Valid() && db in page.dbs
    modifies page
    ensures page.Valid()
    ensures folder.None? ==>
      && page.prefsFile == old(page.prefsFile) && page.paths == old(page.paths)
      && page.marks == old(page.marks) && page.doneShown == old(page.doneShown)
    ensures folder.Some? ==>
      && page.prefsFile == Prefs.WriteSettings(old(page.prefsFile), Header, db, folder)
      && page.paths == old(page.paths)[db := folder.value]
      && page.marks == old(page.marks)[db := MarkFor(files, folder.value, false)]
      && page.doneShown == (old(page.doneShown) || AnySet(page.dbs, page.paths))
    ensures folder.Some? && folder.value != "" ==> page.doneShown
  {
    if folder.None? {
      return;
    }
    page.Store(db, folder.value, Header);
    page.ShowPath(db, folder.value, files, false);
    page.ReadyDoneButton();
    assert db in page.paths && |page.paths[db]| == |folder.value|;
    if folder.value != "" {
      var i :| 0 <= i < |page.dbs| && page.dbs[i] == db;
      assert |page.paths[page.dbs[i]]| > 0;
    }
  }

  /**
   * `firstrunSetup`: the settings directory is created when missing, the done
   * button is readied, and then each stored folder is shown. The done section
   * is decided before any stored folder is shown.
   */
  method FirstrunSetup(page: SettingsPage, files: set<string>, settingsDirExists: bool) returns (mkdir: bool)
    requires page.Valid()
    modifies page
    ensures page.Valid()
    ensures mkdir <==> !settingsDirExists
    ensures page.doneShown == (old(page.doneShown) || AnySet(page.dbs, old(page.paths)))
    ensures forall i :: 0 <= i < |page.dbs| ==>
      page.paths[page.dbs[i]] == StoredPath(old(page.prefsFile), page.dbs[i], old(page.paths)[page.dbs[i]])
    ensures forall i :: 0 <= i < |page.dbs| ==>
      page.marks[page.dbs[i]] == StoredMark(old(page.prefsFile), page.dbs[i], files, false, old(page.marks)[page.dbs[i]])
    ensures page.prefsFile == old(page.prefsFile)
  {
    mkdir := !settingsDirExists;
    page.ReadyDoneButton();
    page.ShowAllStored(page.prefsFile, files, {});
  }
}
