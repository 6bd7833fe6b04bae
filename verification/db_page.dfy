/**
 * The database-settings pages the front ends show: one path field and one
 * check mark per database, a "done" section revealed once any path is set,
 * and a copy of the preferences file that the page reads and rewrites.
 */
module DbPage {
  import opened Wrappers
  import opened Text
  import Prefs

  /** A database's check mark: not yet shown, a tick, or the warning. */
  datatype Mark = Unmarked | Valid | Warn

  /** `existsSync` of `<folder>/authtab.dir` or `<folder>/AUTHTAB.DIR`, over the files that exist. */
  predicate AuthtabAt(files: set<string>, folder: string) {
    folder + "/authtab.dir" in files || folder + "/AUTHTAB.DIR" in files
  }

  /** The tick when the folder holds an author table or the database needs none; the warning otherwise. */
  function MarkFor(files: set<string>, folder: string, exempt: bool): (m: Mark)
    ensures m == Valid <==> AuthtabAt(files, folder) || exempt
    ensures m != Unmarked
  {
    if AuthtabAt(files, folder) || exempt then Valid else Warn
  }

  /** What a path field shows after a settings file is read: the reader's capture, or what it showed before. */
  function StoredPath(data: Option<string>, db: string, current: string): (p: string)
    ensures data.None? ==> p == current
    ensures data.Some? && Prefs.ReadDir(data.value, db).Some? ==> p == Prefs.ReadDir(data.value, db).value
  {
    if data.Some? && Prefs.ReadDir(data.value, db).Some? then Prefs.ReadDir(data.value, db).value else current
  }

  function StoredMark(data: Option<string>, db: string, files: set<string>, exempt: bool, current: Mark): (m: Mark)
    ensures data.None? ==> m == current
  {
    if data.Some? && Prefs.ReadDir(data.value, db).Some? then MarkFor(files, Prefs.ReadDir(data.value, db).value, exempt)
    else current
  }

  /** Some database's path field shows a folder. */
  predicate AnySet(dbs: seq<string>, paths: map<string, string>)
    requires forall i :: 0 <= i < |dbs| ==> dbs[i] in paths
  {
    exists i :: 0 <= i < |dbs| && |paths[dbs[i]]| > 0
  }

  /** A folder without line breaks or `$` written for a database is what a page loaded on the new file shows for it. */
  lemma {:induction false} WrittenFolderReadBack(stored: Option<string>, header: string, db: string, folder: string, current: string)
    requires IsWord(db) && NoTerminator(folder) && Prefs.NoDollar(folder)
    ensures var written := Prefs.WriteSettings(stored, header, db, Some(folder));
      && written.Some? && Prefs.ReadDir(written.value, db) == Some(folder)
      && StoredPath(written, db, current) == folder
  {
    var data := stored.GetOr(header);
    Prefs.RewriteAsWrittenPlain(data, db, folder);
    Prefs.ReadAfterRewrite(data, db, folder);
  }

  /**
   * The state of the loop over the databases once it has visited `seen`: a
   * visited database shows what the file stores, the others what they showed.
   */
  ghost predicate ShownSoFar(dbs: seq<string>, seen: set<string>, data: Option<string>, files: set<string>,
                             exempt: set<string>, paths0: map<string, string>, marks0: map<string, Mark>,
                             paths: map<string, string>, marks: map<string, Mark>)
  {
    forall k :: 0 <= k < |dbs| ==>
      && dbs[k] in paths0 && dbs[k] in marks0 && dbs[k] in paths && dbs[k] in marks
      && paths[dbs[k]] == (if dbs[k] in seen then StoredPath(data, dbs[k], paths0[dbs[k]]) else paths0[dbs[k]])
      && marks[dbs[k]] == (if dbs[k] in seen
                           then StoredMark(data, dbs[k], files, dbs[k] in exempt, marks0[dbs[k]])
                           else marks0[dbs[k]])
  }

  /** Showing one more database's stored folder extends the loop's state; a database seen twice shows the same. */
  lemma ShowStep(dbs: seq<string>, seen: set<string>, data: string, files: set<string>, exempt: set<string>,
                 paths0: map<string, string>, marks0: map<string, Mark>,
                 paths: map<string, string>, marks: map<string, Mark>, i: nat)
    requires i < |dbs| && ShownSoFar(dbs, seen, Some(data), files, exempt, paths0, marks0, paths, marks)
    ensures ShownSoFar(dbs, seen + {dbs[i]}, Some(data), files, exempt, paths0, marks0,
      paths[dbs[i] := StoredPath(Some(data), dbs[i], paths[dbs[i]])],
      marks[dbs[i] := StoredMark(Some(data), dbs[i], files, dbs[i] in exempt, marks[dbs[i]])])
  {
  }

  /** One settings page. */
  class SettingsPage {
    /** The databases the page has fields for, in the order it visits them. */
    const dbs: seq<string>
    /** The text of each `<db>path` field. */
    var paths: map<string, string>
    /** The state of each `<db>ok` check mark. */
    var marks: map<string, Mark>
    /** Whether the `donesection` is displayed. */
    var doneShown: bool
    /** The preferences file: its text, or `None` when it cannot be read. */
    var prefsFile: Option<string>

    ghost predicate Valid()
      reads this
    {
      forall i :: 0 <= i < |dbs| ==> dbs[i] in paths && dbs[i] in marks
    }

    /** The page as loaded: empty fields, no marks, the done section hidden. */
    constructor (dbs: seq<string>, prefsFile: Option<string>)
      ensures Valid()
      ensures this.dbs == dbs && this.prefsFile == prefsFile && !doneShown
      ensures forall i :: 0 <= i < |dbs| ==> paths[dbs[i]] == "" && marks[dbs[i]] == Unmarked
    {
      this.dbs := dbs;
      this.prefsFile := prefsFile;
      paths := map db | db in dbs :: "";
      marks := map db | db in dbs :: Unmarked;
      doneShown := false;
    }

    /** `showPath`: the field shows the folder and the check mark says whether it looks like a database. */
    method ShowPath(db: string, folder: string, files: set<string>, exempt: bool)
      requires Valid() && db in dbs
      modifies this
      ensures Valid()
      ensures paths == old(paths)[db := folder]
      ensures marks == old(marks)[db := MarkFor(files, folder, exempt)]
      ensures doneShown == old(doneShown) && prefsFile == old(prefsFile)
    {
      paths := paths[db := folder];
      marks := marks[db := MarkFor(files, folder, exempt)];
    }

    /** `readyDoneButton`: the done section is shown once any path field is non-empty, and never hidden again. */
    method ReadyDoneButton()
      requires Valid()
      modifies this
      ensures Valid()
      ensures doneShown == (old(doneShown) || AnySet(dbs, paths))
      ensures paths == old(paths) && marks == old(marks) && prefsFile == old(prefsFile)
    {
      var anyset := false;
      var i := 0;
      while i < |dbs|
        invariant 0 <= i <= |dbs|
        invariant anyset <==> exists k :: 0 <= k < i && |paths[dbs[k]]| > 0
      {
        if |paths[dbs[i]]| > 0 {
          anyset := true;
        }
        i := i + 1;
      }
      if anyset {
        doneShown := true;
      }
    }

    /** The write of `setPath`: the preferences file rewritten for `db`, starting from `header` when it cannot be read. */
    method Store(db: string, folder: string, header: string)
      requires Valid()
      modifies this
      ensures Valid()
      ensures prefsFile == Prefs.WriteSettings(old(prefsFile), header, db, Some(folder))
      ensures paths == old(paths) && marks == old(marks) && doneShown == old(doneShown)
    {
      prefsFile := Prefs.WriteSettings(prefsFile, header, db, Some(folder));
    }

    /** `ar = re.exec(data); if (ar) showPath(db, ar[1])` for one database. */
    method ShowStored(data: string, db: string, files: set<string>, exempt: bool)
      requires Valid() && db in dbs
      modifies this
      ensures Valid()
      ensures paths == old(paths)[db := StoredPath(Some(data), db, old(paths)[db])]
      ensures marks == old(marks)[db := StoredMark(Some(data), db, files, exempt, old(marks)[db])]
      ensures doneShown == old(doneShown) && prefsFile == old(prefsFile)
    {
      var ar := Prefs.ReadDir(data, db);
      if ar.Some? {
        ShowPath(db, ar.value, files, exempt);
      }
    }

    /** The loop over the databases that shows each stored folder; a file that could not be read shows nothing. */
    method ShowAllStored(data: Option<string>, files: set<string>, exempt: set<string>)
      requires Valid()
      modifies this
      ensures Valid()
      ensures forall i :: 0 <= i < |dbs| ==>
        paths[dbs[i]] == StoredPath(data, dbs[i], old(paths)[dbs[i]])
        && marks[dbs[i]] == StoredMark(data, dbs[i], files, dbs[i] in exempt, old(marks)[dbs[i]])
      ensures doneShown == old(doneShown) && prefsFile == old(prefsFile)
    {
      if data.Some? {
        ghost var seen: set<string> := {};
        var i := 0;
        while i < |dbs|
          invariant 0 <= i <= |dbs| && Valid()
          invariant forall j :: 0 <= j < i ==> dbs[j] in seen
          invariant ShownSoFar(dbs, seen, data, files, exempt, old(paths), old(marks), paths, marks)
          invariant doneShown == old(doneShown) && prefsFile == old(prefsFile)
        {
          ShowStep(dbs, seen, data.value, files, exempt, old(paths), old(marks), paths, marks, i);
          ShowStored(data.value, dbs[i], files, dbs[i] in exempt);
          seen := seen + {dbs[i]};
          i := i + 1;
        }
      }
    }
  }
}
