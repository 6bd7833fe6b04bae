/**
 * The client's first-run page: five databases, two of them PDF collections
 * that need no author table. The main process reads and writes the
 * preferences file on the page's behalf.
 */
module ClientFirstrun {
  import opened Wrappers
  import opened Text
  import Prefs
  import opened DbPage

  const Dbs: seq<string> := ["PHI", "TLG", "DDP", "TLL_PDF", "OLD_PDF"]

  /** The databases whose folder is accepted without an author table. */
  const Exempt: set<string> := {"TLL_PDF", "OLD_PDF"}

  datatype PickerMode = OpenFile | OpenDirectory

  /** `bindClickEvent`: the Old PDF is a single file; every other database is a directory. */
  function Picker(db: string): (m: PickerMode)
    ensures m == OpenFile <==> db == "OLD_PDF"
  {
    if db == "OLD_PDF" then OpenFile else OpenDirectory
  }

  /** What `innerHTML = folderPath` shows: a cancelled dialog's `undefined` as its text. */
  function Shown(folder: Option<string>): (s: string)
    ensures folder.Some? ==> s == folder.value
    ensures folder.None? ==> s == "undefined"
  {
    match folder
    case Some(f) => f
    case None => "undefined"
  }

  /** A PDF collection is always ticked, whatever folder is shown for it. */
  lemma {:induction false} PdfAlwaysValid(files: set<string>, folder: string, db: string)
    requires db in Exempt
    ensures MarkFor(files, folder, db in Exempt) == Valid
  {
  }

  /** Any other database is ticked exactly when its folder holds an author table. */
  lemma {:induction false} DatabaseNeedsAuthtab(files: set<string>, folder: string, db: string)
    requires db !in Exempt
    ensures MarkFor(files, folder, db in Exempt) == Valid <==> AuthtabAt(files, folder)
  {
  }

  /**
   * `firstrunSetup`: every database's folder found in the file the main
   * process read is shown (none when it could not read it), then the done
   * button is readied.
   */
  method FirstrunSetup(page: SettingsPage, data: Option<string>, files: set<string>)
    requires page.Valid() && page.dbs == Dbs
    modifies page
    ensures page.Valid()
    ensures forall i :: 0 <= i < |Dbs| ==>
      page.paths[Dbs[i]] == StoredPath(data, Dbs[i], old(page.paths)[Dbs[i]])
    ensures forall i :: 0 <= i < |Dbs| ==>
      page.marks[Dbs[i]] == StoredMark(data, Dbs[i], files, Dbs[i] in Exempt, old(page.marks)[Dbs[i]])
    ensures page.doneShown == (old(page.doneShown) || AnySet(page.dbs, page.paths))
    ensures page.prefsFile == old(page.prefsFile)
  {
    page.ShowAllStored(data, files, Exempt);
    page.ReadyDoneButton();
  }

  /**
   * A click on a database's button: the main process opens the picker and
   * stores the choice; the page shows what it returned, even a cancelled
   * dialog, and does not ready the done button.
   */
  method Click(page: SettingsPage, db: string, chosen: Option<string>, files: set<string>)
    requires page.Valid() && db in page.dbs
    modifies page
    ensures page.Valid()
    ensures page.paths == old(page.paths)[db := Shown(chosen)]
    ensures page.marks == old(page.marks)[db := MarkFor(files, Shown(chosen), db in Exempt)]
    ensures page.doneShown == old(page.doneShown) && page.prefsFile == old(page.prefsFile)
  {
    page.ShowPath(db, Shown(chosen), files, db in Exempt);
  }
}
