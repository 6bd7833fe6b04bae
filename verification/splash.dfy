/**
 * The splash page of the newer server: the menu of search choices, the
 * sticky values of its fields kept in the browser's local storage, the
 * export panel and the routing of a submitted form either to a Perseus
 * lookup in the sidebar or to the server.
 */
module Splash {
  import opened Wrappers
  import opened Text
  import opened PerseusCgi

  /** The ids of the page's elements that the script reads and writes. */
  const CorpusMenu: string := "corpus_menu"
  const QueryText: string := "query_text"
  const AuthorText: string := "author_text"
  const ExportField: string := "export-path"
  const ActionField: string := "action"

  /** What the page asks of the world: the form goes to the server, or a Perseus request is sent. */
  datatype SplashEffect = SubmitForm | SendPerseus(action: string, lang: string, query: string, enc: Option<string>)

  /** A character of the Greek and Coptic block or of the Greek Extended block. */
  predicate IsGreek(c: char) {
    ('\U{0370}' <= c <= '\U{03FF}') || ('\U{1F00}' <= c <= '\U{1FFF}')
  }

  /** The test of `splashPerseus`'s character class: some character of the query is Greek. */
  function HasGreek(s: string): (b: bool)
    ensures b <==> exists i :: 0 <= i < |s| && IsGreek(s[i])
  {
    if |s| == 0 then false
    else if IsGreek(s[0]) then true
    else
      var rest := HasGreek(s[1..]);
      assert forall i :: 1 <= i < |s| ==> s[i] == s[1..][i - 1];
      rest
  }

  /** The two actions looked up in Perseus rather than submitted. */
  predicate IsPerseusAction(action: string) {
    action == "parse" || action == "lookup"
  }

  /** `splashPerseus`'s request: Greek input is sent as UTF-8 Greek, anything else as Latin with no encoding. */
  function PerseusRequestFor(action: string, query: string): (e: SplashEffect)
    ensures e.SendPerseus? && e.action == action && e.query == query
    ensures e.lang == "grk" <==> exists i :: 0 <= i < |query| && IsGreek(query[i])
    ensures e.lang == "grk" || e.lang == "lat"
    ensures e.enc == (if e.lang == "grk" then Some("utf8") else None)
  {
    if HasGreek(query) then SendPerseus(action, "grk", query, Some("utf8"))
    else SendPerseus(action, "lat", query, None)
  }

  /** The sidebar request of a Greek query carries `inp_enc=utf8`; that of any other query carries no encoding. */
  lemma {:induction false} GreekQueryAsksUtf8(action: string, query: string)
    ensures var e := PerseusRequestFor(action, query);
      var base := "Perseus.cgi?" + PageScript.RequestQuery(action, e.lang, query);
      var uri := RequestUri(action, e.lang, query, e.enc);
      && (HasGreek(query) ==> |base| <= |uri| && uri[|base|..] == "&inp_enc=utf8")
      && (!HasGreek(query) ==> uri == base)
  {
  }

  /** `localStorage.getItem`: a missing key reads as null. */
  function Restored(storage: map<string, string>, key: string): (v: Option<string>)
    ensures v.Some? <==> key in storage
    ensures v.Some? ==> v.value == storage[key]
  {
    if key in storage then Some(storage[key]) else None
  }

  /** `localStorage.setItem` stores null as the text "null". */
  function StoredText(v: Option<string>): (s: string)
    ensures v.Some? ==> s == v.value
    ensures v.None? ==> s == "null"
  {
    match v
    case Some(t) => t
    case None => "null"
  }

  /** A global takes the value of its field when the field is on the page. */
  function Remembered(fields: map<string, string>, id: string, current: Option<string>): (v: Option<string>)
    ensures id in fields ==> v == Some(fields[id])
    ensures id !in fields ==> v == current
  {
    if id in fields then Some(fields[id]) else current
  }

  /** `save_values` on the storage: each field on the page is stored under its key. */
  function SaveAll(storage: map<string, string>, fields: map<string, string>): (s: map<string, string>)
    ensures storage.Keys <= s.Keys
    ensures CorpusMenu in fields ==> "corpus" in s && s["corpus"] == fields[CorpusMenu]
    ensures QueryText in fields ==> "query" in s && s["query"] == fields[QueryText]
    ensures AuthorText in fields ==> "author" in s && s["author"] == fields[AuthorText]
  {
    var s1 := if CorpusMenu in fields then storage["corpus" := fields[CorpusMenu]] else storage;
    var s2 := if QueryText in fields then s1["query" := fields[QueryText]] else s1;
    if AuthorText in fields then s2["author" := fields[AuthorText]] else s2
  }

  /** Saving adds at most the three keys, keeps every other key, and each key then reads back as the remembered global. */
  lemma {:induction false} SaveAllFacts(storage: map<string, string>, fields: map<string, string>)
    ensures var s := SaveAll(storage, fields);
      && (forall k :: k in s ==> k in storage || k in {"corpus", "query", "author"})
      && (forall k :: k in storage && k !in {"corpus", "query", "author"} ==> k in s && s[k] == storage[k])
      && Restored(s, "corpus") == Remembered(fields, CorpusMenu, Restored(storage, "corpus"))
      && Restored(s, "query") == Remembered(fields, QueryText, Restored(storage, "query"))
      && Restored(s, "author") == Remembered(fields, AuthorText, Restored(storage, "author"))
  {
  }

  /** The export panel offers its button only for a folder that is set: not undefined, empty or the text "null". */
  predicate ExportReady(exportPath: Option<string>) {
    Truthy(exportPath) && exportPath.value != "null"
  }

  /**
   * What the info box can show: a panel of the choices filled in by
   * `splash_setup`, or the export panel, which shows the folder and the
   * Export button when a folder is set and otherwise the warning that one
   * must be chosen.
   */
  datatype Panel = Html(text: string) | ExportPanel(folder: Option<string>)

  /** The export panel for the global `exportPath`. */
  function ExportInfo(exportPath: Option<string>): (p: Panel)
    ensures p.ExportPanel?
    ensures p.folder.Some? <==> ExportReady(exportPath)
    ensures p.folder.Some? ==> p.folder == exportPath
  {
    if ExportReady(exportPath) then ExportPanel(exportPath) else ExportPanel(None)
  }

  /** `infoText[choice]`: a choice with no panel shows as "undefined". */
  function PanelOf(infoText: map<string, Panel>, choice: string): (p: Panel)
    ensures choice in infoText ==> p == infoText[choice]
    ensures choice !in infoText ==> p == Html("undefined")
  {
    if choice in infoText then infoText[choice] else Html("undefined")
  }

  /**
   * The fields after `info` redraws the box: the fields of the old panel go,
   * those of the new one come with their initial values, the remembered
   * values that are truthy are put back, and the action field holds the choice.
   */
  function RefilledFields(fields: map<string, string>, panelFields: map<string, string>,
                          corpus: Option<string>, query: Option<string>, author: Option<string>,
                          choice: string): (r: map<string, string>)
    ensures ActionField in r && r[ActionField] == choice
    ensures forall id :: id in r ==> id in fields || id in panelFields || id == ActionField
  {
    var kept := (map id | id in fields && id !in {CorpusMenu, QueryText, AuthorText} :: fields[id]) + panelFields;
    var r1 := if Truthy(corpus) && CorpusMenu in kept then kept[CorpusMenu := corpus.value] else kept;
    var r2 := if Truthy(query) && QueryText in r1 then r1[QueryText := query.value] else r1;
    var r3 := if Truthy(author) && AuthorText in r2 then r2[AuthorText := author.value] else r2;
    r3[ActionField := choice]
  }

  /**
   * After the redraw the action field holds the choice; the three remembered
   * fields are there exactly when the new panel has them, holding the
   * remembered value when it is truthy and the panel's initial value
   * otherwise; every other field of the old page that the panel does not
   * redefine keeps its value.
   */
  lemma {:induction false} RefilledFieldsFacts(fields: map<string, string>, panelFields: map<string, string>,
                                               corpus: Option<string>, query: Option<string>, author: Option<string>,
                                               choice: string)
    ensures var r := RefilledFields(fields, panelFields, corpus, query, author, choice);
      && ActionField in r && r[ActionField] == choice
      && (forall id :: id in {CorpusMenu, QueryText, AuthorText} ==> (id in r <==> id in panelFields))
      && (CorpusMenu in panelFields ==> r[CorpusMenu] == (if Truthy(corpus) then corpus.value else panelFields[CorpusMenu]))
      && (QueryText in panelFields ==> r[QueryText] == (if Truthy(query) then query.value else panelFields[QueryText]))
      && (AuthorText in panelFields ==> r[AuthorText] == (if Truthy(author) then author.value else panelFields[AuthorText]))
      && (forall id :: id in fields && id !in panelFields && id !in {CorpusMenu, QueryText, AuthorText, ActionField} ==>
            id in r && r[id] == fields[id])
  {
  }

  /** The display after `droptoggle`: a hidden menu is shown, any other is hidden. */
  function ToggledDisplay(display: string): (d: string)
    ensures d == "block" <==> display == "none"
    ensures d == "none" <==> display != "none"
  {
    if display == "none" then "block" else "none"
  }

  /** The splash page's state: the script's globals, the page's fields and menus, and local storage. */
  class SplashPage {
    /** Whether local storage could be written when the script loaded. */
    const lsAvailable: bool
    var storage: map<string, string>
    var corpus: Option<string>
    var query: Option<string>
    var author: Option<string>
    var exportPath: Option<string>
    /** The values of the form fields on the page, by id; a field not on the page is absent. */
    var fields: map<string, string>
    /** The inline `display` style of the menus, by id. */
    var displays: map<string, string>
    /** The panels of the choices. */
    var infoText: map<string, Panel>
    /** What the `info` box shows. */
    var infoShown: Panel
    var waiting: bool
    var log: seq<SplashEffect>

    constructor (lsAvailable: bool, storage: map<string, string>, fields: map<string, string>, displays: map<string, string>)
      ensures this.lsAvailable == lsAvailable && this.storage == storage
      ensures this.fields == fields && this.displays == displays
      ensures corpus.None? && query.None? && author.None? && exportPath.None?
      ensures infoText == map[] && infoShown == Html("") && waiting && log == []
    {
      this.lsAvailable := lsAvailable;
      this.storage := storage;
      this.fields := fields;
      this.displays := displays;
      corpus, query, author, exportPath := None, None, None, None;
      infoText := map[];
      infoShown := Html("");
      waiting := true;
      log := [];
    }

    /** `save_values`: with local storage, each field on the page becomes the global and the stored value. */
    method SaveValues()
      modifies this
      ensures lsAvailable ==>
        && corpus == Remembered(old(fields), CorpusMenu, old(corpus))
        && query == Remembered(old(fields), QueryText, old(query))
        && author == Remembered(old(fields), AuthorText, old(author))
        && storage == SaveAll(old(storage), old(fields))
      ensures !lsAvailable ==> corpus == old(corpus) && query == old(query) && author == old(author) && storage == old(storage)
      ensures fields == old(fields) && displays == old(displays) && infoText == old(infoText) && infoShown == old(infoShown)
      ensures exportPath == old(exportPath) && waiting == old(waiting) && log == old(log)
    {
      if lsAvailable {
        corpus := Remembered(fields, CorpusMenu, corpus);
        query := Remembered(fields, QueryText, query);
        author := Remembered(fields, AuthorText, author);
        storage := SaveAll(storage, fields);
      }
    }

    /**
     * `splash_setup`, run by the page's `load` listener once the cursor
     * stops: the globals are read back from local storage, a set export
     * folder is shown in its field, and the panels of the choices are
     * filled in. Without the export field on the page the script stops
     * before the panels.
     */
    method Load(panels: map<string, Panel>)
      modifies this
      ensures !waiting
      ensures lsAvailable ==>
        && corpus == Restored(old(storage), "corpus") && query == Restored(old(storage), "query")
        && author == Restored(old(storage), "author") && exportPath == Restored(old(storage), "exportPath")
      ensures !lsAvailable ==>
        corpus == old(corpus) && query == old(query) && author == old(author) && exportPath == old(exportPath)
      ensures Truthy(exportPath) && ExportField !in old(fields) ==> fields == old(fields) && infoText == old(infoText)
      ensures Truthy(exportPath) && ExportField in old(fields) ==>
        fields == old(fields)[ExportField := exportPath.value] && infoText == old(infoText) + panels
      ensures !Truthy(exportPath) ==> fields == old(fields) && infoText == old(infoText) + panels
      ensures storage == old(storage) && displays == old(displays) && infoShown == old(infoShown) && log == old(log)
    {
      waiting := false;
      RestoreGlobals();
      FillPanels(panels);
    }

    /** The first part of `splash_setup`: with local storage, the globals are read back from it. */
    method RestoreGlobals()
      modifies this
      ensures lsAvailable ==>
        && corpus == Restored(old(storage), "corpus") && query == Restored(old(storage), "query")
        && author == Restored(old(storage), "author") && exportPath == Restored(old(storage), "exportPath")
      ensures !lsAvailable ==>
        corpus == old(corpus) && query == old(query) && author == old(author) && exportPath == old(exportPath)
      ensures fields == old(fields) && infoText == old(infoText) && waiting == old(waiting)
      ensures storage == old(storage) && displays == old(displays) && infoShown == old(infoShown) && log == old(log)
    {
      if lsAvailable {
        corpus := Restored(storage, "corpus");
        query := Restored(storage, "query");
        author := Restored(storage, "author");
        exportPath := Restored(storage, "exportPath");
      }
    }

    /** The rest of `splash_setup`: a set export folder is shown in its field, then the panels are filled in unless that field is missing. */
    method FillPanels(panels: map<string, Panel>)
      modifies this
      ensures Truthy(exportPath) && ExportField !in old(fields) ==> fields == old(fields) && infoText == old(infoText)
      ensures Truthy(exportPath) && ExportField in old(fields) ==>
        fields == old(fields)[ExportField := exportPath.value] && infoText == old(infoText) + panels
      ensures !Truthy(exportPath) ==> fields == old(fields) && infoText == old(infoText) + panels
      ensures corpus == old(corpus) && query == old(query) && author == old(author) && exportPath == old(exportPath)
      ensures storage == old(storage) && displays == old(displays) && infoShown == old(infoShown) && log == old(log)
      ensures waiting == old(waiting)
    {
      var stops := Truthy(exportPath) && ExportField !in fields;
      if Truthy(exportPath) && !stops {
        fields := fields[ExportField := exportPath.value];
      }
      if !stops {
        infoText := infoText + panels;
      }
    }

    /** `dropup`: the menu is hidden. */
    method DropUp(menu: string)
      requires menu in displays
      modifies this
      ensures displays == old(displays)[menu := "none"]
      ensures fields == old(fields) && infoText == old(infoText) && infoShown == old(infoShown)
      ensures storage == old(storage) && corpus == old(corpus) && query == old(query) && author == old(author)
      ensures exportPath == old(exportPath) && waiting == old(waiting) && log == old(log)
    {
      displays := displays[menu := "none"];
    }

    /** `dropdown`: the menu is shown. */
    method DropDown(menu: string)
      requires menu in displays
      modifies this
      ensures displays == old(displays)[menu := "block"]
      ensures fields == old(fields) && infoText == old(infoText) && infoShown == old(infoShown)
      ensures storage == old(storage) && corpus == old(corpus) && query == old(query) && author == old(author)
      ensures exportPath == old(exportPath) && waiting == old(waiting) && log == old(log)
    {
      displays := displays[menu := "block"];
    }

    /** `droptoggle`: a hidden menu is shown and any other hidden; the other menus keep their display. */
    method DropToggle(menu: string)
      requires menu in displays
      modifies this
      ensures displays == old(displays)[menu := ToggledDisplay(old(displays)[menu])]
      ensures fields == old(fields) && infoText == old(infoText) && infoShown == old(infoShown)
      ensures storage == old(storage) && corpus == old(corpus) && query == old(query) && author == old(author)
      ensures exportPath == old(exportPath) && waiting == old(waiting) && log == old(log)
    {
      if displays[menu] == "none" {
        DropDown(menu);
      } else {
        DropUp(menu);
      }
    }

    /**
     * `info(choice)`: both submenus are hidden, the values of the fields are
     * remembered, the panel of the choice replaces the info box
     * (`panelFields` are the fields it holds, with their initial values),
     * remembered values are put back into the new fields, and the action
     * field is set to the choice.
     */
    method Info(choice: string, panelFields: map<string, string>)
      requires "submenu1" in displays && "submenu2" in displays
      modifies this
      ensures displays == old(displays)["submenu1" := "none"]["submenu2" := "none"]
      ensures corpus == Remembered(old(fields), CorpusMenu, old(corpus))
      ensures query == Remembered(old(fields), QueryText, old(query))
      ensures author == Remembered(old(fields), AuthorText, old(author))
      ensures infoText == if choice == "export" then old(infoText)["export" := ExportInfo(exportPath)] else old(infoText)
      ensures infoShown == PanelOf(infoText, choice)
      ensures fields == RefilledFields(old(fields), panelFields, corpus, query, author, choice)
      ensures storage == old(storage) && exportPath == old(exportPath) && waiting == old(waiting) && log == old(log)
    {
      DropUp("submenu1");
      DropUp("submenu2");
      RememberFields();
      ShowPanel(choice, panelFields);
    }

    /** The globals take the values of the fields that are on the page. */
    method RememberFields()
      modifies this
      ensures corpus == Remembered(old(fields), CorpusMenu, old(corpus))
      ensures query == Remembered(old(fields), QueryText, old(query))
      ensures author == Remembered(old(fields), AuthorText, old(author))
      ensures fields == old(fields) && displays == old(displays) && infoText == old(infoText) && infoShown == old(infoShown)
      ensures storage == old(storage) && exportPath == old(exportPath) && waiting == old(waiting) && log == old(log)
    {
      corpus := Remembered(fields, CorpusMenu, corpus);
      query := Remembered(fields, QueryText, query);
      author := Remembered(fields, AuthorText, author);
    }

    /** The panel of the choice replaces the info box, the export panel redrawn first, and the new fields are refilled. */
    method ShowPanel(choice: string, panelFields: map<string, string>)
      modifies this
      ensures infoText == if choice == "export" then old(infoText)["export" := ExportInfo(exportPath)] else old(infoText)
      ensures infoShown == PanelOf(infoText, choice)
      ensures fields == RefilledFields(old(fields), panelFields, corpus, query, author, choice)
      ensures corpus == old(corpus) && query == old(query) && author == old(author) && displays == old(displays)
      ensures storage == old(storage) && exportPath == old(exportPath) && waiting == old(waiting) && log == old(log)
    {
      if choice == "export" {
        infoText := infoText["export" := ExportInfo(exportPath)];
      }
      infoShown := PanelOf(infoText, choice);
      fields := RefilledFields(fields, panelFields, corpus, query, author, choice);
    }

    /**
     * `XMLPathSelect` with the folder the user picked (null when the dialog
     * is cancelled): the folder is stored, shown in its field, and the
     * export panel redrawn. Writing to missing local storage stops it.
     */
    method XmlPathSelect(picked: Option<string>, panelFields: map<string, string>)
      requires "submenu1" in displays && "submenu2" in displays
      modifies this
      ensures exportPath == picked
      ensures !lsAvailable ==> storage == old(storage) && fields == old(fields) && infoShown == old(infoShown)
      ensures lsAvailable ==> storage == old(storage)["exportPath" := StoredText(picked)]
      ensures lsAvailable && ExportField !in old(fields) ==> fields == old(fields) && infoShown == old(infoShown)
      ensures lsAvailable && ExportField in old(fields) ==>
        && ActionField in fields && fields[ActionField] == "export"
        && infoShown == ExportInfo(picked)
      ensures lsAvailable && ExportField in old(fields) ==>
        var shown := old(fields)[ExportField := picked.GetOr("")];
        && displays == old(displays)["submenu1" := "none"]["submenu2" := "none"]
        && corpus == Remembered(shown, CorpusMenu, old(corpus))
        && query == Remembered(shown, QueryText, old(query))
        && author == Remembered(shown, AuthorText, old(author))
        && infoText == old(infoText)["export" := ExportInfo(picked)]
        && infoShown == PanelOf(infoText, "export")
        && fields == RefilledFields(shown, panelFields, corpus, query, author, "export")
      ensures !lsAvailable || ExportField !in old(fields) ==>
        && displays == old(displays) && infoText == old(infoText)
        && corpus == old(corpus) && query == old(query) && author == old(author)
      ensures waiting == old(waiting) && log == old(log)
    {
      exportPath := picked;
      if !lsAvailable {
        return;
      }
      storage := storage["exportPath" := StoredText(picked)];
      if ExportField !in fields {
        return;
      }
      fields := fields[ExportField := picked.GetOr("")];
      Info("export", panelFields);
    }

    /** `splashPerseus`: the query on the page is remembered and sent to Perseus, in Greek or in Latin. */
    method SplashPerseus(action: string)
      modifies this
      ensures QueryText in old(fields) ==>
        query == Some(old(fields)[QueryText]) && log == old(log) + [PerseusRequestFor(action, old(fields)[QueryText])]
      ensures QueryText !in old(fields) ==> query == old(query) && log == old(log)
      ensures storage == old(storage) && fields == old(fields) && corpus == old(corpus) && author == old(author)
      ensures displays == old(displays) && infoShown == old(infoShown) && waiting == old(waiting)
      ensures exportPath == old(exportPath) && infoText == old(infoText)
    {
      if QueryText in fields {
        query := Some(fields[QueryText]);
        log := log + [PerseusRequestFor(action, fields[QueryText])];
      }
    }

    /**
     * `processForm`: the values are saved and the cursor spins; a parse or
     * a dictionary lookup goes to Perseus instead of the server, any other
     * action submits the form.
     */
    method ProcessForm()
      requires ActionField in fields
      modifies this
      ensures waiting
      ensures lsAvailable ==> storage == SaveAll(old(storage), old(fields))
      ensures !lsAvailable ==> storage == old(storage)
      ensures fields == old(fields)
      ensures !IsPerseusAction(old(fields)[ActionField]) ==> log == old(log) + [SubmitForm]
      ensures IsPerseusAction(old(fields)[ActionField]) && QueryText in old(fields) ==>
        log == old(log) + [PerseusRequestFor(old(fields)[ActionField], old(fields)[QueryText])]
      ensures IsPerseusAction(old(fields)[ActionField]) && QueryText !in old(fields) ==> log == old(log)
      ensures corpus == (if lsAvailable then Remembered(old(fields), CorpusMenu, old(corpus)) else old(corpus))
      ensures author == (if lsAvailable then Remembered(old(fields), AuthorText, old(author)) else old(author))
      ensures query == (if IsPerseusAction(old(fields)[ActionField]) && QueryText in old(fields) then Some(old(fields)[QueryText])
                        else if lsAvailable then Remembered(old(fields), QueryText, old(query)) else old(query))
      ensures exportPath == old(exportPath) && displays == old(displays)
      ensures infoText == old(infoText) && infoShown == old(infoShown)
    {
      SaveValues();
      waiting := true;
      var action := fields[ActionField];
      if IsPerseusAction(action) {
        SplashPerseus(action);
      } else {
        log := log + [SubmitForm];
      }
    }
  }

  /** A cancelled folder choice is stored as "null", which the next session reads back and still treats as unset. */
  lemma {:induction false} CancelledChoiceStaysUnset(storage: map<string, string>)
    ensures var stored := storage["exportPath" := StoredText(None)];
      Restored(stored, "exportPath") == Some("null") && ExportInfo(Restored(stored, "exportPath")) == ExportPanel(None)
  {
  }
}
