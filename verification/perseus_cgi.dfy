/**
 * The script of the Perseus pages served by the newer server: morphological
 * requests go to a pop-up, a new page or the sidebar; the sidebar's layout
 * moves between split screen, full screen and dismissed; a clicked word is
 * highlighted; and the form filter narrows the inflected forms shown.
 */
module PerseusCgi {
  import opened Wrappers
  import opened Text
  import opened PageScript

  /** The fields of the form that remember the last Perseus request. */
  datatype JumpFrom = JumpFrom(query: string, action: string, lang: string)

  /** The classes of the sidebar and the main window, and what the sidebar shows. */
  datatype Layout = Layout(sidebarClass: string, mainClass: string, sidebarHtml: string, controls: seq<Control>)

  /** `new_page`'s address: the request parameters and `popup=1`. */
  function NewPageUrl(action: string, lang: string, query: string): (u: string)
    ensures StartsWith(u, "Perseus.cgi?")
    ensures u[|"Perseus.cgi?"|..] == RequestQuery(action, lang, query) + "&popup=1"
  {
    "Perseus.cgi?" + RequestQuery(action, lang, query) + "&popup=1"
  }

  /** `enc` is used only when truthy: defined and not empty. */
  predicate Truthy(enc: Option<string>) {
    enc.Some? && |enc.value| > 0
  }

  /** The address of the sidebar request: `inp_enc` is added only for a truthy encoding. */
  function RequestUri(action: string, lang: string, query: string, enc: Option<string>): (u: string)
    ensures StartsWith(u, "Perseus.cgi?" + RequestQuery(action, lang, query))
    ensures !Truthy(enc) ==> u == "Perseus.cgi?" + RequestQuery(action, lang, query)
    ensures Truthy(enc) ==> u[|"Perseus.cgi?" + RequestQuery(action, lang, query)|..] == "&inp_enc=" + enc.value
  {
    var base := "Perseus.cgi?" + RequestQuery(action, lang, query);
    if Truthy(enc) then
      assert (base + "&inp_enc=" + enc.value)[..|base|] == base;
      base + "&inp_enc=" + enc.value
    else base
  }

  /** A pop-up and a new page are asked for at the same address. */
  lemma {:induction false} PopupIsNewPage(action: string, lang: string, query: string)
    ensures NewPageUrl(action, lang, query) == RequestUri(action, lang, query, None) + "&popup=1"
  {
  }

  /** With no `&` in the values, the query still reads back whole from a request that carries an encoding. */
  lemma {:induction false} EncodingReadsBack(action: string, lang: string, query: string, enc: string)
    requires NoAmp(action) && NoAmp(lang) && NoAmp(query) && |enc| > 0
    ensures var u := RequestUri(action, lang, query, Some(enc));
      Param(u[|"Perseus.cgi?"|..], "q") == Some(query)
  {
    var u := RequestUri(action, lang, query, Some(enc));
    assert u[|"Perseus.cgi?"|..] == RequestQuery(action, lang, query + "&inp_enc=" + enc);
    AmpersandCutsQuery(action, lang, query, "inp_enc=" + enc);
    assert query + "&" + ("inp_enc=" + enc) == query + "&inp_enc=" + enc;
  }

  /** The controls after `sidebarControl`: only Dismiss on the splash page; else a layout switch, then Dismiss added to what was there. */
  function ControlsFor(splash: bool, sidebarClass: string, current: seq<Control>): (c: seq<Control>)
    ensures |c| > 0 && c[|c| - 1] == Dismiss
    ensures splash ==> c == [Dismiss]
    ensures !splash && sidebarClass == "sidebar-split" ==> c == [Fullscreen, Dismiss]
    ensures !splash && sidebarClass == "sidebar-full" ==> c == [Splitscreen, Dismiss]
    ensures !splash && sidebarClass != "sidebar-split" && sidebarClass != "sidebar-full" ==> c == current + [Dismiss]
  {
    if splash then [Dismiss]
    else if sidebarClass == "sidebar-split" then [Fullscreen, Dismiss]
    else if sidebarClass == "sidebar-full" then [Splitscreen, Dismiss]
    else current + [Dismiss]
  }

  /** What `window.open` failing shows. */
  const PopupBlocked: string :=
    "You have requested that Perseus data be displayed in a pop-up window, but you appear to have disallowed pop-ups from this web site. "

  /** A sidebar class other than pop-up and new page sends the request from the page. */
  predicate IsSidebarRequest(sidebarClass: string) {
    sidebarClass != "sidebar-popup" && sidebarClass != "sidebar-newpage"
  }

  /** What `sendRequest` does outside the page; a sidebar request aborts a running one first. */
  function SendEffects(sidebarClass: string, req: Option<Request>, action: string, lang: string, query: string,
                       enc: Option<string>, popupError: Option<string>): (e: seq<PageEffect>)
    ensures sidebarClass == "sidebar-popup" ==>
      e == [if popupError.Some? then PageAlert(PopupBlocked + popupError.value) else OpenPopup(NewPageUrl(action, lang, query))]
    ensures sidebarClass == "sidebar-newpage" ==> e == [GoTo(NewPageUrl(action, lang, query))]
    ensures IsSidebarRequest(sidebarClass) ==>
      && |e| > 0 && e[|e| - 1] == Get(RequestUri(action, lang, query, enc))
      && (Abort in e <==> ShouldAbort(req))
  {
    if sidebarClass == "sidebar-popup" then
      [if popupError.Some? then PageAlert(PopupBlocked + popupError.value) else OpenPopup(NewPageUrl(action, lang, query))]
    else if sidebarClass == "sidebar-newpage" then [GoTo(NewPageUrl(action, lang, query))]
    else (if ShouldAbort(req) then [Abort] else []) + [Get(RequestUri(action, lang, query, enc))]
  }

  /** The page's state. */
  class PerseusPage {
    /** Whether the page holds the splash element. */
    const splash: bool
    /** Whether the body carries the `waiting` class (the spinning cursor). */
    var waiting: bool
    var jumpFrom: JumpFrom
    var layout: Layout
    /** The global `req`. */
    var req: Option<Request>
    /** The global `current_parse`, by element. */
    var currentParse: Option<nat>
    /** The elements carrying `highlighted-word`. */
    var highlighted: set<nat>
    var spans: seq<Span>
    var log: seq<PageEffect>

    /** At most one element is highlighted: the current parse, if any. */
    ghost predicate Valid()
      reads this
    {
      && (currentParse.None? ==> highlighted == {})
      && (currentParse.Some? ==> highlighted <= {currentParse.value})
    }

    constructor (splash: bool, layout: Layout, jumpFrom: JumpFrom, spans: seq<Span>)
      ensures Valid()
      ensures this.splash == splash && this.layout == layout && this.jumpFrom == jumpFrom && this.spans == spans
      ensures !waiting && req.None? && currentParse.None? && log == []
    {
      this.splash := splash;
      this.layout := layout;
      this.jumpFrom := jumpFrom;
      this.spans := spans;
      waiting := false;
      req := None;
      currentParse := None;
      highlighted := {};
      log := [];
    }

    lemma {:induction false} AtMostOneHighlighted()
      requires Valid()
      ensures |highlighted| <= 1
    {
      if currentParse.Some? {
        assert highlighted <= {currentParse.value};
        SubsetSize(highlighted, {currentParse.value});
      }
    }

    /**
     * `sendRequest`: the cursor spins and the request is remembered in the
     * form; then a pop-up, a new page or a sidebar request according to the
     * sidebar's class. The result is always true.
     */
    method SendRequest(action: string, lang: string, query: string, enc: Option<string>, popupError: Option<string>)
      returns (r: bool)
      requires Valid()
      modifies this
      ensures Valid() && r
      ensures waiting && jumpFrom == JumpFrom(query, action, lang)
      ensures log == old(log) + SendEffects(old(layout).sidebarClass, old(req), action, lang, query, enc, popupError)
      ensures IsSidebarRequest(old(layout).sidebarClass) ==> req == Some(Request(1, 0))
      ensures !IsSidebarRequest(old(layout).sidebarClass) ==> req == old(req)
      ensures layout == old(layout) && spans == old(spans)
      ensures currentParse == old(currentParse) && highlighted == old(highlighted)
    {
      waiting := true;
      jumpFrom := JumpFrom(query, action, lang);
      var cls := layout.sidebarClass;
      log := log + SendEffects(cls, req, action, lang, query, enc, popupError);
      if cls != "sidebar-popup" && cls != "sidebar-newpage" {
        req := Some(Request(1, 0));
        return true;
      }
      return true;
    }

    /** `sidebarControl`. */
    method SidebarControl()
      modifies this
      ensures layout == old(layout).(controls := ControlsFor(splash, old(layout).sidebarClass, old(layout).controls))
      ensures waiting == old(waiting) && jumpFrom == old(jumpFrom) && req == old(req) && spans == old(spans)
      ensures currentParse == old(currentParse) && highlighted == old(highlighted) && log == old(log)
    {
      var controls := layout.controls;
      if splash {
        controls := [Dismiss];
      } else {
        if layout.sidebarClass == "sidebar-split" {
          controls := [Fullscreen];
        } else if layout.sidebarClass == "sidebar-full" {
          controls := [Splitscreen];
        }
        controls := controls + [Dismiss];
      }
      layout := layout.(controls := controls);
    }

    /** `sidebarFullscreen`: the sidebar covers the page and offers the split screen. */
    method SidebarFullscreen()
      modifies this
      ensures layout.sidebarClass == "sidebar-full" && layout.mainClass == "main-hidden"
      ensures layout.sidebarHtml == old(layout).sidebarHtml
      ensures layout.controls == (if splash then [Dismiss] else [Splitscreen, Dismiss])
      ensures waiting == old(waiting) && jumpFrom == old(jumpFrom) && req == old(req) && spans == old(spans)
      ensures currentParse == old(currentParse) && highlighted == old(highlighted) && log == old(log)
    {
      layout := layout.(sidebarClass := "sidebar-full", mainClass := "main-hidden");
      SidebarControl();
    }

    /** `sidebarSplitscreen`: sidebar and page side by side, and the full screen offered. */
    method SidebarSplitscreen()
      modifies this
      ensures layout.sidebarClass == "sidebar-split" && layout.mainClass == "main-full"
      ensures layout.sidebarHtml == old(layout).sidebarHtml
      ensures layout.controls == (if splash then [Dismiss] else [Fullscreen, Dismiss])
      ensures waiting == old(waiting) && jumpFrom == old(jumpFrom) && req == old(req) && spans == old(spans)
      ensures currentParse == old(currentParse) && highlighted == old(highlighted) && log == old(log)
    {
      layout := layout.(sidebarClass := "sidebar-split", mainClass := "main-full");
      SidebarControl();
    }

    /** `sidebarDismiss`: the sidebar and its controls are emptied, the page shown in full, and no word stays highlighted. */
    method SidebarDismiss()
      requires Valid()
      modifies this
      ensures Valid()
      ensures layout == old(layout).(sidebarHtml := "", controls := [], mainClass := "main-full")
      ensures highlighted == {} && currentParse == old(currentParse)
      ensures waiting == old(waiting) && jumpFrom == old(jumpFrom) && req == old(req) && spans == old(spans)
      ensures log == old(log)
    {
      layout := layout.(sidebarHtml := "", controls := [], mainClass := "main-full");
      if currentParse.Some? {
        highlighted := highlighted - {currentParse.value};
      }
    }

    /** `showPerseus`: the response fills the sidebar; the page hides under a full sidebar; the cursor stops. */
    method ShowPerseus(response: string)
      modifies this
      ensures !waiting
      ensures layout.sidebarHtml == response
      ensures splash ==> layout.sidebarClass == "sidebar-full" && layout.mainClass == "main-hidden" && layout.controls == [Dismiss]
      ensures !splash ==>
        && layout.sidebarClass == old(layout).sidebarClass
        && layout.mainClass == (if old(layout).sidebarClass == "sidebar-full" then "main-hidden" else old(layout).mainClass)
        && layout.controls == ControlsFor(false, old(layout).sidebarClass, old(layout).controls)
      ensures jumpFrom == old(jumpFrom) && req == old(req) && spans == old(spans)
      ensures currentParse == old(currentParse) && highlighted == old(highlighted) && log == old(log)
    {
      layout := layout.(sidebarHtml := response);
      if layout.sidebarClass == "sidebar-full" {
        layout := layout.(mainClass := "main-hidden");
      }
      if splash {
        SidebarFullscreen();
      } else {
        SidebarControl();
      }
      waiting := false;
    }

    /** `stateHandler` as the request moves to `next`: a response is shown, a failure reported, anything else ignored. */
    method StateHandler(next: Request, response: string)
      requires req.Some?
      modifies this
      ensures req == Some(next)
      ensures Classify(next) == ShowResponse ==> layout.sidebarHtml == response && !waiting && log == old(log)
      ensures Classify(next) == ShowResponse && splash ==>
        layout.sidebarClass == "sidebar-full" && layout.mainClass == "main-hidden" && layout.controls == [Dismiss]
      ensures Classify(next) == ShowResponse && !splash ==>
        && layout.sidebarClass == old(layout).sidebarClass
        && layout.mainClass == (if old(layout).sidebarClass == "sidebar-full" then "main-hidden" else old(layout).mainClass)
        && layout.controls == ControlsFor(false, old(layout).sidebarClass, old(layout).controls)
      ensures Classify(next) == FailedConnect ==>
        log == old(log) + [PageAlert("Could not get Perseus data!")] && layout == old(layout) && waiting == old(waiting)
      ensures Classify(next) == Ignored ==> log == old(log) && layout == old(layout) && waiting == old(waiting)
      ensures jumpFrom == old(jumpFrom) && spans == old(spans)
      ensures currentParse == old(currentParse) && highlighted == old(highlighted)
    {
      req := Some(next);
      match Classify(next) {
        case ShowResponse => ShowPerseus(response);
        case FailedConnect => log := log + [PageAlert("Could not get Perseus data!")];
        case Ignored =>
      }
    }

    /** `highlight`: the highlight moves from the current parse to the new element. */
    method Highlight(element: nat)
      requires Valid()
      modifies this
      ensures Valid()
      ensures currentParse == Some(element) && highlighted == {element}
      ensures layout == old(layout) && waiting == old(waiting) && jumpFrom == old(jumpFrom)
      ensures req == old(req) && spans == old(spans) && log == old(log)
    {
      if currentParse.Some? {
        highlighted := highlighted - {currentParse.value};
      }
      currentParse := Some(element);
      highlighted := highlighted + {element};
    }

    /** `formFilter` on the text of the filter field. */
    method FormFilter(text: string)
      modifies this
      ensures |spans| == |old(spans)|
      ensures forall i :: 0 <= i < |spans| ==>
        spans[i] == old(spans)[i].(className := FilteredClass(old(spans)[i].className, old(spans)[i].infl, text))
      ensures layout == old(layout) && waiting == old(waiting) && jumpFrom == old(jumpFrom)
      ensures req == old(req) && log == old(log)
      ensures currentParse == old(currentParse) && highlighted == old(highlighted)
    {
      spans := FilterForms(spans, text);
    }
  }

  lemma {:induction false} SubsetSize<T>(a: set<T>, b: set<T>)
    requires a <= b
    ensures |a| <= |b|
  {
    assert b == a + (b - a);
  }

  /** The directory of the page's pictures. */
  const PictureDir: string := "images/"

  /** `toggleLemma` on the header of one lemma, with the PNG pictures of the newer pages. */
  method ToggleLemma(header: LemmaHeader)
    requires header.openSrc == PictureDir + "opened.png" && header.closedSrc == PictureDir + "closed.png"
    modifies header
    ensures header.src == PictureDir + "opened.png" ==>
      old(header.src) == PictureDir + "closed.png" && header.spanClass == "lemma_span_visible"
    ensures header.src == PictureDir + "closed.png" ==>
      old(header.src) == PictureDir + "opened.png" && header.spanClass == "lemma_span_invisible"
    ensures old(header.src) != header.openSrc && old(header.src) != header.closedSrc ==>
      header.src == old(header.src) && header.spanClass == old(header.spanClass)
  {
    assert header.openSrc[|PictureDir|] != header.closedSrc[|PictureDir|];
    header.Toggle();
  }
}
