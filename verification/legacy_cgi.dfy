/**
 * The script of the Perseus pages of the older browser-based front end:
 * requests are POSTed, the sidebar offers Dismiss with one layout switch,
 * and a change of the splash page's action menu to its eighth entry submits
 * the form.
 */
module LegacyCgi {
  import opened Wrappers
  import opened Text
  import opened PageScript

  /** The classes of the sidebar and the main window, and what the sidebar shows. */
  datatype Layout = Layout(sidebarClass: string, mainClass: string, sidebarHtml: string, controls: seq<Control>)

  /** The address a pop-up is opened at: the request parameters and `popup=1`. */
  function PopupUrl(action: string, lang: string, query: string): (u: string)
    ensures |u| > |"Perseus.cgi?"| && u[..|"Perseus.cgi?"|] == "Perseus.cgi?"
    ensures u[|"Perseus.cgi?"|..] == RequestQuery(action, lang, query) + "&popup=1"
  {
    "Perseus.cgi?" + RequestQuery(action, lang, query) + "&popup=1"
  }

  /** With no `&` in the values, `Param` reads the query back from a pop-up's address. */
  lemma {:induction false} PopupQueryReadsBack(action: string, lang: string, query: string)
    requires NoAmp(action) && NoAmp(lang) && NoAmp(query)
    ensures var u := PopupUrl(action, lang, query);
      Param(u[|"Perseus.cgi?"|..], "q") == Some(query)
  {
    var u := PopupUrl(action, lang, query);
    assert u[|"Perseus.cgi?"|..] == RequestQuery(action, lang, query + "&" + "popup=1");
    AmpersandCutsQuery(action, lang, query, "popup=1");
  }

  /** `new_page`'s address: the pop-up's address followed by the font of the form. */
  function NewPageUrl(action: string, lang: string, query: string, font: string): (u: string)
    ensures u == PopupUrl(action, lang, query) + "&font=" + font
  {
    "Perseus.cgi?" + RequestQuery(action, lang, query) + "&popup=1" + "&font=" + font
  }

  /** With no `&` in the values, the query reads back from a new page's address, whatever the font. */
  lemma {:induction false} NewPageQueryReadsBack(action: string, lang: string, query: string, font: string)
    requires NoAmp(action) && NoAmp(lang) && NoAmp(query)
    ensures var u := NewPageUrl(action, lang, query, font);
      Param(u[|"Perseus.cgi?"|..], "q") == Some(query)
  {
    NewPageUrlQuery(action, lang, query, font);
    AmpersandCutsQuery(action, lang, query, "popup=1&font=" + font);
  }

  /** A new page's address is a request whose `q` value runs on into the pop-up flag and the font. */
  lemma NewPageUrlQuery(action: string, lang: string, query: string, font: string)
    ensures var u := NewPageUrl(action, lang, query, font);
      u[|"Perseus.cgi?"|..] == RequestQuery(action, lang, query + "&" + ("popup=1&font=" + font))
  {
    var u := NewPageUrl(action, lang, query, font);
    assert "&popup=1" + "&font=" == "&" + "popup=1&font=";
    assert u[|"Perseus.cgi?"|..] == RequestQuery(action, lang, query) + ("&popup=1" + "&font=") + font;
  }

  /** What `window.open` failing shows. */
  const PopupBlocked: string :=
    "You have requested that Perseus data be displayed in a pop-up window, but you appear to have disallowed pop-ups from this web site. "

  predicate IsSidebarRequest(sidebarClass: string) {
    sidebarClass != "sidebar-popup" && sidebarClass != "sidebar-newpage"
  }

  /** What `sendRequest` does outside the page: the sidebar request is a POST of the parameters to `Perseus.cgi`. */
  function SendEffects(sidebarClass: string, req: Option<Request>, action: string, lang: string, query: string,
                       font: string, popupError: Option<string>): (e: seq<PageEffect>)
    ensures sidebarClass == "sidebar-popup" ==>
      e == [if popupError.Some? then PageAlert(PopupBlocked + popupError.value) else OpenPopup(PopupUrl(action, lang, query))]
    ensures sidebarClass == "sidebar-newpage" ==> e == [GoTo(NewPageUrl(action, lang, query, font))]
    ensures IsSidebarRequest(sidebarClass) ==>
      && |e| > 0 && e[|e| - 1] == Post("Perseus.cgi", RequestQuery(action, lang, query))
      && (Abort in e <==> ShouldAbort(req))
  {
    if sidebarClass == "sidebar-popup" then
      [if popupError.Some? then PageAlert(PopupBlocked + popupError.value) else OpenPopup(PopupUrl(action, lang, query))]
    else if sidebarClass == "sidebar-newpage" then [GoTo(NewPageUrl(action, lang, query, font))]
    else (if ShouldAbort(req) then [Abort] else []) + [Post("Perseus.cgi", RequestQuery(action, lang, query))]
  }

  /** With no `&` in the values, `Param` reads the query back from the POST body. */
  lemma {:induction false} PostBodyReadsBack(action: string, lang: string, query: string, req: Option<Request>, font: string)
    requires NoAmp(action) && NoAmp(lang) && NoAmp(query)
    ensures var e := SendEffects("sidebar-split", req, action, lang, query, font, None);
      Param(e[|e| - 1].body, "q") == Some(query)
  {
    RequestQueryRoundTrip(action, lang, query);
  }

  /** `sidebarControl`'s offer for a layout: Dismiss and the other layout; no offer for any other class. */
  function ControlsFor(sidebarClass: string): (c: Option<seq<Control>>)
    ensures c.Some? <==> sidebarClass == "sidebar-split" || sidebarClass == "sidebar-full"
    ensures c.Some? ==> |c.value| == 2 && c.value[0] == Dismiss
    ensures sidebarClass == "sidebar-split" ==> c == Some([Dismiss, Fullscreen])
    ensures sidebarClass == "sidebar-full" ==> c == Some([Dismiss, Splitscreen])
  {
    if sidebarClass == "sidebar-split" then Some([Dismiss, Fullscreen])
    else if sidebarClass == "sidebar-full" then Some([Dismiss, Splitscreen])
    else None
  }

  /** The page's state. */
  class LegacyPage {
    /** The `FontName` field of the form. */
    const font: string
    var layout: Layout
    /** The global `req`. */
    var req: Option<Request>
    var spans: seq<Span>
    var log: seq<PageEffect>

    constructor (font: string, layout: Layout, spans: seq<Span>)
      ensures this.font == font && this.layout == layout && this.spans == spans
      ensures req.None? && log == []
    {
      this.font := font;
      this.layout := layout;
      this.spans := spans;
      req := None;
      log := [];
    }

    /** `onActionChange`: the form is submitted when the eighth action is chosen. */
    method OnActionChange(selectedIndex: int)
      modifies this
      ensures log == old(log) + (if selectedIndex == 7 then [Submit] else [])
      ensures layout == old(layout) && req == old(req) && spans == old(spans)
    {
      if selectedIndex == 7 {
        log := log + [Submit];
      }
    }

    /** `sendRequest`: a pop-up, a new page, or a POST from the page that first aborts a running request. */
    method SendRequest(action: string, lang: string, query: string, popupError: Option<string>) returns (r: bool)
      modifies this
      ensures r
      ensures log == old(log) + SendEffects(old(layout).sidebarClass, old(req), action, lang, query, font, popupError)
      ensures IsSidebarRequest(old(layout).sidebarClass) ==> req == Some(Request(1, 0))
      ensures !IsSidebarRequest(old(layout).sidebarClass) ==> req == old(req)
      ensures layout == old(layout) && spans == old(spans)
    {
      var cls := layout.sidebarClass;
      log := log + SendEffects(cls, req, action, lang, query, font, popupError);
      if cls != "sidebar-popup" && cls != "sidebar-newpage" {
        req := Some(Request(1, 0));
        return true;
      }
      return true;
    }

    /** `sidebarControl`: the offer for the current layout, or an error alert for any other class. */
    method SidebarControl()
      modifies this
      ensures ControlsFor(old(layout).sidebarClass).Some? ==>
        layout == old(layout).(controls := ControlsFor(old(layout).sidebarClass).value) && log == old(log)
      ensures ControlsFor(old(layout).sidebarClass).None? ==>
        layout == old(layout) && log == old(log) + [PageAlert("Error: sidebar state -- " + old(layout).sidebarClass)]
      ensures req == old(req) && spans == old(spans)
    {
      var offer := ControlsFor(layout.sidebarClass);
      if offer.Some? {
        layout := layout.(controls := offer.value);
      } else {
        log := log + [PageAlert("Error: sidebar state -- " + layout.sidebarClass)];
      }
    }

    /** `sidebarFullscreen`: the sidebar covers the page, offering Dismiss and the split screen. */
    method SidebarFullscreen()
      modifies this
      ensures layout == old(layout).(sidebarClass := "sidebar-full", mainClass := "main-hidden", controls := [Dismiss, Splitscreen])
      ensures req == old(req) && spans == old(spans) && log == old(log)
    {
      layout := layout.(sidebarClass := "sidebar-full", mainClass := "main-hidden");
      SidebarControl();
    }

    /** `sidebarSplitscreen`: sidebar and page side by side, offering Dismiss and the full screen. */
    method SidebarSplitscreen()
      modifies this
      ensures layout == old(layout).(sidebarClass := "sidebar-split", mainClass := "main-full", controls := [Dismiss, Fullscreen])
      ensures req == old(req) && spans == old(spans) && log == old(log)
    {
      layout := layout.(sidebarClass := "sidebar-split", mainClass := "main-full");
      SidebarControl();
    }

    /** `sidebarDismiss`: the sidebar is emptied and the page shown in full; the controls stay. */
    method SidebarDismiss()
      modifies this
      ensures layout == old(layout).(sidebarHtml := "", mainClass := "main-full")
      ensures req == old(req) && spans == old(spans) && log == old(log)
    {
      layout := layout.(sidebarHtml := "", mainClass := "main-full");
    }

    /** `showPerseus`: the response fills the sidebar, a full sidebar hides the page, and the controls are redrawn. */
    method ShowPerseus(response: string)
      modifies this
      ensures layout.sidebarHtml == response && layout.sidebarClass == old(layout).sidebarClass
      ensures layout.mainClass == (if old(layout).sidebarClass == "sidebar-full" then "main-hidden" else old(layout).mainClass)
      ensures ControlsFor(old(layout).sidebarClass).Some? ==>
        layout.controls == ControlsFor(old(layout).sidebarClass).value && log == old(log)
      ensures ControlsFor(old(layout).sidebarClass).None? ==>
        layout.controls == old(layout).controls
        && log == old(log) + [PageAlert("Error: sidebar state -- " + old(layout).sidebarClass)]
      ensures req == old(req) && spans == old(spans)
    {
      layout := layout.(sidebarHtml := response);
      if layout.sidebarClass == "sidebar-full" {
        layout := layout.(mainClass := "main-hidden");
      }
      SidebarControl();
    }

    /** `stateHandler` as the request moves to `next`, with the same classification as the newer script. */
    method StateHandler(next: Request, response: string)
      requires req.Some?
      modifies this
      ensures req == Some(next)
      ensures Classify(next) == ShowResponse ==>
        && layout.sidebarHtml == response && layout.sidebarClass == old(layout).sidebarClass
        && layout.mainClass == (if old(layout).sidebarClass == "sidebar-full" then "main-hidden" else old(layout).mainClass)
      ensures Classify(next) == ShowResponse && ControlsFor(old(layout).sidebarClass).Some? ==>
        layout.controls == ControlsFor(old(layout).sidebarClass).value && log == old(log)
      ensures Classify(next) == ShowResponse && ControlsFor(old(layout).sidebarClass).None? ==>
        layout.controls == old(layout).controls
        && log == old(log) + [PageAlert("Error: sidebar state -- " + old(layout).sidebarClass)]
      ensures Classify(next) == FailedConnect ==>
        log == old(log) + [PageAlert("Could not get Perseus data!")] && layout == old(layout)
      ensures Classify(next) == Ignored ==> log == old(log) && layout == old(layout)
      ensures spans == old(spans)
    {
      req := Some(next);
      match Classify(next) {
        case ShowResponse => ShowPerseus(response);
        case FailedConnect => log := log + [PageAlert("Could not get Perseus data!")];
        case Ignored =>
      }
    }

    /** `formFilter` on the text of the filter field. */
    method FormFilter(text: string)
      modifies this
      ensures |spans| == |old(spans)|
      ensures forall i :: 0 <= i < |spans| ==>
        spans[i] == old(spans)[i].(className := FilteredClass(old(spans)[i].className, old(spans)[i].infl, text))
      ensures layout == old(layout) && req == old(req) && log == old(log)
    {
      spans := FilterForms(spans, text);
    }
  }

  /** The pictures of an opened and a closed lemma header. */
  const OpenedImage: string := "images/opened.gif"
  const ClosedImage: string := "images/closed.gif"

  /** `toggleLemma` on the header of one lemma. */
  method ToggleLemma(header: LemmaHeader)
    requires header.openSrc == OpenedImage && header.closedSrc == ClosedImage
    modifies header
    ensures header.src == OpenedImage ==> old(header.src) == ClosedImage && header.spanClass == "lemma_span_visible"
    ensures header.src == ClosedImage ==> old(header.src) == OpenedImage && header.spanClass == "lemma_span_invisible"
    ensures old(header.src) != OpenedImage && old(header.src) != ClosedImage ==> header.src == old(header.src) && header.spanClass == old(header.spanClass)
  {
    header.Toggle();
  }
}
