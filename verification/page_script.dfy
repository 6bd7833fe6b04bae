/**
 * What the two page scripts of the Perseus pages share: the query string of
 * a request, the classification of an XMLHttpRequest's outcome, and the
 * filter that shows the inflected forms matching the last typed token.
 */
module PageScript {
  import opened Wrappers
  import opened Text

  /** An XMLHttpRequest as far as the scripts look at it. */
  datatype Request = Request(readyState: int, status: int)

  /** What the page does in the outside world. */
  datatype PageEffect =
    | OpenPopup(url: string)        // `window.open(url, 'Perseus Data')`
    | GoTo(url: string)             // `window.location.href = url`
    | Abort                         // the running request is aborted
    | Get(uri: string)              // a GET request is sent
    | Post(url: string, body: string)  // a POST request is sent
    | PageAlert(message: string)
    | Submit                        // the form is submitted

  /** The choices the sidebar's control area offers. */
  datatype Control = Dismiss | Fullscreen | Splitscreen

  /** The running request is aborted when there is one and it is neither unsent (0) nor done (4). */
  predicate ShouldAbort(req: Option<Request>) {
    req.Some? && req.value.readyState != 0 && req.value.readyState != 4
  }

  datatype Outcome = ShowResponse | FailedConnect | Ignored

  /** `stateHandler`: a finished request shows its response on status 200, reports a failure on any other status but 0, and is otherwise ignored. */
  function Classify(req: Request): (o: Outcome)
    ensures o == ShowResponse <==> req.readyState == 4 && req.status == 200
    ensures o == FailedConnect <==> req.readyState == 4 && req.status != 200 && req.status != 0
    ensures o == Ignored <==> req.readyState != 4 || req.status == 0
  {
    if req.readyState == 4 && req.status != 0 && req.status == 200 then ShowResponse
    else if req.readyState == 4 && req.status != 0 then FailedConnect
    else Ignored
  }

  /** The parameters of a Perseus request, unencoded, as both scripts write them. */
  function RequestQuery(action: string, lang: string, query: string): (qs: string)
    ensures StartsWith(qs, "do=")
  {
    "do=" + action + "&lang=" + lang + "&q=" + query
  }

  predicate NoAmp(s: string) {
    forall i :: 0 <= i < |s| ==> s[i] != '&'
  }

  /** The value of the first `name=` parameter of a query string. */
  function Param(qs: string, name: string): (v: Option<string>)
    ensures v.Some? ==> name + "=" + v.value in Split(qs, c => c == '&')
  {
    FirstValue(Split(qs, c => c == '&'), name + "=")
  }

  function FirstValue(parts: seq<string>, key: string): (v: Option<string>)
    ensures v.Some? ==> exists i :: 0 <= i < |parts| && parts[i] == key + v.value
    decreases |parts|
  {
    if |parts| == 0 then None
    else if StartsWith(parts[0], key) then
      assert parts[0] == key + parts[0][|key|..];
      Some(parts[0][|key|..])
    else FirstValue(parts[1..], key)
  }

  lemma {:induction false} NoAmpJoin(a: string, b: string)
    requires NoAmp(a) && NoAmp(b)
    ensures NoAmp(a + b)
  {
    forall i | 0 <= i < |a + b|
      ensures (a + b)[i] != '&'
    {
      if i >= |a| { assert (a + b)[i] == b[i - |a|]; }
    }
  }

  /** The three parameters cut apart again at `&`. */
  lemma {:induction false} QueryParts(action: string, lang: string, query: string, rest: string)
    requires NoAmp(action) && NoAmp(lang) && NoAmp(query)
    ensures Split(RequestQuery(action, lang, query) + rest, c => c == '&')
         == ["do=" + action, "lang=" + lang] + Split("q=" + query + rest, c => c == '&')
  {
    var p0 := "do=" + action;
    var p1 := "lang=" + lang;
    NoAmpJoin("do=", action);
    NoAmpJoin("lang=", lang);
    RequestQueryShape(action, lang, query, rest);
    SplitAppendSep(p0, p1 + ['&'] + ("q=" + query + rest), '&');
    SplitAppendSep(p1, "q=" + query + rest, '&');
  }

  /** A request query is its three parameters joined by `&`. */
  lemma RequestQueryShape(action: string, lang: string, query: string, rest: string)
    ensures RequestQuery(action, lang, query) + rest
         == ("do=" + action) + ['&'] + (("lang=" + lang) + ['&'] + ("q=" + query + rest))
  {
    assert "&lang=" == ['&'] + "lang=";
    assert "&q=" == ['&'] + "q=";
  }

  lemma {:induction false} NotStarting(s: string, key: string)
    requires 0 < |key| && 0 < |s| && s[0] != key[0]
    ensures !StartsWith(s, key)
  {
    if |key| <= |s| {
      assert s[..|key|][0] == s[0];
    }
  }

  /** The first value for `key` among the three parts of a request query. */
  lemma {:induction false} ValuesOfParts(action: string, lang: string, q: string, parts: seq<string>)
    requires |parts| >= 3 && parts[0] == "do=" + action && parts[1] == "lang=" + lang && parts[2] == "q=" + q
    ensures FirstValue(parts, "do=") == Some(action)
    ensures FirstValue(parts, "lang=") == Some(lang)
    ensures FirstValue(parts, "q=") == Some(q)
  {
    assert parts[0][..3] == "do=";
    assert parts[1][..5] == "lang=";
    assert parts[2][..2] == "q=";
    assert parts[0][0] == 'd' && parts[1][0] == 'l';
    NotStarting(parts[0], "lang=");
    NotStarting(parts[0], "q=");
    NotStarting(parts[1], "q=");
    assert FirstValue(parts, "lang=") == FirstValue(parts[1..], "lang=");
    assert FirstValue(parts, "q=") == FirstValue(parts[1..], "q=") == FirstValue(parts[1..][1..], "q=");
    assert parts[1..][1..][0] == parts[2];
  }

  /** With no `&` in the values, each parameter reads back as written. */
  lemma {:induction false} RequestQueryRoundTrip(action: string, lang: string, query: string)
    requires NoAmp(action) && NoAmp(lang) && NoAmp(query)
    ensures Param(RequestQuery(action, lang, query), "do") == Some(action)
    ensures Param(RequestQuery(action, lang, query), "lang") == Some(lang)
    ensures Param(RequestQuery(action, lang, query), "q") == Some(query)
  {
    QueryParts(action, lang, query, "");
    assert RequestQuery(action, lang, query) + "" == RequestQuery(action, lang, query);
    NoAmpJoin("q=", query);
    assert "q=" + query + "" == "q=" + query;
    SplitNoSep("q=" + query, c => c == '&');
    ValuesOfParts(action, lang, query, Split(RequestQuery(action, lang, query), c => c == '&'));
    assert "do" + "=" == "do=" && "lang" + "=" == "lang=" && "q" + "=" == "q=";
  }

  /** A query holding `&` is cut there: the server sees only its first piece. */
  lemma {:induction false} AmpersandCutsQuery(action: string, lang: string, head: string, tail: string)
    requires NoAmp(action) && NoAmp(lang) && NoAmp(head)
    ensures Param(RequestQuery(action, lang, head + "&" + tail), "q") == Some(head)
  {
    var qs := RequestQuery(action, lang, head + "&" + tail);
    var front := ["do=" + action, "lang=" + lang];
    assert qs == RequestQuery(action, lang, head) + ("&" + tail);
    QueryParts(action, lang, head, "&" + tail);
    assert Split(qs, c => c == '&') == front + Split("q=" + head + ("&" + tail), c => c == '&');
    NoAmpJoin("q=", head);
    assert "q=" + head + ("&" + tail) == ("q=" + head) + ['&'] + tail;
    SplitAppendSep("q=" + head, tail, '&');
    var parts := front + (["q=" + head] + Split(tail, c => c == '&'));
    assert Split(qs, c => c == '&') == parts;
    ValuesOfParts(action, lang, head, parts);
    assert "q" + "=" == "q=";
  }

  // ------------------------------------------------------------ the form filter

  /** A span of an inflected form: its class, and its `infl` attribute. */
  datatype Span = Span(className: string, infl: string)

  const VisibleForm: string := "form_span_visible"
  const HiddenForm: string := "form_span_invisible"

  predicate IsFormClass(c: string) {
    c == VisibleForm || c == HiddenForm
  }

  /** The separators of the filter text: `[\s,]`. */
  predicate IsFilterSep(c: char) {
    IsSpace(c) || c == ','
  }

  /** A form span's class after the filter: shown exactly when its inflection contains the last token. */
  function FilteredClass(className: string, infl: string, text: string): (c: string)
    ensures !IsFormClass(className) ==> c == className
    ensures IsFormClass(className) ==> IsFormClass(c)
    ensures IsFormClass(className) ==> (c == VisibleForm <==> Contains(infl, LastPart(text, IsFilterSep)))
  {
    if !IsFormClass(className) then className
    else if Contains(infl, LastPart(text, IsFilterSep)) then VisibleForm
    else HiddenForm
  }

  /**
   * `formFilter`: each form span's class is set once per token of the text,
   * so the last token decides; other spans are left alone.
   */
  method FilterForms(spans: seq<Span>, text: string) returns (out: seq<Span>)
    ensures |out| == |spans|
    ensures forall i :: 0 <= i < |spans| ==>
      out[i] == spans[i].(className := FilteredClass(spans[i].className, spans[i].infl, text))
  {
    var tokens := Split(text, IsFilterSep);
    out := spans;
    var i := 0;
    while i < |out|
      invariant 0 <= i <= |out| == |spans|
      invariant forall k :: 0 <= k < i ==>
        out[k] == spans[k].(className := FilteredClass(spans[k].className, spans[k].infl, text))
      invariant forall k :: i <= k < |out| ==> out[k] == spans[k]
    {
      var myClass := out[i].className;
      if myClass == VisibleForm || myClass == HiddenForm {
        var infl := out[i].infl;
        var j := 0;
        while j < |tokens|
          invariant 0 <= j <= |tokens| && |out| == |spans|
          invariant out[i].infl == infl && IsFormClass(out[i].className)
          invariant j > 0 ==> (out[i].className == VisibleForm <==> Contains(infl, tokens[j - 1]))
          invariant j == 0 ==> out[i] == spans[i]
          invariant forall k :: 0 <= k < i ==>
            out[k] == spans[k].(className := FilteredClass(spans[k].className, spans[k].infl, text))
          invariant forall k :: i < k < |out| ==> out[k] == spans[k]
        {
          if Contains(infl, tokens[j]) {
            out := out[i := out[i].(className := VisibleForm)];
          } else {
            out := out[i := out[i].(className := HiddenForm)];
          }
          j := j + 1;
        }
      }
      i := i + 1;
    }
  }

  /** An empty last token, as after a trailing space or comma, shows every form span. */
  lemma {:induction false} EmptyLastTokenShowsAll(className: string, infl: string, text: string)
    requires IsFormClass(className)
    requires |text| == 0 || IsFilterSep(text[|text| - 1])
    ensures FilteredClass(className, infl, text) == VisibleForm
  {
    LastPartEmpty(text, IsFilterSep);
    assert OccursAt(infl, "", 0);
  }

  /** The picture of a lemma's header agrees with its span of forms: opened over shown forms, closed over hidden ones. */
  predicate Consistent(src: string, spanClass: string, openSrc: string, closedSrc: string) {
    || (src == openSrc && spanClass == "lemma_span_visible")
    || (src == closedSrc && spanClass == "lemma_span_invisible")
  }

  /** The lemma toggle on the header's picture and its span's class: a recognised picture flips, any other is left alone. */
  function ToggledLemma(src: string, spanClass: string, openSrc: string, closedSrc: string): (r: (string, string))
    requires openSrc != closedSrc
    ensures src != openSrc && src != closedSrc ==> r == (src, spanClass)
    ensures src == openSrc || src == closedSrc ==>
      && Consistent(r.0, r.1, openSrc, closedSrc)
      && (r.0 == openSrc <==> src == closedSrc)
  {
    if src == openSrc then (closedSrc, "lemma_span_invisible")
    else if src == closedSrc then (openSrc, "lemma_span_visible")
    else (src, spanClass)
  }

  /** Toggling twice restores a header that agreed with its span. */
  lemma {:induction false} ToggleTwice(src: string, spanClass: string, openSrc: string, closedSrc: string)
    requires openSrc != closedSrc && Consistent(src, spanClass, openSrc, closedSrc)
    ensures var once := ToggledLemma(src, spanClass, openSrc, closedSrc);
      ToggledLemma(once.0, once.1, openSrc, closedSrc) == (src, spanClass)
  {
  }

  /** A lemma's header in the page: its picture and the class of its span of forms. */
  class LemmaHeader {
    const openSrc: string
    const closedSrc: string
    var src: string
    var spanClass: string

    constructor (openSrc: string, closedSrc: string, src: string, spanClass: string)
      ensures this.openSrc == openSrc && this.closedSrc == closedSrc
      ensures this.src == src && this.spanClass == spanClass
    {
      this.openSrc := openSrc;
      this.closedSrc := closedSrc;
      this.src := src;
      this.spanClass := spanClass;
    }

    /** `toggleLemma`: the picture flips and the span follows it; a header in agreement stays in agreement. */
    method Toggle()
      requires openSrc != closedSrc
      modifies this
      ensures (src, spanClass) == ToggledLemma(old(src), old(spanClass), openSrc, closedSrc)
      ensures Consistent(old(src), old(spanClass), openSrc, closedSrc) ==>
        Consistent(src, spanClass, openSrc, closedSrc) && src != old(src)
    {
      if src == openSrc {
        src := closedSrc;
        spanClass := "lemma_span_invisible";
      } else if src == closedSrc {
        src := openSrc;
        spanClass := "lemma_span_visible";
      }
    }
  }
}
