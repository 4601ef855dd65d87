/** DESC: the free text of an ODX element with its external documents. The
    XHTML content is kept as text whose lines carry no surrounding
    whitespace. */
module Descriptions {
  import opened Odx
  import opened Text

  datatype ExternalDoc = ExternalDoc(description: Option<string>, href: Option<string>)

  datatype Description = Description(
    text: string,
    externalDocs: seq<ExternalDoc>,
    textIdentifier: Option<string>)

  /** An EXTERNAL-DOC element: its text and its HREF attribute. */
  datatype ExternalDocElement = ExternalDocElement(text: Option<string>, href: Option<string>)

  /** A child element of a DESC: its tag and its XML serialization (which
      ElementTree produces; the serializer is not part of this model). */
  datatype ChildElement = ChildElement(tag: string, serialized: string)

  /** A DESC element: its leading text, its children in document order, the
      EXTERNAL-DOC elements under EXTERNAL-DOCS, and the TI attribute. */
  datatype DescriptionElement = DescriptionElement(
    text: Option<string>,
    children: seq<ChildElement>,
    externalDocs: seq<ExternalDocElement>,
    textIdentifier: Option<string>)

  const ExternalDocsTag: string := "EXTERNAL-DOCS"

  /** `ExternalDoc.from_et`: None for a missing element, HREF required, the
      description is the element text, possibly None. */
  function ExternalDocFromEt(e: Option<ExternalDocElement>, strict: bool): (r: Outcome<Option<ExternalDoc>>)
    ensures e.None? ==> r == Ok(None, [])
    ensures e.Some? ==> (r.Err? <==> strict && e.value.href.None?)
    ensures r.Ok? && e.Some? ==>
              r.value == Some(ExternalDoc(e.value.text, e.value.href))
              && (r.warnings == [] <==> e.value.href.Some?)
  {
    match e
    case None => Ok(None, [])
    case Some(el) =>
      match Require(strict, el.href, "HREF is required")
      case Err(f) => Err(f)
      case Ok(href, w) => Ok(Some(ExternalDoc(el.text, href)), w)
  }

  /** The external documents of a DESC, in order. */
  function ExternalDocsFromEt(es: seq<ExternalDocElement>, strict: bool): (r: Outcome<seq<ExternalDoc>>)
    ensures r.Err? <==> strict && exists i :: 0 <= i < |es| && es[i].href.None?
    ensures r.Ok? ==> |r.value| == |es|
                      && forall i :: 0 <= i < |es| ==> r.value[i] == ExternalDoc(es[i].text, es[i].href)
  {
    if es == [] then Ok([], [])
    else
      match ExternalDocFromEt(Some(es[0]), strict)
      case Err(f) => Err(f)
      case Ok(first, w) =>
        match ExternalDocsFromEt(es[1..], strict)
        case Err(f) =>
          assert forall i :: 0 <= i < |es| - 1 ==> es[1..][i] == es[i + 1];
          Err(f)
        case Ok(rest, w') =>
          assert forall i :: 0 < i < |es| ==> es[i] == es[1..][i - 1];
          Ok([first.value] + rest, w + w')
  }

  /** The serialized children, one after the other. */
  function Concat(cs: seq<ChildElement>): string
  {
    if cs == [] then [] else Concat(cs[..|cs| - 1]) + cs[|cs| - 1].serialized
  }

  /** Index of the first EXTERNAL-DOCS child, or the number of children. */
  function FirstExternalDocs(cs: seq<ChildElement>): (n: nat)
    ensures n <= |cs|
    ensures forall j :: 0 <= j < n ==> cs[j].tag != ExternalDocsTag
    ensures n < |cs| ==> cs[n].tag == ExternalDocsTag
  {
    if cs == [] then 0
    else if cs[0].tag == ExternalDocsTag then 0
    else 1 + FirstExternalDocs(cs[1..])
  }

  /** The raw XHTML text: the element text, then the children before the
      first EXTERNAL-DOCS. */
  function RawText(e: DescriptionElement): string
  {
    (if e.text.Some? then e.text.value else []) + Concat(e.children[..FirstExternalDocs(e.children)])
  }

  /** The loop of `from_et` that collects the raw text. */
  method AssembleRawText(e: DescriptionElement) returns (raw: string)
    ensures raw == RawText(e)
  {
    var lead: string := if e.text.Some? then e.text.value else [];
    raw := lead;
    var i := 0;
    while i < |e.children|
      invariant 0 <= i <= |e.children|
      invariant raw == lead + Concat(e.children[..i])
      invariant forall j :: 0 <= j < i ==> e.children[j].tag != ExternalDocsTag
    {
      if e.children[i].tag == ExternalDocsTag {
        break;
      }
      assert e.children[..i + 1][..i] == e.children[..i];
      raw := raw + e.children[i].serialized;
      i := i + 1;
    }
    assert i == FirstExternalDocs(e.children);
  }

  /** Every line stripped, joined with line feeds, the whole stripped. */
  function Normalize(raw: string): string
  {
    var lines := Split(raw);
    Strip(Join(seq(|lines|, i requires 0 <= i < |lines| => Strip(lines[i]))))
  }

  /** No whitespace around the text nor around any of its lines. */
  predicate Normalized(t: string)
  {
    Stripped(t) && forall i :: 0 <= i < |Split(t)| ==> Stripped(Split(t)[i])
  }

  /** The stripped lines of `raw`: as many as `raw` has, each clean. */
  lemma StrippedLines(raw: string) returns (lines: seq<string>)
    ensures |lines| == |Split(raw)| && |lines| >= 1 && CleanLines(lines)
    ensures forall i :: 0 <= i < |lines| ==> lines[i] == Strip(Split(raw)[i])
    ensures Normalize(raw) == Strip(Join(lines))
  {
    var split := Split(raw);
    lines := seq(|split|, i requires 0 <= i < |split| => Strip(split[i]));
    SplitJoin(raw);
    forall i | 0 <= i < |lines|
      ensures NoLineFeed(lines[i]) && Stripped(lines[i])
    {
      var p, q := StripBounds(split[i]);
      assert forall k :: 0 <= k < |lines[i]| ==> lines[i][k] == split[i][p + k];
    }
  }

  /** Normalizing keeps a contiguous run of the stripped lines of the raw
      text: the per-line strip keeps the number of lines, and the outer
      strip only drops empty lines at either end. */
  lemma NormalizeLines(raw: string) returns (a: nat, b: nat)
    ensures var lines := Split(raw);
            a < b <= |lines|
            && |Split(Normalize(raw))| == b - a
            && (forall i :: a <= i < b ==> Split(Normalize(raw))[i - a] == Strip(lines[i]))
            && (forall i :: 0 <= i < a ==> Strip(lines[i]) == [])
            && (forall i :: b <= i < |lines| ==> Strip(lines[i]) == [])
  {
    var lines := StrippedLines(raw);
    a, b := StripJoin(lines);
    var kept := lines[a..b];
    assert CleanLines(kept) by {
      forall i | 0 <= i < |kept| ensures NoLineFeed(kept[i]) && Stripped(kept[i]) {
        assert kept[i] == lines[a + i];
      }
    }
    JoinSplit(kept);
  }

  /** The text `from_et` produces is normalized. */
  lemma NormalizeIsNormalized(raw: string)
    ensures Normalized(Normalize(raw))
  {
    var lines := StrippedLines(raw);
    var a, b := StripJoin(lines);
    var p, q := StripBounds(Join(lines));
    var kept := lines[a..b];
    assert CleanLines(kept) by {
      forall i | 0 <= i < |kept| ensures NoLineFeed(kept[i]) && Stripped(kept[i]) {
        assert kept[i] == lines[a + i];
      }
    }
    JoinSplit(kept);
  }

  /** Normalized text is left alone. */
  lemma NormalizedIsFixed(t: string)
    requires Normalized(t)
    ensures Normalize(t) == t
  {
    var split := Split(t);
    var lines := seq(|split|, i requires 0 <= i < |split| => Strip(split[i]));
    forall i | 0 <= i < |split| ensures lines[i] == split[i] {
      StripStripped(split[i]);
    }
    assert lines == split;
    SplitJoin(t);
    StripStripped(t);
  }

  /** Normalizing twice is normalizing once. */
  lemma NormalizeIdempotent(raw: string)
    ensures Normalize(Normalize(raw)) == Normalize(raw)
  {
    NormalizeIsNormalized(raw);
    NormalizedIsFixed(Normalize(raw));
  }

  /** What `Description.from_et` returns. */
  function DescriptionOf(e: Option<DescriptionElement>, strict: bool): Outcome<Option<Description>>
  {
    match e
    case None => Ok(None, [])
    case Some(el) =>
      match ExternalDocsFromEt(el.externalDocs, strict)
      case Err(f) => Err(f)
      case Ok(docs, w) => Ok(Some(Description(Normalize(RawText(el)), docs, el.textIdentifier)), w)
  }

  /** `Description.from_et` */
  method DescriptionFromEt(e: Option<DescriptionElement>, strict: bool) returns (r: Outcome<Option<Description>>)
    ensures r == DescriptionOf(e, strict)
  {
    if e.None? {
      return Ok(None, []);
    }
    var el := e.value;
    var raw := AssembleRawText(el);
    var text := Normalize(raw);
    var docs := ExternalDocsFromEt(el.externalDocs, strict);
    if docs.Err? {
      return Err(docs.failure);
    }
    r := Ok(Some(Description(text, docs.value, el.textIdentifier)), docs.warnings);
  }

  /** A parsed description: None for a missing element; otherwise normalized
      text, the TI attribute, and the external documents in order. */
  lemma DescriptionOfResult(e: Option<DescriptionElement>, strict: bool)
    ensures e.None? ==> DescriptionOf(e, strict) == Ok(None, [])
    ensures e.Some? && DescriptionOf(e, strict).Ok? ==>
              var d := DescriptionOf(e, strict).value;
              d.Some? && Normalized(d.value.text)
              && d.value.text == Normalize(RawText(e.value))
              && d.value.textIdentifier == e.value.textIdentifier
              && |d.value.externalDocs| == |e.value.externalDocs|
    ensures e.Some? ==> (DescriptionOf(e, strict).Err? <==>
              strict && exists i :: 0 <= i < |e.value.externalDocs| && e.value.externalDocs[i].href.None?)
  {
    if e.Some? {
      NormalizeIsNormalized(RawText(e.value));
    }
  }

  /** `Description.from_string` */
  function FromString(text: string): Description
  {
    Description(text, [], None)
  }

  /** `str(description)` */
  function ToString(d: Description): string
  {
    d.text
  }

  /** `str` undoes `from_string`; `from_string` undoes `str` exactly for
      descriptions without external documents and text identifier. */
  lemma StringRoundTrip(text: string, d: Description)
    ensures ToString(FromString(text)) == text
    ensures FromString(ToString(d)) == d <==> d.externalDocs == [] && d.textIdentifier.None?
  {
  }
}
