/**
 * PicStartXml: the markup fragment a new picture's `xdr:pic` node is
 * initialised with. It holds the non-visual properties (drawing id, optional
 * `a:hlinkClick` with a tooltip only for an ExcelHyperLink), the picture locks,
 * the blip whose `r:embed` is left empty for the caller to fill in, and a
 * zero-sized transform with a rectangle geometry.
 *
 * Besides the builder, the module has a reader that takes such a fragment
 * apart again; the round trip shows which parts the fragment carries.
 */
module AnchorXml {
  import opened Options
  import opened Relationships

  /**
   * The hyperlink of a picture: a plain Uri, or an ExcelHyperLink (a Uri
   * subclass that also carries a tooltip; a null tooltip is the empty string).
   */
  datatype Hyperlink = PlainUri(uri: Uri) | ExcelHyperLink(uri: Uri, toolTip: string)

  const Quote: string := "\""
  const RelationshipsNs: string := "http://schemas.openxmlformats.org/officeDocument/2006/relationships"
  const NvPicPrOpen: string := "<xdr:nvPicPr>"
  const CNvPrOpen: string := "<xdr:cNvPr id=\""
  /** After the id's closing quote: the self-closing form (no hyperlink) ... */
  const DescrSelfClose: string := " descr=\"\" />"
  /** ... or the open form that a click element follows. */
  const DescrOpenEnd: string := " descr=\"\">"
  const CNvPrClose: string := "</xdr:cNvPr>"
  const HlinkClickOpen: string := "<a:hlinkClick xmlns:r=\"" + RelationshipsNs + "\" r:id=\""
  /** After the relationship id's closing quote: the tooltip attribute ... */
  const ToolTipAttr: string := " tooltip=\""
  const ToolTipEnd: string := "\"/>"
  /** ... or the end of a click element without one. */
  const HlinkClickEnd: string := " />"
  /** The empty embed reference the caller patches once the image relationship is known. */
  const EmptyEmbed: string := "r:embed=\"\""
  const BlipOpen: string :=
    "<xdr:cNvPicPr><a:picLocks noChangeAspect=\"1\" /></xdr:cNvPicPr></xdr:nvPicPr><xdr:blipFill><a:blip xmlns:r=\""
    + RelationshipsNs + "\" "
  const BlipRest: string :=
    " cstate=\"print\" /><a:stretch><a:fillRect /> </a:stretch> </xdr:blipFill> <xdr:spPr> <a:xfrm> <a:off x=\"0\" y=\"0\" />  <a:ext cx=\"0\" cy=\"0\" /> </a:xfrm> <a:prstGeom prst=\"rect\"> <a:avLst /> </a:prstGeom> </xdr:spPr>"

  function DigitChar(d: nat): (c: char)
    requires d < 10
    ensures '0' <= c <= '9'
  {
    "0123456789"[d]
  }

  /** Decimal text of a natural number, as `{0}` formats it. */
  function NatText(n: nat): (s: string)
    ensures |s| > 0
    ensures forall i :: 0 <= i < |s| ==> '0' <= s[i] <= '9'
  {
    if n < 10 then [DigitChar(n)] else NatText(n / 10) + [DigitChar(n % 10)]
  }

  /** Decimal text of an int, with a leading minus sign when negative. */
  function IntText(i: int): (s: string)
    ensures |s| > 0 && '"' !in s
  {
    if i < 0 then "-" + NatText(-i) else NatText(i)
  }

  /** The text of a relationship id. */
  function RelIdText(id: RelId): (s: string)
    ensures '"' !in s
  {
    "rId" + NatText(id)
  }

  /**
   * The fixed pieces the fragment is assembled from. The model keeps them in
   * one record so that the reader and its proof can treat them as opaque text
   * and only ask of them the few facts `Distinguishable` lists.
   */
  datatype Markup = Markup(
    nvPicPrOpen: string,     // <xdr:nvPicPr>
    cNvPrOpen: string,       // <xdr:cNvPr id="
    descrSelfClose: string,  // after the id: self-closing cNvPr, no hyperlink
    descrOpenEnd: string,    // after the id: open cNvPr, a click element follows
    clickOpen: string,       // <a:hlinkClick xmlns:r="..." r:id="
    toolTipAttr: string,     // after the relationship id: the tooltip attribute
    toolTipEnd: string,      // after the tooltip text
    clickEnd: string,        // after the relationship id: no tooltip
    cNvPrClose: string,      // </xdr:cNvPr>
    blipOpen: string,        // picture locks, then the blip element up to its embed reference
    emptyEmbed: string,      // r:embed=""
    blipRest: string)        // the rest of the blip, the stretch fill and the geometry
  {
    /** The fixed tail every fragment ends with. */
    function Suffix(): string
    {
      blipOpen + emptyEmbed + blipRest
    }
  }

  const PicMarkup: Markup := Markup(
    NvPicPrOpen, CNvPrOpen, DescrSelfClose, DescrOpenEnd, HlinkClickOpen,
    ToolTipAttr, ToolTipEnd, HlinkClickEnd, CNvPrClose, BlipOpen, EmptyEmbed, BlipRest)

  /**
   * The fragment assembled from `m`, following the branches of PicStartXml:
   * the same text the source appends piece by piece, grouped here by what
   * follows each quoted value.
   */
  function Assemble(m: Markup, id: int, click: Option<(Hyperlink, RelId)>): (xml: string)
    ensures StartsWith(xml, m.nvPicPrOpen + m.cNvPrOpen) && EndsWith(xml, m.Suffix())
  {
    var head := m.nvPicPrOpen + m.cNvPrOpen;
    var rest := AfterId(m, click);
    EndsWithAppend(IntText(id) + Quote, rest, m.Suffix());
    EndsWithAppend(head, IntText(id) + Quote + rest, m.Suffix());
    DropPrefix(head, IntText(id) + Quote + rest);
    head + (IntText(id) + Quote + rest)
  }

  /** The rest of the cNvPr element after the id's closing quote, and the suffix. */
  function AfterId(m: Markup, click: Option<(Hyperlink, RelId)>): (r: string)
    ensures EndsWith(r, m.Suffix())
  {
    var s := m.Suffix();
    match click
    case None =>
      EndsWithAppend(m.descrSelfClose, s, s);
      m.descrSelfClose + s
    case Some((link, relId)) =>
      var tail := RelIdText(relId) + Quote + AfterRelId(m, link);
      EndsWithAppend(RelIdText(relId) + Quote, AfterRelId(m, link), s);
      EndsWithAppend(m.descrOpenEnd + m.clickOpen, tail, s);
      (m.descrOpenEnd + m.clickOpen) + tail
  }

  /** The rest of the click element after the relationship id's closing quote, and the suffix. */
  function AfterRelId(m: Markup, link: Hyperlink): (r: string)
    ensures EndsWith(r, m.Suffix())
  {
    var s := m.Suffix();
    match link
    case ExcelHyperLink(_, tip) =>
      EndsWithAppend(m.toolTipEnd + m.cNvPrClose, s, s);
      EndsWithAppend(tip, m.toolTipEnd + m.cNvPrClose + s, s);
      EndsWithAppend(m.toolTipAttr, tip + (m.toolTipEnd + m.cNvPrClose + s), s);
      m.toolTipAttr + (tip + (m.toolTipEnd + m.cNvPrClose + s))
    case PlainUri(_) =>
      EndsWithAppend(m.clickEnd + m.cNvPrClose, s, s);
      m.clickEnd + m.cNvPrClose + s
  }

  /**
   * ExcelPicture.PicStartXml's string, for drawing id `id` and, when the
   * picture has a hyperlink, that hyperlink and the id of the External
   * relationship created for it.
   */
  function PicStartXml(id: int, click: Option<(Hyperlink, RelId)>): string
  {
    Assemble(PicMarkup, id, click)
  }

  /** What a reader finds in a fragment: the id text and the optional click element. */
  datatype ParsedClick = ParsedClick(relIdText: string, toolTip: Option<string>)
  datatype ParsedAnchor = ParsedAnchor(idText: string, click: Option<ParsedClick>)

  /** Split at the first double quote, dropping it. */
  function SplitAtQuote(s: string): (r: Option<(string, string)>)
    ensures r.Some? ==> s == r.value.0 + Quote + r.value.1 && '"' !in r.value.0
    ensures r.None? ==> '"' !in s
  {
    if s == [] then None
    else if s[0] == '"' then Some(([], s[1..]))
    else match SplitAtQuote(s[1..])
      case None => None
      case Some((a, b)) => Some(([s[0]] + a, b))
  }

  lemma {:induction false} SplitAtFirstQuote(t: string, rest: string)
    requires '"' !in t
    ensures SplitAtQuote(t + Quote + rest) == Some((t, rest))
  {
    if t == [] {
      assert t + Quote + rest == ['"'] + rest;
    } else {
      var s := t + Quote + rest;
      assert s[0] == t[0];
      assert s[1..] == t[1..] + Quote + rest;
      SplitAtFirstQuote(t[1..], rest);
      assert [t[0]] + t[1..] == t;
    }
  }

  predicate StartsWith(s: string, p: string)
  {
    |p| <= |s| && s[..|p|] == p
  }

  /** Take a fragment assembled from `m` apart again. */
  function Read(m: Markup, s: string): Option<ParsedAnchor>
  {
    var head := m.nvPicPrOpen + m.cNvPrOpen;
    if !StartsWith(s, head) then None
    else match SplitAtQuote(s[|head|..])
      case None => None
      case Some((idText, r1)) => ReadCNvPrRest(m, idText, r1)
  }

  /** The reader after the id's closing quote: the end of cNvPr or a click element. */
  function ReadCNvPrRest(m: Markup, idText: string, r1: string): Option<ParsedAnchor>
  {
    if r1 == m.descrSelfClose + m.Suffix() then Some(ParsedAnchor(idText, None))
    else
      var linkHead := m.descrOpenEnd + m.clickOpen;
      if !StartsWith(r1, linkHead) then None
      else match SplitAtQuote(r1[|linkHead|..])
        case None => None
        case Some((relIdText, r2)) => ReadClickRest(m, idText, relIdText, r2)
  }

  /** The reader after the relationship id's closing quote: with or without a tooltip. */
  function ReadClickRest(m: Markup, idText: string, relIdText: string, r2: string): Option<ParsedAnchor>
  {
    var tipTail := m.toolTipEnd + m.cNvPrClose + m.Suffix();
    if r2 == m.clickEnd + m.cNvPrClose + m.Suffix() then
      Some(ParsedAnchor(idText, Some(ParsedClick(relIdText, None))))
    else if StartsWith(r2, m.toolTipAttr) && |r2| >= |m.toolTipAttr| + |tipTail|
            && r2[|r2| - |tipTail|..] == tipTail then
      var tip := r2[|m.toolTipAttr|..|r2| - |tipTail|];
      Some(ParsedAnchor(idText, Some(ParsedClick(relIdText, Some(tip)))))
    else None
  }

  /** The reader for the fragments PicStartXml builds. */
  function ReadPicStart(s: string): Option<ParsedAnchor>
  {
    Read(PicMarkup, s)
  }

  /** What the fragment for `id` and `click` is expected to carry. */
  function Expected(id: int, click: Option<(Hyperlink, RelId)>): ParsedAnchor
  {
    match click
    case None => ParsedAnchor(IntText(id), None)
    case Some((PlainUri(_), relId)) => ParsedAnchor(IntText(id), Some(ParsedClick(RelIdText(relId), None)))
    case Some((ExcelHyperLink(_, tip), relId)) => ParsedAnchor(IntText(id), Some(ParsedClick(RelIdText(relId), Some(tip))))
  }

  /**
   * The facts about the pieces the reader relies on: the two cNvPr endings
   * differ at position 9 (` ` against `>`) and the two click endings at
   * position 1 (`/` against `t`).
   */
  predicate Distinguishable(m: Markup)
  {
    && |m.descrSelfClose| > 9 && |m.descrOpenEnd| > 9 && m.descrSelfClose[9] != m.descrOpenEnd[9]
    && |m.clickEnd| > 1 && |m.toolTipAttr| > 1 && m.clickEnd[1] != m.toolTipAttr[1]
  }

  lemma PicMarkupDistinguishable()
    ensures Distinguishable(PicMarkup)
  {
    assert DescrSelfClose[9] == ' ' && DescrOpenEnd[9] == '>';
    assert HlinkClickEnd[1] == '/' && ToolTipAttr[1] == 't';
  }

  lemma DropPrefix(p: string, x: string)
    ensures StartsWith(p + x, p)
    ensures (p + x)[|p|..] == x
  {
    assert (p + x)[..|p|] == p;
  }

  /** Reading the part after the id's closing quote when there is a click element. */
  lemma ReadAfterId(m: Markup, idText: string, relId: RelId, link: Hyperlink)
    requires Distinguishable(m)
    ensures ReadCNvPrRest(m, idText, AfterId(m, Some((link, relId))))
         == ReadClickRest(m, idText, RelIdText(relId), AfterRelId(m, link))
  {
    var linkHead := m.descrOpenEnd + m.clickOpen;
    var r1 := AfterId(m, Some((link, relId)));
    assert r1[9] == m.descrOpenEnd[9];
    assert (m.descrSelfClose + m.Suffix())[9] == m.descrSelfClose[9];
    DropPrefix(linkHead, RelIdText(relId) + Quote + AfterRelId(m, link));
    SplitAtFirstQuote(RelIdText(relId), AfterRelId(m, link));
  }

  /** Reading the part after the relationship id's closing quote of a tooltip click. */
  lemma ReadToolTip(m: Markup, idText: string, relIdText: string, uri: Uri, tip: string)
    requires Distinguishable(m)
    ensures ReadClickRest(m, idText, relIdText, AfterRelId(m, ExcelHyperLink(uri, tip)))
         == Some(ParsedAnchor(idText, Some(ParsedClick(relIdText, Some(tip)))))
  {
    var tipTail := m.toolTipEnd + m.cNvPrClose + m.Suffix();
    var r2 := AfterRelId(m, ExcelHyperLink(uri, tip));
    assert r2[1] == m.toolTipAttr[1];
    assert (m.clickEnd + m.cNvPrClose + m.Suffix())[1] == m.clickEnd[1];
    DropPrefix(m.toolTipAttr, tip + tipTail);
    DropPrefix(tip, tipTail);
    assert r2 == m.toolTipAttr + (tip + tipTail);
    assert r2[|r2| - |tipTail|..] == tipTail;
    assert r2[|m.toolTipAttr|..|r2| - |tipTail|] == tip;
  }

  /** Reading the id: its text, the closing quote and the rest, whatever the pieces. */
  lemma ReadId(m: Markup, id: int, click: Option<(Hyperlink, RelId)>)
    ensures Read(m, Assemble(m, id, click)) == ReadCNvPrRest(m, IntText(id), AfterId(m, click))
  {
    DropPrefix(m.nvPicPrOpen + m.cNvPrOpen, IntText(id) + Quote + AfterId(m, click));
    SplitAtFirstQuote(IntText(id), AfterId(m, click));
  }

  lemma ReadAssembledNoLink(m: Markup, id: int)
    ensures Read(m, Assemble(m, id, None)) == Some(Expected(id, None))
  {
    ReadId(m, id, None);
  }

  lemma ReadAssembledPlain(m: Markup, id: int, uri: Uri, relId: RelId)
    requires Distinguishable(m)
    ensures Read(m, Assemble(m, id, Some((PlainUri(uri), relId)))) == Some(Expected(id, Some((PlainUri(uri), relId))))
  {
    ReadId(m, id, Some((PlainUri(uri), relId)));
    ReadAfterId(m, IntText(id), relId, PlainUri(uri));
  }

  lemma ReadAssembledToolTip(m: Markup, id: int, uri: Uri, tip: string, relId: RelId)
    requires Distinguishable(m)
    ensures Read(m, Assemble(m, id, Some((ExcelHyperLink(uri, tip), relId))))
         == Some(Expected(id, Some((ExcelHyperLink(uri, tip), relId))))
  {
    ReadId(m, id, Some((ExcelHyperLink(uri, tip), relId)));
    ReadAfterId(m, IntText(id), relId, ExcelHyperLink(uri, tip));
    ReadToolTip(m, IntText(id), RelIdText(relId), uri, tip);
  }

  /** The round trip for any pieces the reader can tell apart. */
  lemma ReadAssembled(m: Markup, id: int, click: Option<(Hyperlink, RelId)>)
    requires Distinguishable(m)
    ensures Read(m, Assemble(m, id, click)) == Some(Expected(id, click))
  {
    match click {
      case None => ReadAssembledNoLink(m, id);
      case Some((PlainUri(uri), relId)) => ReadAssembledPlain(m, id, uri, relId);
      case Some((ExcelHyperLink(uri, tip), relId)) => ReadAssembledToolTip(m, id, uri, tip, relId);
    }
  }

  /**
   * PicStartXml's fragment carries exactly the drawing id; a click element
   * exactly when there is a hyperlink, naming its relationship; and a tooltip
   * exactly when the hyperlink is an ExcelHyperLink, whatever its text.
   */
  lemma ReadPicStartXml(id: int, click: Option<(Hyperlink, RelId)>)
    ensures ReadPicStart(PicStartXml(id, click)) == Some(Expected(id, click))
  {
    PicMarkupDistinguishable();
    ReadAssembled(PicMarkup, id, click);
  }

  predicate EndsWith(s: string, t: string)
  {
    |t| <= |s| && s[|s| - |t|..] == t
  }

  lemma EndsWithAppend(p: string, x: string, t: string)
    requires EndsWith(x, t)
    ensures EndsWith(p + x, t)
  {
    assert (p + x)[|p + x| - |t|..] == x[|x| - |t|..];
  }

  lemma AssembledFrame(m: Markup, id: int, click: Option<(Hyperlink, RelId)>)
    ensures var xml := Assemble(m, id, click);
            StartsWith(xml, m.nvPicPrOpen) && EndsWith(xml, m.Suffix())
  {
    var xml := Assemble(m, id, click);
    assert xml[..|m.nvPicPrOpen|] == (m.nvPicPrOpen + m.cNvPrOpen)[..|m.nvPicPrOpen|];
  }

  /** The fragment begins with the nvPicPr element and ends with the fixed suffix. */
  lemma PicStartXmlFrame(id: int, click: Option<(Hyperlink, RelId)>)
    ensures var xml := PicStartXml(id, click);
            StartsWith(xml, PicMarkup.nvPicPrOpen) && EndsWith(xml, PicMarkup.Suffix())
  {
    AssembledFrame(PicMarkup, id, click);
  }

  /** A text ending in `a + b + c` holds `b` where `a` ends. */
  lemma EndsWithMiddle(xml: string, a: string, b: string, c: string)
    requires EndsWith(xml, a + b + c)
    ensures var k := |xml| - |a + b + c| + |a|;
            0 <= k && k + |b| <= |xml| && xml[k..k + |b|] == b
  {
    var k := |xml| - |a + b + c| + |a|;
    assert xml[k..k + |b|] == (a + b + c)[|a|..|a| + |b|];
  }

  /** `xml` holds the pieces' embed placeholder right after the blip's opening text of its suffix. */
  predicate EmbedPlaceholderAt(m: Markup, xml: string)
  {
    var k := |xml| - |m.Suffix()| + |m.blipOpen|;
    0 <= k && k + |m.emptyEmbed| <= |xml| && xml[k..k + |m.emptyEmbed|] == m.emptyEmbed
  }

  /** Wherever the pieces come from, the placeholder sits right after the blip's opening text. */
  lemma AssembledEmbed(m: Markup, id: int, click: Option<(Hyperlink, RelId)>)
    ensures EmbedPlaceholderAt(m, Assemble(m, id, click))
  {
    AssembledFrame(m, id, click);
    EndsWithMiddle(Assemble(m, id, click), m.blipOpen, m.emptyEmbed, m.blipRest);
  }

  /**
   * Every fragment leaves the blip's embed reference empty (`r:embed=""`):
   * the caller patches it once the image relationship is known.
   */
  lemma EmbedLeftEmpty(id: int, click: Option<(Hyperlink, RelId)>)
    ensures PicMarkup.emptyEmbed == EmptyEmbed
    ensures EmbedPlaceholderAt(PicMarkup, PicStartXml(id, click))
  {
    AssembledEmbed(PicMarkup, id, click);
  }
}
