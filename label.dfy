/**
 * `create_label_html`: one product's label as an HTML fragment, and a reader
 * that takes such a fragment apart again.
 */
module Label {
  import opened Wrappers
  import opened Text
  import opened HtmlEscape
  import opened Price
  import opened Loader

  /** The fixed Arabic words: "only", "pound" and "instead of". */
  const Only: string := "فقط"
  const Pound: string := "جنيه"
  const InsteadOf: string := "بدلاً من"

  /** The fixed markup around the three slots, exactly as the label template lays it out. */
  const LabelOpen: string :=
    "\n" + Indent(16) + "<div class=\"label\">\n" + Indent(20) + "<div class=\"label-header\">"
  const BodyOpen: string :=
    "</div>\n" + Indent(20) + "<div class=\"label-body\">\n"
    + Indent(24) + "<span class=\"body-right\">" + Only + "</span>\n"
    + Indent(24) + "<span class=\"selling-price\">"
  const BodyClose: string :=
    "</span>\n" + Indent(24) + "<span class=\"body-left\">" + Pound + "</span>\n"
    + Indent(20) + "</div>"
  const LabelClose: string := "\n" + Indent(16) + "</div>"
  const FooterOpen: string :=
    "\n" + Indent(24) + "<div class=\"label-footer\">\n"
    + Indent(28) + "<span class=\"footer-right\">" + InsteadOf + "</span>\n"
    + Indent(28) + "<span class=\"regular-price\">"
  const FooterClose: string :=
    "</span>\n" + Indent(28) + "<span class=\"footer-left\">" + Pound + "</span>\n"
    + Indent(24) + "</div>"
  const EmptyFooter: string := "<div class=\"label-footer\"></div>"

  /** The footer block: the regular price when it is above 0, an empty footer div otherwise. */
  function FooterHtml(regular: int): string
  {
    if regular > 0 then FooterOpen + (FormatPrice(regular) + FooterClose) else EmptyFooter
  }

  /** `create_label_html(name, selling, regular)`: the slots in their fixed markup. */
  function LabelHtml(name: string, selling: int, regular: int): string
  {
    LabelOpen + (Escape(name) + (BodyOpen + (FormatPrice(selling) + (BodyClose + (FooterHtml(regular) + LabelClose)))))
  }

  /** The label of one loaded record. */
  function RecordLabel(r: Record): string
  {
    LabelHtml(r.name, r.selling, r.regular)
  }

  /** The three slots of a label, as text: header, selling price, and the regular price if shown. */
  datatype Slots = Slots(header: string, selling: string, regular: Option<string>)

  /** Takes a label fragment apart into its slots; `None` if it is not shaped like a label. */
  function ParseLabel(s: string): Option<Slots>
  {
    if HasPrefix(s, LabelOpen) then ParseFromHeader(s[|LabelOpen|..]) else None
  }

  /** The header text runs up to the first `<`, where the body must begin. */
  function ParseFromHeader(s: string): Option<Slots>
  {
    var header := TakeUntil(s, '<');
    var rest := s[|header|..];
    if HasPrefix(rest, BodyOpen) then ParseFromSelling(header, rest[|BodyOpen|..]) else None
  }

  /** The selling price runs up to the first `<`, where the rest of the body must begin. */
  function ParseFromSelling(header: string, s: string): Option<Slots>
  {
    var selling := TakeUntil(s, '<');
    var rest := s[|selling|..];
    if !HasPrefix(rest, BodyClose) then None
    else
      match ParseFooter(rest[|BodyClose|..])
      case None => None
      case Some(regular) => Some(Slots(header, selling, regular))
  }

  /**
   * The end of a label: `Some(None)` for the empty footer, `Some(Some(text))`
   * for a footer showing `text`, `None` for anything else.
   */
  function ParseFooter(s: string): Option<Option<string>>
  {
    if s == EmptyFooter + LabelClose then Some(None)
    else if HasPrefix(s, FooterOpen) then
      var rest := s[|FooterOpen|..];
      var regular := TakeUntil(rest, '<');
      if rest[|regular|..] == FooterClose + LabelClose then Some(Some(regular)) else None
    else None
  }

  /** What a reader of the label sees: the product name, the selling price, the regular price if shown. */
  datatype Reading = Reading(name: string, selling: int, regular: Option<int>)

  /** Reads a label back: slots, then unescaping and price parsing. */
  function ReadLabel(s: string): Option<Reading>
  {
    match ParseLabel(s)
    case None => None
    case Some(slots) =>
      match (ParsePrice(slots.selling), slots.regular)
      case (None, _) => None
      case (Some(sp), None) => Some(Reading(Unescape(slots.header), sp, None))
      case (Some(sp), Some(text)) =>
        match ParsePrice(text)
        case None => None
        case Some(rp) => Some(Reading(Unescape(slots.header), sp, Some(rp)))
  }

  lemma NoMarkupInPrice(c: int)
    ensures '<' !in FormatPrice(c)
  {
  }

  /** A footer showing `<`-free text is read back as that text. */
  lemma FooterStep(rp: string)
    requires '<' !in rp
    ensures ParseFooter(FooterOpen + (rp + FooterClose) + LabelClose) == Some(Some(rp))
  {
    var rest := rp + (FooterClose + LabelClose);
    var s := FooterOpen + rest;
    assert FooterOpen + (rp + FooterClose) + LabelClose == s;
    assert FooterOpen[0] == '\n' && EmptyFooter[0] == '<';
    DifferentStarts(FooterOpen, rest, EmptyFooter, LabelClose);
    assert s[|FooterOpen|..] == rest;
    assert FooterClose[0] == '<';
    TakeUntilStops(rp, '<', FooterClose + LabelClose);
    assert rest[|rp|..] == FooterClose + LabelClose;
  }

  lemma ParseRenderedFooter(regular: int)
    ensures ParseFooter(FooterHtml(regular) + LabelClose)
      == Some(if regular > 0 then Some(FormatPrice(regular)) else None)
  {
    if regular > 0 {
      NoMarkupInPrice(regular);
      FooterStep(FormatPrice(regular));
    } else {
      EmptyFooterStep();
    }
  }

  /** The empty footer is read back as no regular price. */
  lemma EmptyFooterStep()
    ensures ParseFooter(EmptyFooter + LabelClose) == Some(None)
  {
  }

  /** After a `<`-free header, the body markup is consumed whole. */
  lemma HeaderStep(h: string, rest: string)
    requires '<' !in h
    ensures ParseFromHeader(h + (BodyOpen + rest)) == ParseFromSelling(h, rest)
  {
    assert BodyOpen[0] == '<';
    TakeUntilStops(h, '<', BodyOpen + rest);
    assert (h + (BodyOpen + rest))[|h|..] == BodyOpen + rest;
    assert (BodyOpen + rest)[|BodyOpen|..] == rest;
  }

  /** After a `<`-free selling price, the closing body markup is consumed whole. */
  lemma SellingStep(header: string, sp: string, rest: string)
    requires '<' !in sp
    ensures ParseFromSelling(header, sp + (BodyClose + rest))
      == match ParseFooter(rest)
         case None => None
         case Some(regular) => Some(Slots(header, sp, regular))
  {
    var tail := BodyClose + rest;
    assert BodyClose[0] == '<';
    TakeUntilStops(sp, '<', tail);
    assert (sp + tail)[|sp|..] == tail;
    assert tail[|BodyClose|..] == rest;
  }

  lemma ParseRenderedSelling(header: string, selling: int, regular: int)
    ensures ParseFromSelling(header, FormatPrice(selling) + (BodyClose + (FooterHtml(regular) + LabelClose)))
      == Some(Slots(header, FormatPrice(selling), if regular > 0 then Some(FormatPrice(regular)) else None))
  {
    NoMarkupInPrice(selling);
    SellingStep(header, FormatPrice(selling), FooterHtml(regular) + LabelClose);
    ParseRenderedFooter(regular);
  }

  lemma ParseRenderedHeader(name: string, selling: int, regular: int)
    ensures ParseFromHeader(Escape(name) + (BodyOpen + (FormatPrice(selling) + (BodyClose + (FooterHtml(regular) + LabelClose)))))
      == Some(Slots(Escape(name), FormatPrice(selling), if regular > 0 then Some(FormatPrice(regular)) else None))
  {
    EscapedIsInert(name);
    HeaderStep(Escape(name), FormatPrice(selling) + (BodyClose + (FooterHtml(regular) + LabelClose)));
    ParseRenderedSelling(Escape(name), selling, regular);
  }

  /** The opening markup of a label is consumed whole. */
  lemma OpenStep(body: string)
    ensures ParseLabel(LabelOpen + body) == ParseFromHeader(body)
  {
    assert (LabelOpen + body)[|LabelOpen|..] == body;
  }

  /**
   * The slots of a rendered label are the escaped name and the printed prices;
   * the regular-price slot is there exactly when the regular price is above 0.
   */
  lemma ParseRenderedLabel(name: string, selling: int, regular: int)
    ensures ParseLabel(LabelHtml(name, selling, regular))
      == Some(Slots(Escape(name), FormatPrice(selling), if regular > 0 then Some(FormatPrice(regular)) else None))
  {
    OpenStep(Escape(name) + (BodyOpen + (FormatPrice(selling) + (BodyClose + (FooterHtml(regular) + LabelClose)))));
    ParseRenderedHeader(name, selling, regular);
  }

  /**
   * Reading a rendered label gives back the product name exactly (escaping can
   * never change the label's structure), the selling price, and the regular
   * price precisely when it is above 0.
   */
  lemma ReadRenderedLabel(name: string, selling: int, regular: int)
    ensures ReadLabel(LabelHtml(name, selling, regular))
      == Some(Reading(name, selling, if regular > 0 then Some(regular) else None))
  {
    ParseRenderedLabel(name, selling, regular);
    UnescapeEscape(name);
    PriceRoundTrip(selling);
    PriceRoundTrip(regular);
  }
}
