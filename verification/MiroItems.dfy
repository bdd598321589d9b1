/** Board items and the height their text needs (backend/agent/miro_generation.py). */
module MiroItems {
  import opened MiroText
  import opened Results

  datatype Kind = Text | Shape | StickyNote | Frame | Line | Connector | Freehand | Other(name: string)

  datatype Id = Id(text: string)

  datatype Style = Style(fontSize: Option<real>, bold: bool)

  /** A board item; `None` stands for a missing field. */
  datatype Item = Item(
    id: Id, kind: Kind, parent: Option<Id>,
    x: Option<real>, y: Option<real>, width: Option<real>, height: Option<real>, zIndex: Option<real>,
    content: string, style: Style)
  {
    function X(): real { if x.Some? then x.value else 0.0 }
    function Y(): real { if y.Some? then y.value else 0.0 }
    function Width(): real { Max(if width.Some? then width.value else 1.0, 1.0) }
    function Height(): real { if height.Some? then height.value else 1.0 }
    function FontSize(): real {
      if style.fontSize.Some? && style.fontSize.value != 0.0 then style.fontSize.value else 14.0
    }
  }

  function LineHeight(item: Item): real {
    item.FontSize() * if item.kind == Text then 1.45 else 1.35
  }

  function Padding(item: Item): int {
    (match item.kind
     case Text => if item.style.bold then 18 else 14
     case Shape => if item.style.bold then 30 else 24
     case _ => if item.style.bold then 28 else 24)
    + (if '\n' in item.content then 6 else 0)
    + (if |item.content| > 120 then 8 else 0)
  }

  predicate HoldsText(kind: Kind) {
    kind.Text? || kind.Shape? || kind.StickyNote?
  }

  function TextHeight(lines: nat, lineHeight: real, padding: int): real {
    lines as real * lineHeight + padding as real
  }

  function HeightFor(given: real, text: real): (h: real)
    ensures h >= given && h >= text
  {
    Max(given, Ceil(text) as real)
  }

  function Lines(item: Item): nat {
    WrappedLines(item.content, item.Width() - 24.0, item.FontSize())
  }

  /** Room for all the lines and the padding, and never less than the old height. */
  function EstimatedHeight(item: Item): (h: real)
    ensures h >= item.Height()
    ensures HoldsText(item.kind) ==> h >= TextHeight(Lines(item), LineHeight(item), Padding(item))
  {
    if !HoldsText(item.kind) then item.Height()
    else HeightFor(item.Height(), TextHeight(Lines(item), LineHeight(item), Padding(item)))
  }

  method EstimateItemHeight(item: Item) returns (h: real)
    ensures h == EstimatedHeight(item)
  {
    if !HoldsText(item.kind) { return item.Height(); }
    var lines := CountWrappedLines(item.content, item.Width() - 24.0, item.FontSize());
    var padding := if item.kind == Text then (if item.style.bold then 18 else 14)
                   else if item.kind == Shape then (if item.style.bold then 30 else 24)
                   else (if item.style.bold then 28 else 24);
    if '\n' in item.content { padding := padding + 6; }
    if |item.content| > 120 { padding := padding + 8; }
    h := HeightFor(item.Height(), TextHeight(lines, LineHeight(item), padding));
  }
}
