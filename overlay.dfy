/** The shapes the controllers draw their highlight overlay with. */
module Overlay {
  /** A highlighted range and the part name it is drawn with. */
  datatype Annotation = Annotation(name: string, start: int, end: int)

  /** One overlay row: the text before the highlighted span, the span's own text, and the text after. */
  datatype Projection = Projection(prefix: string, span: string, suffix: string)
}
