/** Positioned glyphs of a PDF page: a box and the text in it. Coordinates are reals, and y grows upward on the page. */
module Glyphs {

  /** `ch` is the text pdfium reports for the glyph. */
  datatype Glyph = Glyph(x0: real, y0: real, x1: real, y1: real, ch: string)

  /** Page extraction swaps reversed box edges, so every glyph is well-formed. */
  predicate Boxed(g: Glyph) {
    g.x0 <= g.x1 && g.y0 <= g.y1
  }

  predicate AllBoxed(gs: seq<Glyph>) {
    forall g :: g in gs ==> Boxed(g)
  }

  function X0(g: Glyph): real { g.x0 }

  function MidX(g: Glyph): real { (g.x0 + g.x1) / 2.0 }

  function MidY(g: Glyph): real { (g.y0 + g.y1) / 2.0 }

  function Max(a: real, b: real): real { if a >= b then a else b }

  function Min(a: real, b: real): real { if a <= b then a else b }
}
