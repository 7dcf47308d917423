/** The colour stored in every cell of the map. The model only ever compares
    colours for equality, so the four channels are kept as reals. */
module Colors {

  datatype Color = Color(r: real, g: real, b: real, a: real)

  /** Opaque white, the colour every cell starts with. */
  const WHITE: Color := Color(1.0, 1.0, 1.0, 1.0)
}
