/** The crate root of the wasmdome protocol: the RPC operation name, the
    unsigned 32-bit integers the wire shapes carry, the identity record of a
    connected mech, and the optional value the router takes. */
module Protocol {

  /** Rust's `u32`: every counter and dimension on the wire is one. */
  newtype U32 = x: int | 0 <= x < 0x1_0000_0000

  /** The operation name other transports put on the `TakeTurn` exchange.
      It is a fixed string, never derived from anything. */
  const OpTakeTurn: string := "wdTakeTurn"

  /** Identity of a connected actor ("mech"); `id` is the opaque actor
      identifier every later message refers to. */
  datatype MechInfo = MechInfo(name: string, avatar: string, team: string, id: string)

  /** Rust's `Option`, used for the optional match id of an events subject. */
  datatype Option<+T> = None | Some(value: T)
}
