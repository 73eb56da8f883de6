/** What the encoder and the decoder have in common. */
module Machines {
  datatype FrameKind = RequestFrame | ResponseFrame

  /** What serde is inside of. */
  datatype Container = Struct(name: string) | StructVariant(name: string, variant: string) | Enum(name: string)
}
