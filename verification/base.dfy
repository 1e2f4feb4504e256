/** Shared vocabulary of the model: optional values and raw audio bytes. */
module Base {

  /** Python's `None`-or-value, used for the phrase timestamp, the selected device and engine outcomes. */
  datatype Option<+T> = None | Some(value: T)

  /** One byte of little-endian 16-bit PCM audio, as delivered by the capture callback. */
  newtype byte = x: int | 0 <= x < 256

  /** One raw chunk pushed onto the capture queue by the background recorder: whole
      16-bit samples, so always an even number of bytes. */
  type Chunk = c: seq<byte> | |c| % 2 == 0
}
