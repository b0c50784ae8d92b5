/** Shared vocabulary: an optional value and raw PCM audio. */
module Common {
  datatype Option<+T> = None | Some(value: T)

  newtype byte = x: int | 0 <= x < 256

  type Pcm = seq<byte>
}
