/** The byte strings that paths, names and stream contents are made of. */
module Bytes {
  type byte = bv8
  type bytes = seq<byte>

  const NUL: byte := 0
  const DOT: byte := 46
  const SLASH: byte := 47

  datatype Option<+T> = None | Some(value: T)

  /** Copies a byte string into `target` starting at index `at`. */
  method Copy(target: array<byte>, at: nat, data: bytes)
    requires at + |data| <= target.Length
    modifies target
    ensures forall i :: 0 <= i < |data| ==> target[at + i] == data[i]
    ensures forall i :: 0 <= i < at || at + |data| <= i < target.Length ==> target[i] == old(target[i])
  {
    forall i | 0 <= i < |data| {
      target[at + i] := data[i];
    }
  }
}
