/** System.Array.Copy, used by the trimmer and by the PCM16 converter. */
module ArrayCopy {

  /**
   * Copies `length` elements of `source`, starting at `sourceIndex`, into
   * `destination` starting at `destinationIndex`; the other cells keep their
   * values.
   */
  method Copy<T>(source: seq<T>, sourceIndex: nat, destination: array<T>, destinationIndex: nat, length: nat)
    requires sourceIndex + length <= |source|
    requires destinationIndex + length <= destination.Length
    modifies destination
    ensures forall m :: destinationIndex <= m < destinationIndex + length ==>
      destination[m] == source[sourceIndex + (m - destinationIndex)]
    ensures forall m :: 0 <= m < destination.Length && !(destinationIndex <= m < destinationIndex + length) ==>
      destination[m] == old(destination[m])
  {
    var k := 0;
    while k < length
      invariant 0 <= k <= length
      invariant forall m :: destinationIndex <= m < destinationIndex + k ==>
        destination[m] == source[sourceIndex + (m - destinationIndex)]
      invariant forall m :: 0 <= m < destination.Length && !(destinationIndex <= m < destinationIndex + k) ==>
        destination[m] == old(destination[m])
    {
      destination[destinationIndex + k] := source[sourceIndex + k];
      k := k + 1;
    }
  }
}
