/** The fixed list of bitrate variants the player offers. */
module Config {
  /** The bitrates in kbit/s as the source lists them, before `.reverse()`. */
  const AscendingBitrates: seq<nat> := [2, 6, 10, 16, 32, 64, 96, 128, 192, 512]

  /** `Array.prototype.reverse`: the element at `i` moves to `|s| - 1 - i`. */
  function Reverse<T>(s: seq<T>): (r: seq<T>)
    ensures |r| == |s|
    ensures forall i :: 0 <= i < |s| ==> r[i] == s[|s| - 1 - i]
  {
    if s == [] then [] else Reverse(s[1..]) + [s[0]]
  }

  /** `BITRATES`: the variants offered, highest bitrate first. */
  const Bitrates: seq<nat> := Reverse(AscendingBitrates)

  /** There are ten variants, listed in strictly descending order starting at 512 kbit/s. */
  lemma BitratesDescending()
    ensures |Bitrates| == 10
    ensures Bitrates[0] == 512 && Bitrates[9] == 2
    ensures forall i, j :: 0 <= i < j < |Bitrates| ==> Bitrates[i] > Bitrates[j]
  {
    assert forall i, j :: 0 <= i < j < |AscendingBitrates| ==> AscendingBitrates[i] < AscendingBitrates[j];
  }
}
