/**
 * The letterbox arithmetic of `convert_ipl_to_image`: the symmetric
 * integer border that pads a resized frame towards the network input
 * size, and the size the padded frame ends up with.
 */
module Letterbox {

  function Abs(x: int): (r: nat)
    ensures r == x || r == -x
  {
    if x < 0 then -x else x
  }

  /** `abs(resized - network) / 2`: the border added on each side of one axis. */
  function Border(resized: int, network: int): (b: nat)
    ensures 2 * b <= Abs(resized - network) < 2 * b + 2
  {
    Abs(resized - network) / 2
  }

  /** The length of one axis after `copyMakeBorder` adds the border on both sides. */
  function PaddedSize(resized: int, network: int): (p: int)
    ensures p >= resized && (p - resized) % 2 == 0
    ensures resized <= network ==> network - 1 <= p <= network
    ensures resized >= network ==> p >= network
  {
    resized + 2 * Border(resized, network)
  }

  /**
   * A resized axis no longer than the network's is padded up to the
   * network's length exactly when the gap is even, and otherwise to one
   * pixel short of it.
   */
  lemma PaddedSizeFits(resized: int, network: int)
    requires resized <= network
    ensures PaddedSize(resized, network) == network || PaddedSize(resized, network) == network - 1
    ensures PaddedSize(resized, network) == network <==> (network - resized) % 2 == 0
  {
  }

  /**
   * A resized axis longer than the network's is never cut back: the
   * border still pads it, so the padded frame overshoots the network's
   * input size.
   */
  lemma PaddedSizeOverflows(resized: int, network: int)
    requires resized > network
    ensures PaddedSize(resized, network) > network
    ensures PaddedSize(resized, network) >= resized
  {
  }

  /** An axis already at the network's length gets no border. */
  lemma NoBorderAtNetworkSize(network: int)
    ensures Border(network, network) == 0 && PaddedSize(network, network) == network
  {
  }
}
