/** The text the Kraken book checksum is computed over. The CRC itself stays a parameter of the engine. */
module Checksum {
  import opened Common

  function RemoveDots(s: string): string {
    if s == "" then ""
    else (if s[0] == '.' then "" else [s[0]]) + RemoveDots(s[1..])
  }

  function TrimZeros(s: string): string {
    if s != "" && s[0] == '0' then TrimZeros(s[1..]) else s
  }

  /** The wire decimal without its point and without leading zeros. */
  function FmtVal(s: string): string {
    TrimZeros(RemoveDots(s))
  }

  /** A level as it enters the checksum: its price and size strings. */
  type Pair = (string, string)

  function Pairs(s: seq<Level>): seq<Pair> {
    seq(|s|, i requires 0 <= i < |s| => (s[i].priceStr, s[i].qtyStr))
  }

  function Tokens(s: seq<Pair>): string {
    if s == [] then ""
    else Tokens(s[..|s| - 1]) + FmtVal(s[|s| - 1].0) + FmtVal(s[|s| - 1].1)
  }

  /** All ask tokens, cheapest first, then all bid tokens, dearest first. */
  method BookChecksum(asks: seq<Pair>, bids: seq<Pair>, crc: string -> Uint32) returns (sum: Uint32)
    ensures sum == crc(Tokens(asks) + Tokens(bids))
  {
    var b := "";
    for i := 0 to |asks|
      invariant b == Tokens(asks[..i])
    {
      assert asks[..i + 1][..i] == asks[..i];
      b := b + FmtVal(asks[i].0);
      b := b + FmtVal(asks[i].1);
    }
    assert asks[..|asks|] == asks;
    for i := 0 to |bids|
      invariant b == Tokens(asks) + Tokens(bids[..i])
    {
      assert bids[..i + 1][..i] == bids[..i];
      b := b + FmtVal(bids[i].0);
      b := b + FmtVal(bids[i].1);
    }
    assert bids[..|bids|] == bids;
    sum := crc(b);
  }
}
