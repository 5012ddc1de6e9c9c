/** Fixed-width integers, the option type, and the value types shared by every component. */
module Common {

  datatype Option<+T> = None | Some(value: T)

  const MAX_INT64: int := 0x7FFF_FFFF_FFFF_FFFF
  const MIN_INT64: int := -0x8000_0000_0000_0000
  const TWO64: int := 0x1_0000_0000_0000_0000

  type Int64 = x: int | MIN_INT64 <= x <= MAX_INT64
  type Uint64 = x: int | 0 <= x < TWO64
  type Uint32 = x: int | 0 <= x < 0x1_0000_0000

  /** The int64 a Go program holds after computing x: two's-complement wrap-around. */
  function Wrap64(x: int): (r: Int64)
    ensures MIN_INT64 <= x <= MAX_INT64 ==> r == x
    ensures (x - r) % TWO64 == 0
  {
    var w := x % TWO64;
    assert (x - w) % TWO64 == 0;
    if w > MAX_INT64 then w - TWO64 else w
  }

  lemma ShiftKeepsResidue(x: int, k: int)
    ensures (x + k * 0x1_0000_0000_0000_0000) % 0x1_0000_0000_0000_0000 == x % 0x1_0000_0000_0000_0000
  {
  }

  /** Wrapping after each addition or only at the end is the same. */
  lemma WrapAdd(x: int, y: int)
    ensures Wrap64(Wrap64(x) + y) == Wrap64(x + y)
  {
    var k := (x - Wrap64(x)) / TWO64;
    ShiftKeepsResidue(Wrap64(x) + y, k);
    assert x + y == Wrap64(x) + y + k * TWO64;
  }

  /** Go's conversion uint64(x). */
  function ToUint64(x: Int64): Uint64 {
    if x < 0 then x + TWO64 else x
  }

  /** Go's integer division and remainder, which truncate toward zero. */
  function TruncDiv(a: int, b: int): int
    requires b > 0
  {
    if a >= 0 then a / b else -((-a) / b)
  }

  function TruncMod(a: int, b: int): int
    requires b > 0
  {
    a - b * TruncDiv(a, b)
  }

  function Min(a: int, b: int): int { if a <= b then a else b }

  function Max(a: int, b: int): int { if a >= b then a else b }

  /** Fixed-point denominator of Price and Qty: 8 decimal places. */
  const SCALE: int := 100_000_000

  type Price = Int64
  type Qty = Int64

  /** A venue is a byte; two of its values are named. */
  type Venue = v: int | 0 <= v < 256
  const COINBASE: Venue := 0
  const KRAKEN: Venue := 1

  datatype Side = Bid | Ask

  /** One price level. The strings are the exact decimals the venue sent. */
  datatype Level = Level(price: Price, qty: Qty, priceStr: string, qtyStr: string)

  /** An event kind is a byte too: `KindOther` stands for the values without a name. */
  datatype EventKind = KindSnapshot | KindUpdate | KindTrade | KindOther

  datatype Event = Event(venue: Venue, kind: EventKind, bids: seq<Level>, asks: seq<Level>, checksum: Uint32)

  /** One record of a tape: an event, or the number of events lost. */
  datatype Record = Record(wall: int, gap: nat, event: Event)

  /** The events of a tape, in order. */
  function EventsOf(tape: seq<Record>): seq<Event> {
    if tape == [] then []
    else
      var last := tape[|tape| - 1];
      EventsOf(tape[..|tape| - 1]) + if last.gap > 0 then [] else [last.event]
  }
}
