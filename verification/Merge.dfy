/** Building one consolidated ladder out of per-venue levels, and splitting a walk's cost by venue. */
module Merge {
  import opened Common
  import opened ExecCost

  type PerVenue = map<Venue, seq<Level>>

  /** How often a price and size occur together in a list of levels. */
  function CountIn(lvs: seq<Level>, p: Price, q: Qty): nat {
    if lvs == [] then 0
    else
      var last := lvs[|lvs| - 1];
      CountIn(lvs[..|lvs| - 1], p, q) + if last.price == p && last.qty == q then 1 else 0
  }

  /** How often x is among venue v's levels that are liquidity. */
  function Gathered(v: Venue, lvs: seq<Level>, x: VenueLevel): nat {
    if x.venue == v && x.price > 0 && x.qty > 0 then CountIn(lvs, x.price, x.qty) else 0
  }

  /** How often x belongs on the ladder: as often as its own venue lists it, and never unless price and size are positive. */
  function Offered(per: PerVenue, x: VenueLevel): nat {
    if x.venue in per then Gathered(x.venue, per[x.venue], x) else 0
  }

  /** Price first, then size descending, then venue. */
  predicate Before(side: Side, a: VenueLevel, b: VenueLevel) {
    if a.price != b.price then (if side == Ask then a.price < b.price else a.price > b.price)
    else if a.qty != b.qty then a.qty > b.qty
    else a.venue < b.venue
  }

  ghost predicate Sorted(side: Side, l: Ladder) {
    forall i, j :: 0 <= i < j < |l| ==> !Before(side, l[j], l[i])
  }

  /** l is the consolidated ladder of per. */
  ghost predicate IsMerge(side: Side, per: PerVenue, l: Ladder) {
    Sorted(side, l) && forall x :: multiset(l)[x] == Offered(per, x)
  }

  function Insert(side: Side, l: Ladder, x: VenueLevel): Ladder {
    if l == [] || Before(side, x, l[0]) then [x] + l else [l[0]] + Insert(side, l[1..], x)
  }

  lemma BeforeTransitive(side: Side, a: VenueLevel, b: VenueLevel, c: VenueLevel)
    requires Before(side, a, b) && Before(side, b, c)
    ensures Before(side, a, c)
  {
  }

  lemma StaysBehind(side: Side, a: VenueLevel, b: VenueLevel, c: VenueLevel)
    requires !Before(side, a, c) && Before(side, b, c)
    ensures !Before(side, a, b)
  {
    if Before(side, a, b) {
      BeforeTransitive(side, a, b, c);
    }
  }

  lemma {:induction false} InsertAdds(side: Side, l: Ladder, x: VenueLevel)
    ensures multiset(Insert(side, l, x)) == multiset(l) + multiset{x}
  {
    if l != [] {
      InsertAdds(side, l[1..], x);
      assert l == [l[0]] + l[1..];
    }
  }

  lemma OneSorted(side: Side, x: VenueLevel)
    ensures Sorted(side, [x])
  {
  }

  /** A level nothing on a sorted ladder comes before goes to its front. */
  lemma FrontSorted(side: Side, x: VenueLevel, l: Ladder)
    requires Sorted(side, l) && forall k :: 0 <= k < |l| ==> !Before(side, l[k], x)
    ensures Sorted(side, [x] + l)
  {
    hide Before;
    var all := [x] + l;
    forall i, j | 0 <= i < j < |all| ensures !Before(side, all[j], all[i]) {
      assert all[j] == l[j - 1];
      if i > 0 { assert all[i] == l[i - 1]; }
    }
  }

  lemma TailSorted(side: Side, l: Ladder)
    requires Sorted(side, l) && l != []
    ensures Sorted(side, l[1..]) && forall k :: 0 <= k < |l[1..]| ==> !Before(side, l[1..][k], l[0])
  {
    hide Before;
  }

  lemma {:induction false} InsertSorts(side: Side, l: Ladder, x: VenueLevel)
    requires Sorted(side, l)
    ensures Sorted(side, Insert(side, l, x))
  {
    hide Before, Sorted;
    if l == [] {
      assert [x] + l == [x];
      OneSorted(side, x);
    } else {
      TailSorted(side, l);
      if Before(side, x, l[0]) {
        forall i | 0 <= i < |l| ensures !Before(side, l[i], x) {
          assert i > 0 ==> l[i] == l[1..][i - 1];
          NeverBeforeItself(side, l[0]);
          StaysBehind(side, l[i], x, l[0]);
        }
        FrontSorted(side, x, l);
      } else {
        var rest := Insert(side, l[1..], x);
        InsertSorts(side, l[1..], x);
        InsertAdds(side, l[1..], x);
        forall k | 0 <= k < |rest| ensures !Before(side, rest[k], l[0]) {
          assert rest[k] in multiset(rest);
        }
        FrontSorted(side, l[0], rest);
      }
    }
  }

  lemma NeverBeforeItself(side: Side, a: VenueLevel)
    ensures !Before(side, a, a)
  {
  }

  /** Any sort that uses the comparator; the one of the library need not be stable. */
  method SortLadder(side: Side, s: Ladder) returns (l: Ladder)
    ensures multiset(l) == multiset(s) && Sorted(side, l)
  {
    l := [];
    for i := 0 to |s|
      invariant multiset(l) == multiset(s[..i]) && Sorted(side, l)
    {
      assert s[..i + 1] == s[..i] + [s[i]];
      InsertSorts(side, l, s[i]);
      InsertAdds(side, l, s[i]);
      l := Insert(side, l, s[i]);
    }
    assert s[..|s|] == s;
  }

  /** One venue's levels that are liquidity: deletions and non-positive prices are skipped. */
  method Collect(v: Venue, lvs: seq<Level>, ladder: Ladder) returns (l: Ladder)
    ensures forall x :: multiset(l)[x] == multiset(ladder)[x] + Gathered(v, lvs, x)
  {
    l := ladder;
    for i := 0 to |lvs|
      invariant forall x :: multiset(l)[x] == multiset(ladder)[x] + Gathered(v, lvs[..i], x)
    {
      assert lvs[..i + 1][..i] == lvs[..i];
      if lvs[i].qty <= 0 || lvs[i].price <= 0 {
        continue;
      }
      l := l + [VenueLevel(v, lvs[i].price, lvs[i].qty)];
    }
    assert lvs[..|lvs|] == lvs;
  }

  /** Collects venue by venue, in whatever order the map gives them, then sorts. */
  method Merge(side: Side, per: PerVenue) returns (l: Ladder)
    ensures IsMerge(side, per, l)
  {
    l := [];
    var left := per.Keys;
    while left != {}
      invariant left <= per.Keys
      invariant forall x :: multiset(l)[x] == if x.venue in left then 0 else Offered(per, x)
    {
      var v :| v in left;
      l := Collect(v, per[v], l);
      left := left - {v};
    }
    l := SortLadder(side, l);
  }

  /** The comparator is total on all fields: elements neither of which comes before the other are equal. */
  lemma BeforeTotal(side: Side, a: VenueLevel, b: VenueLevel)
    requires !Before(side, a, b) && !Before(side, b, a)
    ensures a == b
  {
  }

  /** Two sorted arrangements of the same elements start alike. */
  lemma {:induction false} SameHead(side: Side, a: Ladder, b: Ladder)
    requires Sorted(side, a) && Sorted(side, b) && multiset(a) == multiset(b) && a != [] && b != []
    ensures a[0] == b[0]
  {
    hide Before;
    if a[0] != b[0] {
      assert a[0] in multiset(b) && b[0] in multiset(a);
      var i :| 0 <= i < |b| && b[i] == a[0];
      var j :| 0 <= j < |a| && a[j] == b[0];
      BeforeTotal(side, a[0], b[0]);
    }
  }

  lemma TailElements(l: Ladder)
    requires l != []
    ensures multiset(l[1..]) == multiset(l) - multiset{l[0]}
  {
    assert l == [l[0]] + l[1..];
  }

  lemma {:induction false} SortedUnique(side: Side, a: Ladder, b: Ladder)
    requires Sorted(side, a) && Sorted(side, b) && multiset(a) == multiset(b)
    ensures a == b
  {
    hide Before;
    assert |a| == |multiset(a)| == |multiset(b)| == |b|;
    if a != [] {
      SameHead(side, a, b);
      TailElements(a);
      TailElements(b);
      SortedUnique(side, a[1..], b[1..]);
      assert a == [a[0]] + a[1..] && b == [b[0]] + b[1..];
    }
  }

  /** So the consolidated ladder does not depend on the map's order or on the sort. */
  lemma {:induction false} MergeUnique(side: Side, per: PerVenue, a: Ladder, b: Ladder)
    requires IsMerge(side, per, a) && IsMerge(side, per, b)
    ensures a == b
  {
    assert multiset(a) == multiset(b);
    SortedUnique(side, a, b);
  }

  /** And a walk of it never finds it unsorted or meets a level without liquidity. */
  lemma {:induction false} MergeWalks(side: Side, per: PerVenue, l: Ladder)
    requires IsMerge(side, per, l)
    ensures Positive(l) && BestFirst(side, l)
  {
    forall i | 0 <= i < |l| ensures l[i].price > 0 && l[i].qty > 0 {
      assert l[i] in multiset(l);
      assert Offered(per, l[i]) > 0;
    }
  }

  // ---------- The per-venue split of a walk's notional ----------

  function NotionalOn(fills: seq<Fill>, v: Venue): int {
    if fills == [] then 0
    else
      var last := fills[|fills| - 1];
      NotionalOn(fills[..|fills| - 1], v) + if last.venue == v then Floor(last) else 0
  }

  /** m holds every venue's share of the notional, wrapped to int64. */
  ghost predicate VenueNotionals(fills: seq<Fill>, m: map<Venue, Int64>) {
    && (forall v :: v in m <==> exists k :: 0 <= k < |fills| && fills[k].venue == v)
    && (forall v :: v in m ==> m[v] == Wrap64(NotionalOn(fills, v)))
  }

  /** A Go map read: a missing key reads as zero. */
  function Held(m: map<Venue, Int64>, v: Venue): int {
    if v in m then m[v] else 0
  }

  lemma {:induction false} NoNotional(fills: seq<Fill>, v: Venue)
    requires forall k :: 0 <= k < |fills| ==> fills[k].venue != v
    ensures NotionalOn(fills, v) == 0
  {
    if fills != [] {
      NoNotional(fills[..|fills| - 1], v);
    }
  }

  lemma {:induction false} AddNotional(fills: seq<Fill>, f: Fill, m: map<Venue, Int64>)
    requires VenueNotionals(fills, m)
    ensures VenueNotionals(fills + [f], m[f.venue := Wrap64(Held(m, f.venue) + Floor(f))])
  {
    hide Wrap64, Floor;
    var all := fills + [f];
    assert all[..|fills|] == fills && all[|fills|] == f;
    WrapAdd(NotionalOn(fills, f.venue), Floor(f));
    if f.venue !in m { NoNotional(fills, f.venue); }
    forall v ensures (exists k :: 0 <= k < |all| && all[k].venue == v) <==> v == f.venue || v in m {
      if v in m {
        var k :| 0 <= k < |fills| && fills[k].venue == v;
        assert all[k].venue == v;
      }
    }
  }

  /** Reprices every fill and adds it to its venue; fails when a fill cannot be priced. */
  method NotionalByVenue(fills: seq<Fill>) returns (r: Option<map<Venue, Int64>>)
    requires Positive(fills)
    ensures r.Some? <==> forall k :: 0 <= k < |fills| ==> Floor(fills[k]) <= MAX_INT64
    ensures r.Some? ==> VenueNotionals(fills, r.value)
  {
    hide Wrap64, Floor;
    var m: map<Venue, Int64> := map[];
    for i := 0 to |fills|
      invariant forall k :: 0 <= k < i ==> Floor(fills[k]) <= MAX_INT64
      invariant VenueNotionals(fills[..i], m)
    {
      hide VenueNotionals;
      assert fills[..i + 1] == fills[..i] + [fills[i]];
      var f := fills[i];
      var n := PriceFill(f);
      if n.None? {
        return None;
      }
      AddNotional(fills[..i], f, m);
      m := m[f.venue := Wrap64(Held(m, f.venue) + n.value)];
    }
    assert fills[..|fills|] == fills;
    return Some(m);
  }

  method PriceFill(f: Fill) returns (n: Option<Int64>)
    requires f.price > 0 && f.qty > 0
    ensures n.Some? <==> Floor(f) <= MAX_INT64
    ensures n.Some? ==> n.value == Floor(f)
  {
    n := MulDiv(ToUint64(f.price), ToUint64(f.qty), SCALE);
  }

  /** The sum over the first n venue numbers. */
  function SplitTotal(fills: seq<Fill>, n: nat): int
    requires n <= 256
  {
    if n == 0 then 0 else SplitTotal(fills, n - 1) + NotionalOn(fills, n - 1)
  }

  /** The venues' shares add up to the walk's notional, and when that fits int64 no share ever wraps. */
  lemma {:induction false} SplitAddsUp(fills: seq<Fill>)
    requires Positive(fills)
    ensures SplitTotal(fills, 256) == NotionalOf(fills)
    ensures forall v :: 0 <= NotionalOn(fills, v) <= NotionalOf(fills)
    ensures NotionalOf(fills) <= MAX_INT64 ==> forall v :: Wrap64(NotionalOn(fills, v)) == NotionalOn(fills, v)
  {
    hide SplitTotal, Wrap64, Floor, NotionalOn;
    if fills == [] {
      SplitOfNone(256);
    } else {
      SplitAddsUp(fills[..|fills| - 1]);
      SplitSnoc(fills, 256);
    }
    forall v
      ensures 0 <= NotionalOn(fills, v) <= NotionalOf(fills)
      ensures NotionalOf(fills) <= MAX_INT64 ==> Wrap64(NotionalOn(fills, v)) == NotionalOn(fills, v)
    {
      ShareWithin(fills, v);
    }
  }

  lemma {:induction false} ShareWithin(fills: seq<Fill>, v: Venue)
    requires Positive(fills)
    ensures 0 <= NotionalOn(fills, v) <= NotionalOf(fills)
  {
    hide Floor;
    if fills != [] {
      ShareWithin(fills[..|fills| - 1], v);
      FloorNotNegative(fills[|fills| - 1]);
    }
  }

  lemma FloorNotNegative(f: Fill)
    requires f.price > 0 && f.qty > 0
    ensures Floor(f) >= 0
  {
  }

  lemma {:induction false} SplitOfNone(n: nat)
    requires n <= 256
    ensures SplitTotal([], n) == 0
  {
    if n > 0 { SplitOfNone(n - 1); }
  }

  lemma {:induction false} SplitSnoc(fills: seq<Fill>, n: nat)
    requires fills != [] && n <= 256
    ensures var last := fills[|fills| - 1];
      SplitTotal(fills, n) == SplitTotal(fills[..|fills| - 1], n) + if last.venue < n then Floor(last) else 0
  {
    if n > 0 { SplitSnoc(fills, n - 1); }
  }
}
