/** What one side of an order book is, as a plain map from price to level. */
module SideSpec {
  import opened Common

  type Levels = map<Price, Level>

  /** a is strictly closer to the touch than b. */
  predicate Better(isAsk: bool, a: Price, b: Price) {
    if isAsk then a < b else a > b
  }

  /** Every level sits under its own price. */
  ghost predicate Keyed(m: Levels) {
    forall p :: p in m ==> m[p].price == p
  }

  /** Absolute-size semantics of one wire level: zero deletes, anything else overwrites. */
  function SetLevel(m: Levels, lv: Level): (r: Levels) {
    if lv.qty == 0 then m - {lv.price} else m[lv.price := lv]
  }

  function SetLevels(m: Levels, lvs: seq<Level>): (r: Levels) {
    if lvs == [] then m
    else SetLevel(SetLevels(m, lvs[..|lvs| - 1]), lvs[|lvs| - 1])
  }

  lemma {:induction false} SetLevelsKeyed(m: Levels, lvs: seq<Level>)
    requires Keyed(m)
    ensures Keyed(SetLevels(m, lvs))
  {
    if lvs != [] {
      SetLevelsKeyed(m, lvs[..|lvs| - 1]);
    }
  }

  ghost function Ahead(isAsk: bool, keys: set<Price>, p: Price): set<Price> {
    set q | q in keys && Better(isAsk, q, p)
  }

  /** The n best levels: those with fewer than n better prices. A negative n keeps all. */
  ghost function KeepBest(isAsk: bool, m: Levels, n: int): (r: Levels) {
    if n < 0 then m else map p | p in m && |Ahead(isAsk, m.Keys, p)| < n :: m[p]
  }

  /** ps lists the prices in keys, best first. */
  ghost predicate Ranks(isAsk: bool, ps: seq<Price>, keys: set<Price>) {
    && (forall i, j :: 0 <= i < j < |ps| ==> Better(isAsk, ps[i], ps[j]))
    && (forall p :: p in ps <==> p in keys)
  }

  lemma {:induction false} BestExists(isAsk: bool, keys: set<Price>)
    requires keys != {}
    ensures exists p :: p in keys && Ahead(isAsk, keys, p) == {}
    decreases |keys|
  {
    var q :| q in keys;
    var rest := keys - {q};
    if rest == {} {
      assert keys == {q};
      assert Ahead(isAsk, keys, q) == {};
    } else {
      BestExists(isAsk, rest);
      var b :| b in rest && Ahead(isAsk, rest, b) == {};
      forall p | p in rest ensures !Better(isAsk, p, b) {
        assert p !in Ahead(isAsk, rest, b);
      }
      if Better(isAsk, q, b) {
        assert Ahead(isAsk, keys, q) == {};
      } else {
        assert Ahead(isAsk, keys, b) == {};
      }
    }
  }

  lemma {:induction false} RankExists(isAsk: bool, keys: set<Price>)
    ensures exists ps :: Ranks(isAsk, ps, keys)
    decreases |keys|
  {
    if keys == {} {
      assert Ranks(isAsk, [], keys);
    } else {
      BestExists(isAsk, keys);
      var b :| b in keys && Ahead(isAsk, keys, b) == {};
      RankExists(isAsk, keys - {b});
      var rest :| Ranks(isAsk, rest, keys - {b});
      forall p | p in rest ensures Better(isAsk, b, p) {
        assert p in keys - {b} && p !in Ahead(isAsk, keys, b);
      }
      assert Ranks(isAsk, [b] + rest, keys);
    }
  }

  /** In a best-first ranking, the prices ahead of index i are those listed before it. */
  lemma {:induction false} AheadIsBefore(isAsk: bool, ps: seq<Price>, keys: set<Price>, i: nat)
    requires Ranks(isAsk, ps, keys) && i < |ps|
    ensures forall p :: p in Ahead(isAsk, keys, ps[i]) <==> p in ps[..i]
  {
  }

  function PricesOf(ps: seq<Price>): set<Price> { set p | p in ps }

  lemma {:induction false} DistinctCount(ps: seq<Price>)
    requires forall i, j :: 0 <= i < j < |ps| ==> ps[i] != ps[j]
    ensures |PricesOf(ps)| == |ps|
  {
    if ps == [] {
      assert PricesOf(ps) == {};
    } else {
      var front, last := ps[..|ps| - 1], ps[|ps| - 1];
      DistinctCount(front);
      assert ps == front + [last] && last !in front;
      assert PricesOf(ps) == PricesOf(front) + {last};
    }
  }

  /** So the price at index i has exactly i better ones. */
  lemma {:induction false} AheadIsPrefix(isAsk: bool, ps: seq<Price>, keys: set<Price>, i: nat)
    requires Ranks(isAsk, ps, keys) && i < |ps|
    ensures |Ahead(isAsk, keys, ps[i])| == i
  {
    AheadIsBefore(isAsk, ps, keys, i);
    DistinctCount(ps[..i]);
    assert Ahead(isAsk, keys, ps[i]) == PricesOf(ps[..i]);
  }

  /** Two best-first rankings of one side agree wherever the first is defined. */
  lemma {:induction false} RankAgrees(isAsk: bool, ps: seq<Price>, qs: seq<Price>, keys: set<Price>, i: nat)
    requires Ranks(isAsk, ps, keys) && Ranks(isAsk, qs, keys) && i < |ps|
    ensures i < |qs| && ps[i] == qs[i]
  {
    assert ps[i] in qs;
    var k :| 0 <= k < |qs| && qs[k] == ps[i];
    AheadIsPrefix(isAsk, ps, keys, i);
    AheadIsPrefix(isAsk, qs, keys, k);
  }

  /** A side has one best-first ranking. */
  lemma {:induction false} RankUnique(isAsk: bool, ps: seq<Price>, qs: seq<Price>, keys: set<Price>)
    requires Ranks(isAsk, ps, keys) && Ranks(isAsk, qs, keys)
    ensures ps == qs
  {
    if ps != [] { RankAgrees(isAsk, ps, qs, keys, |ps| - 1); }
    if qs != [] { RankAgrees(isAsk, qs, ps, keys, |qs| - 1); }
    forall i | 0 <= i < |ps| ensures ps[i] == qs[i] {
      RankAgrees(isAsk, ps, qs, keys, i);
    }
  }

  /** A ranking has one entry per price. */
  lemma {:induction false} RankLength(isAsk: bool, ps: seq<Price>, keys: set<Price>)
    requires Ranks(isAsk, ps, keys)
    ensures |ps| == |keys|
  {
    DistinctCount(ps);
    assert keys == PricesOf(ps);
  }

  /** The prices of a side, best first. */
  ghost function Rank(isAsk: bool, keys: set<Price>): (ps: seq<Price>)
    ensures Ranks(isAsk, ps, keys)
    ensures |ps| == |keys|
  {
    RankExists(isAsk, keys);
    var ps :| Ranks(isAsk, ps, keys);
    RankLength(isAsk, ps, keys);
    ps
  }

  /** The levels at the given prices. */
  function Pick(m: Levels, ps: seq<Price>): (s: seq<Level>)
    requires forall p :: p in ps ==> p in m
  {
    seq(|ps|, i requires 0 <= i < |ps| => m[ps[i]])
  }

  /** The best n levels of a side, best first. */
  ghost function TopN(isAsk: bool, m: Levels, n: nat): (s: seq<Level>)
  {
    Pick(m, Rank(isAsk, m.Keys)[..Min(n, |m|)])
  }

  /** The prices truncation keeps are a prefix of any ranking of the side. */
  lemma {:induction false} KeepBestByRank(isAsk: bool, m: Levels, n: nat, ps: seq<Price>)
    requires Ranks(isAsk, ps, m.Keys)
    ensures Ranks(isAsk, ps[..Min(n, |ps|)], KeepBest(isAsk, m, n).Keys)
  {
    var top := ps[..Min(n, |ps|)];
    forall p ensures p in top <==> p in KeepBest(isAsk, m, n) {
      if p in ps {
        var i :| 0 <= i < |ps| && ps[i] == p;
        AheadIsPrefix(isAsk, ps, m.Keys, i);
        if i < |top| {
          assert top[i] == p;
        }
      }
    }
  }

  /** Truncating a side and then ranking it is ranking it and then cutting. */
  lemma {:induction false} KeepBestIsPrefix(isAsk: bool, m: Levels, n: nat)
    ensures |KeepBest(isAsk, m, n)| == Min(n, |m|)
    ensures Rank(isAsk, KeepBest(isAsk, m, n).Keys) == Rank(isAsk, m.Keys)[..Min(n, |m|)]
  {
    var ps, kept := Rank(isAsk, m.Keys), KeepBest(isAsk, m, n).Keys;
    KeepBestByRank(isAsk, m, n, ps);
    RankLength(isAsk, ps[..Min(n, |m|)], kept);
    RankUnique(isAsk, ps[..Min(n, |m|)], Rank(isAsk, kept), kept);
  }

  /** So the best k levels of a truncated side are the best k levels of the whole side. */
  lemma {:induction false} TopOfKept(isAsk: bool, m: Levels, n: nat, k: nat)
    requires k <= n
    ensures TopN(isAsk, KeepBest(isAsk, m, n), k) == TopN(isAsk, m, k)
  {
    KeepBestIsPrefix(isAsk, m, n);
  }

  lemma {:induction false} AllKept(isAsk: bool, m: Levels, n: int)
    requires n < 0 || |m| <= n
    ensures KeepBest(isAsk, m, n) == m
  {
    if n >= 0 {
      var ps := Rank(isAsk, m.Keys);
      forall p | p in m ensures p in KeepBest(isAsk, m, n) {
        var i :| 0 <= i < |ps| && ps[i] == p;
        AheadIsPrefix(isAsk, ps, m.Keys, i);
      }
    }
  }
}
