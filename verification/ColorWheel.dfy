/** colorwheel/colorwheel.go: a palette dealt out to identifiers in turn. */
module ColorWheel {
  import opened Sequences

  /** The identifiers asked for, each at its first request. */
  function Seen(ids: seq<string>): seq<string> {
    if ids == [] then [] else Extend(Seen(ids[..|ids| - 1]), ids[|ids| - 1])
  }

  function Extend(seen: seq<string>, id: string): seq<string> {
    if id in seen then seen else seen + [id]
  }

  class Wheel<Color> {
    const palette: seq<Color>
    var hm: map<string, Color>
    var next: nat
    ghost var requests: seq<string>

    /** The j-th distinct identifier has the color of slot j modulo the size of the palette. */
    ghost predicate Valid()
      reads this
    {
      var seen := Seen(requests);
      && palette != []
      && next == |seen| % |palette|
      && (forall id :: id in hm <==> id in seen)
      && forall j :: 0 <= j < |seen| ==> seen[j] in hm && hm[seen[j]] == palette[j % |palette|]
    }

    constructor (palette: seq<Color>)
      requires palette != []
      ensures Valid() && this.palette == palette && requests == []
    {
      this.palette := palette;
      hm, next, requests := map[], 0, [];
    }

    method Get(id: string) returns (c: Color)
      requires Valid()
      modifies this
      ensures Valid() && requests == old(requests) + [id]
      ensures forall j :: 0 <= j < |Seen(requests)| && Seen(requests)[j] == id ==> c == palette[j % |palette|]
      ensures forall other :: other in old(hm) ==> other in hm && hm[other] == old(hm)[other]
      ensures id in hm && c == hm[id]
    {
      ghost var seen := Seen(requests);
      assert (requests + [id])[..|requests|] == requests;
      requests := requests + [id];
      if id in hm {
        return hm[id];
      }
      hm := hm[id := palette[next]];
      NextColor(|seen|);
      SeenAreDistinct(requests);
      return hm[id];
    }

    method NextColor(ghost dealt: nat)
      requires palette != [] && next == dealt % |palette|
      modifies `next
      ensures next == (dealt + 1) % |palette|
    {
      ModStep(dealt, |palette|);
      if next == |palette| - 1 {
        next := 0;
      } else {
        next := next + 1;
      }
    }
  }

  lemma ModStep(m: nat, n: nat)
    requires n > 0
    ensures m % n == n - 1 ==> (m + 1) % n == 0 && (m + 1) / n == m / n + 1
    ensures m % n < n - 1 ==> (m + 1) % n == m % n + 1 && (m + 1) / n == m / n
  {
    var q, r := m / n, m % n;
    if r == n - 1 {
      Distribute(n, q);
      DivModIs(m + 1, n, q + 1, 0);
    } else {
      DivModIs(m + 1, n, q, r + 1);
    }
  }

  lemma Distribute(n: nat, q: nat)
    ensures n * (q + 1) == n * q + n
  {}

  lemma DivModIs(m: nat, n: nat, q: nat, r: nat)
    requires r < n && m == n * q + r
    ensures m / n == q && m % n == r
  {
    var d := m / n - q;
    assert n * (m / n) + m % n == n * q + r;
    assert n * d == r - m % n;
    MultipleIsFar(n, d);
  }

  lemma MultipleIsFar(n: nat, d: int)
    ensures d >= 1 ==> n * d >= n
    ensures d <= -1 ==> n * d + n <= 0
  {}

  /** Every identifier asked for is seen once. */
  lemma {:induction false} SeenAreDistinct(ids: seq<string>)
    ensures NoDuplicates(Seen(ids)) && forall id :: id in Seen(ids) <==> id in ids
  {
    if ids == [] {
    } else {
      SeenAreDistinct(ids[..|ids| - 1]);
      assert ids == ids[..|ids| - 1] + [ids[|ids| - 1]];
    }
  }

  /** Later requests never move an identifier to another slot. */
  lemma {:induction false} SlotsAreKept(ids: seq<string>, more: seq<string>)
    ensures Seen(ids) <= Seen(ids + more)
  {
    if more == [] {
      assert ids + more == ids;
    } else {
      SlotsAreKept(ids, more[..|more| - 1]);
      assert (ids + more)[..|ids + more| - 1] == ids + more[..|more| - 1];
    }
  }

  /** The identifiers, by their place among the distinct ones, that are dealt the slot r of n. */
  function Uses(seen: seq<string>, n: nat, r: nat): set<nat>
    requires n > 0
  {
    set j | 0 <= j < |seen| && j % n == r
  }

  /** What r of n has of a number m: the quotient, and one more for the first ones. */
  function Share(m: nat, n: nat, r: nat): nat
    requires n > 0
  {
    m / n + if r < m % n then 1 else 0
  }

  lemma ShareStep(m: nat, n: nat, r: nat)
    requires r < n
    ensures Share(m + 1, n, r) == Share(m, n, r) + if m % n == r then 1 else 0
  {
    ModStep(m, n);
  }

  lemma ShareOfNone(n: nat, r: nat)
    requires r < n
    ensures Share(0, n, r) == 0
  {}

  lemma UsesOneMore(seen: seq<string>, n: nat, r: nat)
    requires r < n && seen != []
    ensures var (m, before) := (|seen| - 1, Uses(seen[..|seen| - 1], n, r));
            Uses(seen, n, r) == (if m % n == r then before + {m} else before) && m !in before
  {}

  /** A slot is used once for every full turn, and the first ones once more. */
  lemma {:induction false} UsesAreShared(seen: seq<string>, n: nat, r: nat)
    requires r < n
    ensures |Uses(seen, n, r)| == Share(|seen|, n, r)
  {
    if seen == [] {
      ShareOfNone(n, r);
      assert Uses(seen, n, r) == {};
    } else {
      UsesAreShared(seen[..|seen| - 1], n, r);
      UsesOneMore(seen, n, r);
      ShareStep(|seen| - 1, n, r);
    }
  }

  /** After any requests, the uses of any two slots by distinct identifiers differ by at most one. */
  lemma UsageIsBalanced(ids: seq<string>, n: nat, r: nat, q: nat)
    requires r < n && q < n
    ensures |Uses(Seen(ids), n, r)| <= |Uses(Seen(ids), n, q)| + 1
  {
    UsesAreShared(Seen(ids), n, r);
    UsesAreShared(Seen(ids), n, q);
  }
}
