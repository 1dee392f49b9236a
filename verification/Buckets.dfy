/** The arithmetic and the bucket chains of the hash table, on values. */
module Buckets {
  import opened Elements
  import opened ListSort

  type Chains = seq<seq<Element>>

  function Pow2(k: nat): (p: nat)
    ensures p >= 1
  {
    if k == 0 then 1 else 2 * Pow2(k - 1)
  }

  /** The bitwise and of two unsigned numbers. */
  function BitAnd(x: nat, y: nat): (r: nat) {
    if x == 0 || y == 0 then 0 else 2 * BitAnd(x / 2, y / 2) + (x % 2) * (y % 2)
  }

  function ShiftRight(x: nat, k: nat): (r: nat) {
    if k == 0 then x else ShiftRight(x / 2, k - 1)
  }

  lemma MulMonotone(a: int, b: int, d: nat)
    requires a <= b
    ensures a * d <= b * d
  {
    assert (b - a) * d >= 0;
  }

  lemma Euclid(x: nat, d: nat) returns (q: nat, r: nat)
    requires d >= 1
    ensures q == x / d && r == x % d && x == q * d + r && r < d
  {
    q, r := x / d, x % d;
  }

  lemma EuclidUnique(d: nat, q: int, r: int, q': int, r': int)
    requires q * d + r == q' * d + r' && 0 <= r < d && 0 <= r' < d
    ensures q == q' && r == r'
  {
    if q < q' {
      MulMonotone(q + 1, q', d);
    } else if q' < q {
      MulMonotone(q' + 1, q, d);
    }
  }

  lemma DivModUnique(x: nat, d: nat, q: nat, r: nat)
    requires d >= 1 && r < d && x == q * d + r
    ensures x / d == q && x % d == r
  {
    EuclidUnique(d, x / d, x % d, q, r);
  }

  lemma HalfMod(x: nat, p: nat)
    requires p >= 1
    ensures x % (2 * p) == 2 * ((x / 2) % p) + x % 2
    ensures x / (2 * p) == (x / 2) / p
  {
    var q, r := (x / 2) / p, (x / 2) % p;
    assert x / 2 == q * p + r;
    assert q * (2 * p) == 2 * (q * p);
    DivModUnique(x, 2 * p, q, 2 * r + x % 2);
  }

  /** Masking with a power of two less one is the remainder. */
  lemma {:induction false} MaskIsMod(x: nat, k: nat)
    ensures BitAnd(x, Pow2(k) - 1) == x % Pow2(k)
    decreases k
  {
    if k > 0 {
      var p := Pow2(k - 1);
      assert (2 * p - 1) / 2 == p - 1 && (2 * p - 1) % 2 == 1;
      MaskIsMod(x / 2, k - 1);
      HalfMod(x, p);
    }
  }

  lemma {:induction false} ShiftIsDiv(x: nat, k: nat)
    ensures ShiftRight(x, k) == x / Pow2(k)
    decreases k
  {
    if k > 0 {
      ShiftIsDiv(x / 2, k - 1);
      HalfMod(x, Pow2(k - 1));
    }
  }

  /** `HASH_TO_BKT`. */
  function Bucket(hashv: nat, buckets: nat): (b: nat)
    requires buckets >= 1
  {
    BitAnd(hashv, buckets - 1)
  }

  lemma BucketInRange(hashv: nat, k: nat)
    ensures Bucket(hashv, Pow2(k)) == hashv % Pow2(k) < Pow2(k)
  {
    MaskIsMod(hashv, k);
  }

  lemma BucketBelow(hashv: nat, k: nat)
    ensures Bucket(hashv, Pow2(k)) < Pow2(k)
  {
    BucketInRange(hashv, k);
  }

  lemma Refine(q: nat, n: nat, a: nat)
    ensures q * (2 * n) + a * n == (2 * q + a) * n
  {
  }

  lemma ModThrough(x: nat, n: nat, q: nat, r: nat, a: nat, b: nat)
    requires x == q * (2 * n) + r && r == a * n + b && b < n
    ensures x % n == b
  {
    Refine(q, n, a);
    DivModUnique(x, n, 2 * q + a, b);
  }

  lemma ModDouble(x: nat, n: nat)
    requires n >= 1
    ensures (x % (2 * n)) % n == x % n
  {
    var d := 2 * n;
    var q, r := Euclid(x, d);
    var a, b := Euclid(r, n);
    ModThrough(x, n, q, r, a, b);
  }

  /** An item of bucket b keeps its bucket or moves up by the old number of buckets. */
  lemma BucketDoubles(hashv: nat, k: nat)
    ensures Bucket(hashv, 2 * Pow2(k)) % Pow2(k) == Bucket(hashv, Pow2(k))
    ensures Bucket(hashv, 2 * Pow2(k)) < 2 * Pow2(k)
  {
    BucketInRange(hashv, k);
    BucketInRange(hashv, k + 1);
    ModDouble(hashv, Pow2(k));
  }

  function IdealLength(items: nat, buckets: nat, log2: nat): nat
    requires buckets >= 1
  {
    ShiftRight(items, log2 + 1) + if BitAnd(items, buckets * 2 - 1) != 0 then 1 else 0
  }

  /** The shift and the mask compute the items per new bucket, rounded up. */
  lemma IdealIsCeiling(items: nat, log2: nat)
    ensures var b := 2 * Pow2(log2); var ideal := IdealLength(items, Pow2(log2), log2);
      ideal * b >= items && (ideal > 0 ==> (ideal - 1) * b < items)
  {
    ShiftIsDiv(items, log2 + 1);
    MaskIsMod(items, log2 + 1);
    CeilingIs(items, Pow2(log2 + 1));
  }

  lemma CeilingIs(x: nat, d: nat)
    requires d >= 1
    ensures var c := x / d + if x % d != 0 then 1 else 0;
      c * d >= x && (c > 0 ==> (c - 1) * d < x)
  {
    var q, r := x / d, x % d;
    assert x == q * d + r;
    assert (q + 1) * d == q * d + d && (q - 1) * d == q * d - d;
  }

  // ---- chains ----

  /** The items in the first i chains, counted. */
  ghost function TotalTo(chains: Chains, i: nat): (n: nat)
    requires i <= |chains|
  {
    if i == 0 then 0 else TotalTo(chains, i - 1) + |chains[i - 1]|
  }

  ghost function Total(chains: Chains): (n: nat) {
    TotalTo(chains, |chains|)
  }

  ghost function Over(length: nat, ideal: nat): nat {
    if length > ideal then length - ideal else 0
  }

  ghost function ExcessTo(chains: Chains, ideal: nat, i: nat): (n: nat)
    requires i <= |chains|
  {
    if i == 0 then 0 else ExcessTo(chains, ideal, i - 1) + Over(|chains[i - 1]|, ideal)
  }

  /** How many items sit past the ideal length of their chain. */
  ghost function Excess(chains: Chains, ideal: nat): (n: nat) {
    ExcessTo(chains, ideal, |chains|)
  }

  /** How often a chain that grew to length c had its expansion threshold raised. */
  ghost function Raised(c: nat, ideal: nat): (m: nat) {
    if c == 0 then 0
    else
      var m := Raised(c - 1, ideal);
      if c > ideal && c > m * ideal then m + 1 else m
  }

  /** A chain past the ideal length has its threshold raised once for each item past it, but no
    more often than the ideal length goes into the chain, rounded up. */
  lemma {:induction false} RaisedIs(c: nat, ideal: nat)
    requires ideal >= 1
    ensures var r := Raised(c, ideal);
      if c <= ideal then r == 0
      else 1 <= r <= c - ideal && (r - 1) * ideal < c && (r == c - ideal || r * ideal >= c)
    decreases c
  {
    if c > 0 {
      RaisedIs(c - 1, ideal);
      if c > ideal + 1 {
        var m := Raised(c - 1, ideal);
        assert (m + 1 - 1) * ideal == m * ideal;
      }
    }
  }

  ghost predicate Homed(chains: Chains) {
    forall b, i :: 0 <= b < |chains| && 0 <= i < |chains[b]| ==> Bucket(chains[b][i].hashv, |chains|) == b
  }

  ghost function Put(chains: Chains, b: nat, e: Element): (c: Chains)
    requires b < |chains|
    ensures |c| == |chains|
  {
    chains[b := [e] + chains[b]]
  }

  lemma {:induction false} TotalUpdate(chains: Chains, b: nat, c: seq<Element>, i: nat)
    requires b < |chains| && i <= |chains|
    ensures TotalTo(chains[b := c], i) == TotalTo(chains, i) + if b < i then |c| - |chains[b]| else 0
    decreases i
  {
    if i > 0 {
      TotalUpdate(chains, b, c, i - 1);
    }
  }

  lemma {:induction false} ExcessPut(chains: Chains, b: nat, e: Element, ideal: nat, i: nat)
    requires b < |chains| && i <= |chains|
    ensures ExcessTo(Put(chains, b, e), ideal, i) ==
            ExcessTo(chains, ideal, i) + if b < i && |chains[b]| + 1 > ideal then 1 else 0
    decreases i
  {
    if i > 0 {
      ExcessPut(chains, b, e, ideal, i - 1);
    }
  }

  ghost function Empty(n: nat): (c: Chains)
    ensures |c| == n && forall b :: 0 <= b < n ==> c[b] == []
  {
    seq(n, b => [])
  }

  lemma {:induction false} EmptyCounts(n: nat, ideal: nat, i: nat)
    requires i <= n
    ensures TotalTo(Empty(n), i) == 0 && ExcessTo(Empty(n), ideal, i) == 0
    decreases i
  {
    if i > 0 {
      EmptyCounts(n, ideal, i - 1);
    }
  }

  /** A new table of 2^k chains after the first i items of order went to the front of theirs. */
  ghost function PutFirst(order: seq<Element>, i: nat, k: nat): (c: Chains)
    requires i <= |order|
    ensures |c| == Pow2(k)
  {
    if i == 0 then Empty(Pow2(k))
    else
      BucketBelow(order[i - 1].hashv, k);
      Put(PutFirst(order, i - 1, k), Bucket(order[i - 1].hashv, Pow2(k)), order[i - 1])
  }

  /** The chains of a new table with the items put there one after the other. */
  ghost function Built(order: seq<Element>, k: nat): (c: Chains)
    ensures |c| == Pow2(k)
  {
    PutFirst(order, |order|, k)
  }

  lemma {:induction false} PutFirstPrefix(order: seq<Element>, e: Element, i: nat, k: nat)
    requires i <= |order|
    ensures PutFirst(order + [e], i, k) == PutFirst(order, i, k)
    decreases i
  {
    if i > 0 {
      PutFirstPrefix(order, e, i - 1, k);
    }
  }

  lemma BuiltNext(order: seq<Element>, e: Element, k: nat)
    ensures Bucket(e.hashv, Pow2(k)) < Pow2(k)
    ensures Built(order + [e], k) == Put(Built(order, k), Bucket(e.hashv, Pow2(k)), e)
  {
    BucketBelow(e.hashv, k);
    PutFirstPrefix(order, e, |order|, k);
  }

  /** The items of the first i chains, in order. */
  ghost function OrderTo(chains: Chains, i: nat): seq<Element>
    requires i <= |chains|
  {
    if i == 0 then [] else OrderTo(chains, i - 1) + chains[i - 1]
  }

  /** The chains after a doubling: the old chains are emptied one after the other, each from its
    front. */
  ghost function Doubled(chains: Chains, k: nat): (c: Chains)
    requires |chains| == Pow2(k)
    ensures |c| == 2 * |chains|
  {
    Built(OrderTo(chains, |chains|), k + 1)
  }

  lemma {:induction false} PutFirstTotal(order: seq<Element>, i: nat, k: nat)
    requires i <= |order|
    ensures Total(PutFirst(order, i, k)) == i
    decreases i
  {
    if i == 0 {
      EmptyCounts(Pow2(k), 0, Pow2(k));
    } else {
      PutFirstTotal(order, i - 1, k);
      BucketBelow(order[i - 1].hashv, k);
      var was, b := PutFirst(order, i - 1, k), Bucket(order[i - 1].hashv, Pow2(k));
      TotalUpdate(was, b, [order[i - 1]] + was[b], |was|);
    }
  }

  lemma {:induction false} OrderLength(chains: Chains, i: nat)
    requires i <= |chains|
    ensures |OrderTo(chains, i)| == TotalTo(chains, i)
    decreases i
  {
    if i > 0 {
      OrderLength(chains, i - 1);
    }
  }

  lemma DoubledTotal(chains: Chains, k: nat)
    requires |chains| == Pow2(k)
    ensures Total(Doubled(chains, k)) == Total(chains)
  {
    var order := OrderTo(chains, |chains|);
    PutFirstTotal(order, |order|, k + 1);
    OrderLength(chains, |chains|);
  }

  // ---- where a doubling puts the items ----

  /** The items of s that belong in bucket b of n. */
  ghost function InBucket(s: seq<Element>, n: nat, b: nat): seq<Element>
    requires n >= 1
  {
    if s == [] then []
    else if Bucket(s[0].hashv, n) == b then [s[0]] + InBucket(s[1..], n, b)
    else InBucket(s[1..], n, b)
  }

  ghost function Reversed(s: seq<Element>): (r: seq<Element>)
    ensures |r| == |s|
  {
    if s == [] then [] else Reversed(s[1..]) + [s[0]]
  }

  lemma {:induction false} ReversedSnoc(s: seq<Element>, e: Element)
    ensures Reversed(s + [e]) == [e] + Reversed(s)
    decreases |s|
  {
    if s == [] {
      assert (s + [e])[1..] == [];
    } else {
      assert (s + [e])[1..] == s[1..] + [e];
      ReversedSnoc(s[1..], e);
    }
  }

  lemma {:induction false} InBucketConcat(s: seq<Element>, t: seq<Element>, n: nat, b: nat)
    requires n >= 1
    ensures InBucket(s + t, n, b) == InBucket(s, n, b) + InBucket(t, n, b)
    decreases |s|
  {
    if s == [] {
      assert s + t == t;
    } else {
      assert (s + t)[1..] == s[1..] + t;
      InBucketConcat(s[1..], t, n, b);
    }
  }

  /** Each chain of a new table holds the items of its bucket, last come first. */
  lemma {:induction false} PutFirstChain(order: seq<Element>, i: nat, k: nat, b: nat)
    requires i <= |order| && b < Pow2(k)
    ensures PutFirst(order, i, k)[b] == Reversed(InBucket(order[..i], Pow2(k), b))
    decreases i
  {
    if i > 0 {
      var e, was := order[i - 1], order[..i - 1];
      PutFirstChain(order, i - 1, k, b);
      BucketBelow(e.hashv, k);
      assert order[..i] == was + [e];
      InBucketConcat(was, [e], Pow2(k), b);
      if Bucket(e.hashv, Pow2(k)) == b {
        ReversedSnoc(InBucket(was, Pow2(k), b), e);
        assert InBucket([e], Pow2(k), b) == [e];
      } else {
        assert InBucket(was, Pow2(k), b) + [] == InBucket(was, Pow2(k), b);
      }
    }
  }

  lemma {:induction false} InBucketNone(s: seq<Element>, n: nat, b: nat)
    requires n >= 1 && forall i :: 0 <= i < |s| ==> Bucket(s[i].hashv, n) != b
    ensures InBucket(s, n, b) == []
    decreases |s|
  {
    if s != [] {
      assert Bucket(s[0].hashv, n) != b;
      InBucketNone(s[1..], n, b);
    }
  }

  /** Bucket b of a doubled table gets its items from one old chain only. */
  lemma {:induction false} InBucketOfOrder(chains: Chains, i: nat, k: nat, b: nat, home: nat)
    requires |chains| == Pow2(k) && Homed(chains) && i <= |chains| && b < 2 * |chains|
    requires home == b % |chains| && home < |chains|
    ensures InBucket(OrderTo(chains, i), 2 * |chains|, b) ==
            if home < i then InBucket(chains[home], 2 * |chains|, b) else []
    decreases i
  {
    if i > 0 {
      InBucketOfOrder(chains, i - 1, k, b, home);
      InBucketOfNext(chains, i - 1, k, b);
    }
  }

  lemma InBucketOfNext(chains: Chains, i: nat, k: nat, b: nat)
    requires |chains| == Pow2(k) && Homed(chains) && i < |chains| && b < 2 * |chains|
    ensures b % |chains| < |chains|
    ensures var before, here := InBucket(OrderTo(chains, i), 2 * |chains|, b), InBucket(chains[i], 2 * |chains|, b);
      && (before == [] ==> InBucket(OrderTo(chains, i + 1), 2 * |chains|, b) == here)
      && (b % |chains| != i ==> InBucket(OrderTo(chains, i + 1), 2 * |chains|, b) == before)
  {
    var n, c := |chains|, chains[i];
    InBucketConcat(OrderTo(chains, i), c, 2 * n, b);
    var before, here := InBucket(OrderTo(chains, i), 2 * n, b), InBucket(c, 2 * n, b);
    assert [] + here == here && before + [] == before;
    if b % n != i {
      NoneGoesTo(chains, i, k, b);
      InBucketNone(c, 2 * n, b);
    }
  }

  lemma NoneGoesTo(chains: Chains, i: nat, k: nat, b: nat)
    requires |chains| == Pow2(k) && Homed(chains) && i < |chains| && b % |chains| != i
    ensures forall j :: 0 <= j < |chains[i]| ==> Bucket(chains[i][j].hashv, 2 * |chains|) != b
  {
    forall j | 0 <= j < |chains[i]| ensures Bucket(chains[i][j].hashv, 2 * |chains|) != b {
      BucketDoubles(chains[i][j].hashv, k);
    }
  }

  /** A doubling splits each chain in two, each half in reverse order. */
  lemma DoubledChain(chains: Chains, k: nat, b: nat)
    requires |chains| == Pow2(k) && Homed(chains) && b < 2 * |chains|
    ensures 0 <= b % |chains| < |chains|
    ensures Doubled(chains, k)[b] == Reversed(InBucket(chains[b % |chains|], 2 * |chains|, b))
  {
    var order := OrderTo(chains, |chains|);
    PutFirstChain(order, |order|, k + 1, b);
    InBucketOfOrder(chains, |chains|, k, b, b % |chains|);
    assert order[..|order|] == order;
  }

  // ---- lookup ----

  /** `HASH_FIND_IN_BKT`: the first item of the chain with that hash and key. */
  ghost function FindIn(c: seq<Element>, key: int, hashv: nat): (e: Element?)
  {
    if c == [] then null
    else if c[0].hashv == hashv && c[0].key == key then c[0]
    else FindIn(c[1..], key, hashv)
  }

  /** All items with that hash and key, in order. */
  ghost function Matches(s: seq<Element>, key: int, hashv: nat): seq<Element> {
    if s == [] then []
    else if s[0].hashv == hashv && s[0].key == key then [s[0]] + Matches(s[1..], key, hashv)
    else Matches(s[1..], key, hashv)
  }

  lemma {:induction false} FindIsFirstMatch(c: seq<Element>, key: int, hashv: nat)
    ensures FindIn(c, key, hashv) == At(Matches(c, key, hashv), 0)
    decreases |c|
  {
    if c != [] {
      FindIsFirstMatch(c[1..], key, hashv);
    }
  }

  lemma {:induction false} MatchesConcat(s: seq<Element>, t: seq<Element>, key: int, hashv: nat)
    ensures Matches(s + t, key, hashv) == Matches(s, key, hashv) + Matches(t, key, hashv)
    decreases |s|
  {
    if s == [] {
      assert s + t == t;
    } else {
      assert (s + t)[1..] == s[1..] + t;
      MatchesConcat(s[1..], t, key, hashv);
    }
  }

  lemma {:induction false} MatchesReversed(s: seq<Element>, key: int, hashv: nat)
    ensures Matches(Reversed(s), key, hashv) == Reversed(Matches(s, key, hashv))
    decreases |s|
  {
    if s != [] {
      MatchesReversed(s[1..], key, hashv);
      MatchesConcat(Reversed(s[1..]), [s[0]], key, hashv);
    }
  }

  lemma {:induction false} MatchesInBucket(s: seq<Element>, key: int, hashv: nat, n: nat)
    requires n >= 1
    ensures Matches(InBucket(s, n, Bucket(hashv, n)), key, hashv) == Matches(s, key, hashv)
    decreases |s|
  {
    if s != [] {
      MatchesInBucket(s[1..], key, hashv, n);
    }
  }

  lemma {:induction false} ReversedEnds(s: seq<Element>)
    requires s != []
    ensures Reversed(s)[0] == s[|s| - 1] && Reversed(s)[|s| - 1] == s[0]
    decreases |s|
  {
    if |s| > 1 {
      ReversedEnds(s[1..]);
    }
  }

  lemma {:induction false} MatchesDistinct(s: seq<Element>, key: int, hashv: nat)
    requires Distinct(s)
    ensures Distinct(Matches(s, key, hashv))
    ensures forall i :: 0 <= i < |Matches(s, key, hashv)| ==> Matches(s, key, hashv)[i] in s
    decreases |s|
  {
    if s != [] {
      MatchesDistinct(s[1..], key, hashv);
      assert s[0] !in s[1..];
    }
  }

  /** After a doubling a lookup finds the LAST match of the old chain instead of the first. */
  lemma DoubledFind(chains: Chains, k: nat, key: int, hashv: nat)
    requires |chains| == Pow2(k) && Homed(chains)
    ensures Bucket(hashv, |chains|) < |chains| && Bucket(hashv, 2 * |chains|) < 2 * |chains|
    ensures FindIn(Doubled(chains, k)[Bucket(hashv, 2 * |chains|)], key, hashv) ==
            Last(Matches(chains[Bucket(hashv, |chains|)], key, hashv))
  {
    var n := |chains|;
    var b := Bucket(hashv, 2 * n);
    BucketBelow(hashv, k);
    BucketDoubles(hashv, k);
    var old' := chains[b % n];
    DoubledChain(chains, k, b);
    FindIsFirstMatch(Doubled(chains, k)[b], key, hashv);
    MatchesReversed(InBucket(old', 2 * n, b), key, hashv);
    MatchesInBucket(old', key, hashv, 2 * n);
    if Matches(old', key, hashv) != [] {
      ReversedEnds(Matches(old', key, hashv));
    }
  }

  /** A doubling leaves a lookup's result alone exactly when at most one item matches. */
  lemma DoublingKeepsFindIff(chains: Chains, k: nat, key: int, hashv: nat)
    requires |chains| == Pow2(k) && Homed(chains)
    requires forall b :: 0 <= b < |chains| ==> Distinct(chains[b])
    ensures Bucket(hashv, |chains|) < |chains| && Bucket(hashv, 2 * |chains|) < 2 * |chains|
    ensures FindIn(Doubled(chains, k)[Bucket(hashv, 2 * |chains|)], key, hashv) ==
            FindIn(chains[Bucket(hashv, |chains|)], key, hashv)
            <==> |Matches(chains[Bucket(hashv, |chains|)], key, hashv)| <= 1
  {
    DoubledFind(chains, k, key, hashv);
    var c := chains[Bucket(hashv, |chains|)];
    FindIsFirstMatch(c, key, hashv);
    MatchesDistinct(c, key, hashv);
  }

  /** Two items under one key, alone in their chain: the doubling changes which one is found. */
  lemma TwoItemsOneKey(chains: Chains, k: nat, a: Element, b: Element)
    requires |chains| == Pow2(k) && Homed(chains) && a != b && a.key == b.key && a.hashv == b.hashv
    requires var home := Bucket(a.hashv, |chains|); home < |chains| && chains[home] == [a, b]
    ensures FindIn(chains[Bucket(a.hashv, |chains|)], a.key, a.hashv) == a
    ensures Bucket(a.hashv, 2 * |chains|) < 2 * |chains|
    ensures FindIn(Doubled(chains, k)[Bucket(a.hashv, 2 * |chains|)], a.key, a.hashv) == b
  {
    DoubledFind(chains, k, a.key, a.hashv);
    assert [a, b][1..] == [b] && [b][1..] == [];
    assert Matches([b], a.key, a.hashv) == [b];
    assert Matches([a, b], a.key, a.hashv) == [a, b];
  }

  // ---- placement ----

  /** Every chain holds items of the table only, each in its bucket. */
  ghost predicate Housed(chains: Chains, members: set<Element>) {
    && Homed(chains)
    && (forall b, i :: 0 <= b < |chains| && 0 <= i < |chains[b]| ==> chains[b][i] in members)
  }

  /** Every item of the table is in the chain of its bucket, and nothing else is. */
  ghost predicate Placed(chains: Chains, members: set<Element>) {
    && |chains| >= 1
    && Housed(chains, members)
    && (forall e :: e in members ==>
          Bucket(e.hashv, |chains|) < |chains| && e in chains[Bucket(e.hashv, |chains|)])
  }

  lemma PlacedPut(chains: Chains, members: set<Element>, b: nat, e: Element)
    requires Placed(chains, members) && e !in members
    requires b < |chains| && Bucket(e.hashv, |chains|) == b
    ensures Placed(Put(chains, b, e), members + {e})
  {
    var c := Put(chains, b, e);
    assert e !in chains[b] && e == c[b][0];
    forall x | x in members ensures x in c[Bucket(x.hashv, |c|)] {
      var b' := Bucket(x.hashv, |c|);
      var i :| 0 <= i < |chains[b']| && chains[b'][i] == x;
      if b' == b {
        assert c[b][i + 1] == x;
      }
    }
  }

  lemma PlacedRemove(chains: Chains, members: set<Element>, b: nat, i: nat)
    requires Placed(chains, members) && b < |chains| && i < |chains[b]| && Distinct(chains[b])
    ensures Placed(chains[b := chains[b][..i] + chains[b][i + 1..]], members - {chains[b][i]})
  {
    var c := chains[b := chains[b][..i] + chains[b][i + 1..]];
    var e := chains[b][i];
    assert Bucket(e.hashv, |chains|) == b;
    forall x | x in members && x != e ensures x in c[Bucket(x.hashv, |c|)] {
      var b' := Bucket(x.hashv, |c|);
      var j :| 0 <= j < |chains[b']| && chains[b'][j] == x;
      if b' == b {
        assert c[b][if j < i then j else j - 1] == x;
      }
    }
  }

  lemma {:induction false} InBucketMember(s: seq<Element>, n: nat, b: nat, e: Element)
    requires n >= 1
    ensures e in InBucket(s, n, b) <==> e in s && Bucket(e.hashv, n) == b
    decreases |s|
  {
    if s != [] {
      assert e in s <==> e == s[0] || e in s[1..];
      InBucketMember(s[1..], n, b, e);
    }
  }

  lemma {:induction false} ReversedMember(s: seq<Element>, e: Element)
    ensures e in Reversed(s) <==> e in s
    decreases |s|
  {
    if s != [] {
      assert e in s <==> e == s[0] || e in s[1..];
      ReversedMember(s[1..], e);
    }
  }

  /** c holds exactly the members that belong in bucket b of n. */
  ghost predicate IsBucket(c: seq<Element>, members: set<Element>, n: nat, b: nat)
    requires n >= 1
  {
    && (forall i :: 0 <= i < |c| ==> c[i] in members && Bucket(c[i].hashv, n) == b)
    && (forall e :: e in members && Bucket(e.hashv, n) == b ==> e in c)
  }

  lemma DoubledMembers(chains: Chains, k: nat, members: set<Element>, b: nat)
    requires |chains| == Pow2(k) && Placed(chains, members) && b < 2 * |chains|
    ensures IsBucket(Doubled(chains, k)[b], members, 2 * |chains|, b)
  {
    var n := |chains|;
    DoubledChain(chains, k, b);
    var was, c := chains[b % n], Doubled(chains, k)[b];
    forall i | 0 <= i < |c| ensures c[i] in members && Bucket(c[i].hashv, 2 * n) == b {
      ReversedMember(InBucket(was, 2 * n, b), c[i]);
      InBucketMember(was, 2 * n, b, c[i]);
      var j :| 0 <= j < |was| && was[j] == c[i];
      assert chains[b % n][j] in members;
    }
    forall e | e in members && Bucket(e.hashv, 2 * n) == b ensures e in c {
      BucketDoubles(e.hashv, k);
      ReversedMember(InBucket(was, 2 * n, b), e);
      InBucketMember(was, 2 * n, b, e);
    }
  }

  /** A doubling loses no item and puts each in its new bucket; its chains are as long together as
    the old ones (DoubledTotal), so it duplicates none either. */
  lemma DoubledPlaced(chains: Chains, k: nat, members: set<Element>)
    requires |chains| == Pow2(k) && Placed(chains, members)
    ensures Placed(Doubled(chains, k), members)
  {
    var c := Doubled(chains, k);
    forall b, i | 0 <= b < |c| && 0 <= i < |c[b]|
      ensures c[b][i] in members && Bucket(c[b][i].hashv, |c|) == b
    {
      DoubledMembers(chains, k, members, b);
    }
    forall e | e in members ensures Bucket(e.hashv, |c|) < |c| && e in c[Bucket(e.hashv, |c|)] {
      BucketDoubles(e.hashv, k);
      DoubledMembers(chains, k, members, Bucket(e.hashv, |c|));
    }
  }

  /** A lookup in a chain finds an item with the key exactly when the chain holds one. */
  lemma {:induction false} FindInChain(c: seq<Element>, key: int, hashv: nat)
    ensures var e := FindIn(c, key, hashv);
      && (e != null ==> e in c && e.hashv == hashv && e.key == key)
      && (e == null ==> forall x :: x in c ==> !(x.hashv == hashv && x.key == key))
    decreases |c|
  {
    if c != [] {
      FindInChain(c[1..], key, hashv);
      assert c == [c[0]] + c[1..];
    }
  }

  /** A lookup finds an item with the key exactly when the table holds one. */
  lemma FoundIff(chains: Chains, members: set<Element>, key: int, hashv: nat, k: nat)
    requires Placed(chains, members) && |chains| == Pow2(k)
    ensures Bucket(hashv, |chains|) < |chains|
    ensures var e := FindIn(chains[Bucket(hashv, |chains|)], key, hashv);
      && (e != null ==> e in members && e.hashv == hashv && e.key == key)
      && (e == null ==> forall x :: x in members ==> !(x.hashv == hashv && x.key == key))
  {
    BucketBelow(hashv, k);
    FindInChain(chains[Bucket(hashv, |chains|)], key, hashv);
  }
}
