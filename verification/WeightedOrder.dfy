/** Weighted selection without replacement, as values (internal/router/router.go). The random
    generator is the vector of its picks. */
module WeightedOrder {
  import opened Prelude

  function Product(ws: seq<int>): int { if ws == [] then 1 else ws[0] * Product(ws[1..]) }

  function Remove<T>(s: seq<T>, i: nat): (r: seq<T>)
    requires i < |s|
    ensures |r| == |s| - 1
  {
    s[..i] + s[i + 1..]
  }

  /** The index the scan stops at: each weight is subtracted from the pick until one exceeds it.
      If none does the index is 0. */
  function Scan(ws: seq<int>, pick: int, i: nat): (r: nat)
    requires i <= |ws|
    ensures ws != [] ==> r < |ws|
    decreases |ws| - i
  {
    if i == |ws| then 0
    else if pick < ws[i] then i
    else Scan(ws, pick - ws[i], i + 1)
  }

  /** Each pick is drawn from the total that remains; a total of 0 or less ends the drawing. */
  predicate ValidPicks(ws: seq<int>, total: int, picks: seq<int>)
    decreases |ws|
  {
    if ws == [] || total <= 0 then picks == []
    else
      && picks != [] && 0 <= picks[0] < total
      && var i := Scan(ws, picks[0], 0); ValidPicks(Remove(ws, i), total - ws[i], picks[1..])
  }

  function Order<T>(items: seq<T>, ws: seq<int>, total: int, picks: seq<int>): seq<T>
    requires |items| == |ws| && ValidPicks(ws, total, picks)
    decreases |items|
  {
    if items == [] then []
    else if total <= 0 then items
    else
      var i := Scan(ws, picks[0], 0);
      [items[i]] + Order(Remove(items, i), Remove(ws, i), total - ws[i], picks[1..])
  }

  lemma RemoveKeepsRest<T>(s: seq<T>, i: nat)
    requires i < |s|
    ensures multiset(s) == multiset{s[i]} + multiset(Remove(s, i))
  {
    assert s == s[..i] + [s[i]] + s[i + 1..];
  }

  lemma PutBack<T>(items: seq<T>, i: nat, rest: seq<T>)
    requires i < |items| && multiset(rest) == multiset(Remove(items, i))
    ensures multiset([items[i]] + rest) == multiset(items)
  {
    hide Remove;
    RemoveKeepsRest(items, i);
  }

  /** Whatever the weights and picks, no target is lost or repeated. */
  lemma {:induction false} OrderIsPermutation<T>(items: seq<T>, ws: seq<int>, total: int, picks: seq<int>)
    requires |items| == |ws| && ValidPicks(ws, total, picks)
    ensures multiset(Order(items, ws, total, picks)) == multiset(items)
    decreases |items|
  {
    if items != [] && total > 0 {
      var i := Scan(ws, picks[0], 0);
      var rest := Order(Remove(items, i), Remove(ws, i), total - ws[i], picks[1..]);
      OrderIsPermutation(Remove(items, i), Remove(ws, i), total - ws[i], picks[1..]);
      PutBack(items, i, rest);
    }
  }

  lemma {:induction false} SumSplit(xs: seq<int>, ys: seq<int>)
    ensures Sum(xs + ys) == Sum(xs) + Sum(ys)
  {
    if xs == [] {
      assert xs + ys == ys;
    } else {
      assert (xs + ys)[1..] == xs[1..] + ys;
      SumSplit(xs[1..], ys);
    }
  }

  lemma SumAt(ws: seq<int>, i: nat)
    requires i < |ws|
    ensures Sum(ws[..i + 1]) == Sum(ws[..i]) + ws[i]
  {
    assert ws[..i + 1] == ws[..i] + [ws[i]];
    SumSplit(ws[..i], [ws[i]]);
    assert Sum([ws[i]]) == ws[i];
  }

  lemma SumRemove(ws: seq<int>, i: nat)
    requires i < |ws|
    ensures Sum(Remove(ws, i)) == Sum(ws) - ws[i]
  {
    assert ws == ws[..i + 1] + ws[i + 1..];
    SumSplit(ws[..i + 1], ws[i + 1..]);
    SumSplit(ws[..i], ws[i + 1..]);
    SumAt(ws, i);
  }

  ghost predicate Positive(ws: seq<int>) { forall k :: 0 <= k < |ws| ==> ws[k] > 0 }

  lemma {:induction false} SumPositive(ws: seq<int>)
    requires Positive(ws)
    ensures Sum(ws) >= 0 && (ws != [] ==> Sum(ws) > 0)
  {
    if ws != [] { SumPositive(ws[1..]); }
  }

  /** Target `i` is chosen by exactly the picks in the `i`-th stretch of the total. */
  lemma {:induction false} ScanChooses(ws: seq<int>, pick: int, from: nat, i: nat)
    requires Positive(ws) && from <= i < |ws| && 0 <= pick < Sum(ws[from..])
    ensures Scan(ws, pick, from) == i <==> Sum(ws[from..i]) <= pick < Sum(ws[from..i]) + ws[i]
    decreases |ws| - from
  {
    assert ws[from..][1..] == ws[from + 1..];
    if from < i {
      assert ws[from..i] == [ws[from]] + ws[from + 1..i];
      SumSplit([ws[from]], ws[from + 1..i]);
      assert Sum([ws[from]]) == ws[from];
      assert Positive(ws[from + 1..i]);
      SumPositive(ws[from + 1..i]);
      if pick >= ws[from] { ScanChooses(ws, pick - ws[from], from + 1, i); }
    } else {
      assert ws[from..i] == [];
      if pick >= ws[from] { ScanMoves(ws, pick - ws[from], from + 1); }
    }
  }

  lemma {:induction false} ScanMoves(ws: seq<int>, pick: int, from: nat)
    requires from <= |ws| && 0 <= pick < Sum(ws[from..])
    ensures Scan(ws, pick, from) >= from
    decreases |ws| - from
  {
    if from < |ws| {
      assert ws[from..][1..] == ws[from + 1..];
      if pick >= ws[from] { ScanMoves(ws, pick - ws[from], from + 1); }
    }
  }

  // ---------------------------------------------------------------- targets without weight

  ghost predicate NonNegative(ws: seq<int>) { forall k :: 0 <= k < |ws| ==> ws[k] >= 0 }

  /** The items of weight zero, in order. */
  function Unweighted<T>(items: seq<T>, ws: seq<int>): (r: seq<T>)
    requires |items| == |ws|
    ensures |r| <= |items|
  {
    if items == [] then []
    else (if ws[0] == 0 then [items[0]] else []) + Unweighted(items[1..], ws[1..])
  }

  lemma UnweightedCons<T>(x: T, w: int, items: seq<T>, ws: seq<int>)
    requires |items| == |ws|
    ensures Unweighted([x] + items, [w] + ws) == (if w == 0 then [x] else []) + Unweighted(items, ws)
  {
    assert ([x] + items)[1..] == items && ([w] + ws)[1..] == ws;
  }

  lemma {:induction false} UnweightedRemove<T>(items: seq<T>, ws: seq<int>, i: nat)
    requires i < |items| == |ws| && ws[i] != 0
    ensures Unweighted(Remove(items, i), Remove(ws, i)) == Unweighted(items, ws)
  {
    hide Unweighted;
    var xs, vs := items[1..], ws[1..];
    assert items == [items[0]] + xs && ws == [ws[0]] + vs;
    UnweightedCons(items[0], ws[0], xs, vs);
    if i == 0 {
      assert Remove(items, 0) == xs && Remove(ws, 0) == vs;
    } else {
      assert Remove(items, i) == [items[0]] + Remove(xs, i - 1) && Remove(ws, i) == [ws[0]] + Remove(vs, i - 1);
      UnweightedRemove(xs, vs, i - 1);
      UnweightedCons(items[0], ws[0], Remove(xs, i - 1), Remove(vs, i - 1));
    }
  }

  lemma {:induction false} SumNonNegative(ws: seq<int>)
    requires NonNegative(ws)
    ensures Sum(ws) >= 0
    ensures Sum(ws) == 0 ==> forall k :: 0 <= k < |ws| ==> ws[k] == 0
  {
    if ws != [] { SumNonNegative(ws[1..]); }
  }

  lemma {:induction false} AllUnweighted<T>(items: seq<T>, ws: seq<int>)
    requires |items| == |ws| && forall k :: 0 <= k < |ws| ==> ws[k] == 0
    ensures Unweighted(items, ws) == items
  {
    if items != [] { AllUnweighted(items[1..], ws[1..]); }
  }

  lemma {:induction false} ScanFindsWeight(ws: seq<int>, pick: int, from: nat)
    requires NonNegative(ws) && from <= |ws| && 0 <= pick < Sum(ws[from..])
    ensures Scan(ws, pick, from) < |ws| && ws[Scan(ws, pick, from)] > 0
    decreases |ws| - from
  {
    if from < |ws| {
      assert ws[from..][1..] == ws[from + 1..];
      if pick >= ws[from] { ScanFindsWeight(ws, pick - ws[from], from + 1); }
    }
  }

  lemma OrderStep<T>(items: seq<T>, ws: seq<int>, total: int, picks: seq<int>)
    requires |items| == |ws| && ValidPicks(ws, total, picks)
    ensures items != [] && total > 0 ==>
              && picks != [] && 0 <= picks[0] < total
              && var i := Scan(ws, picks[0], 0);
                 && ValidPicks(Remove(ws, i), total - ws[i], picks[1..])
                 && Order(items, ws, total, picks)
                    == [items[i]] + Order(Remove(items, i), Remove(ws, i), total - ws[i], picks[1..])
    ensures items == [] || total <= 0 ==> Order(items, ws, total, picks) == items
  {
    hide Sum, Scan, Remove;
  }

  lemma StaysNonNegative(ws: seq<int>, i: nat)
    requires NonNegative(ws) && i < |ws|
    ensures NonNegative(Remove(ws, i))
  {}

  lemma NothingToSum(ws: seq<int>)
    ensures ws == [] ==> Sum(ws) == 0
  {}

  lemma TailKept<T>(x: T, rest: seq<T>, zeros: seq<T>)
    requires |zeros| <= |rest| && rest[|rest| - |zeros|..] == zeros
    ensures ([x] + rest)[|rest| + 1 - |zeros|..] == zeros
  {}

  /** Targets of weight zero are never drawn: they come last, in the configured order. */
  lemma {:induction false} ZeroWeightsLast<T>(items: seq<T>, ws: seq<int>, picks: seq<int>)
    requires |items| == |ws| && NonNegative(ws) && ValidPicks(ws, Sum(ws), picks)
    ensures var out, zeros := Order(items, ws, Sum(ws), picks), Unweighted(items, ws);
            |out| == |items| && out[|out| - |zeros|..] == zeros
    decreases |items|
  {
    hide Order, Unweighted, Sum, Scan, Remove, ValidPicks;
    SumNonNegative(ws);
    OrderStep(items, ws, Sum(ws), picks);
    if items != [] && Sum(ws) > 0 {
      assert ws[0..] == ws;
      ScanFindsWeight(ws, picks[0], 0);
      var i := Scan(ws, picks[0], 0);
      SumRemove(ws, i);
      UnweightedRemove(items, ws, i);
      StaysNonNegative(ws, i);
      ZeroWeightsLast(Remove(items, i), Remove(ws, i), picks[1..]);
      var rest := Order(Remove(items, i), Remove(ws, i), Sum(ws) - ws[i], picks[1..]);
      TailKept(items[i], rest, Unweighted(items, ws));
    } else {
      NothingToSum(ws);
      AllUnweighted(items, ws);
    }
  }

  // ---------------------------------------------------------------- how many picks give an order

  ghost predicate Distinct<T>(s: seq<T>) { forall i, j :: 0 <= i < j < |s| ==> s[i] != s[j] }

  /** `out` rearranges `items`. */
  ghost predicate Rearranges<T>(items: seq<T>, out: seq<T>) { multiset(items) == multiset(out) }

  /** The vectors that start with one of lo, ..., lo + m - 1 and go on as in `vs`. */
  ghost function StartingIn(lo: int, m: nat, vs: set<seq<int>>): set<seq<int>> {
    if m == 0 then {} else StartingIn(lo, m - 1, vs) + Prefixed(lo + m - 1, vs)
  }

  ghost function Prefixed(k: int, vs: set<seq<int>>): set<seq<int>> { set v | v in vs :: [k] + v }

  lemma {:induction false} StartingInHolds(lo: int, m: nat, vs: set<seq<int>>, x: seq<int>)
    ensures x in StartingIn(lo, m, vs) <==> x != [] && lo <= x[0] < lo + m && x[1..] in vs
  {
    if m > 0 {
      StartingInHolds(lo, m - 1, vs, x);
      var k := lo + m - 1;
      if x != [] && x[0] == k { assert x == [k] + x[1..]; }
      if exists v :: v in vs && x == [k] + v {
        var v :| v in vs && x == [k] + v;
        assert x[1..] == v;
      }
    }
  }

  lemma {:induction false} PrefixedSize(k: int, vs: set<seq<int>>)
    ensures |Prefixed(k, vs)| == |vs|
  {
    if vs != {} {
      var u :| u in vs;
      var rest := vs - {u};
      PrefixedSize(k, rest);
      forall v | v in rest
        ensures [k] + v != [k] + u
      {
        assert ([k] + v)[1..] == v && ([k] + u)[1..] == u;
      }
      assert Prefixed(k, vs) == Prefixed(k, rest) + {[k] + u};
    }
  }

  lemma UnionSize<T>(a: set<T>, b: set<T>)
    requires forall x :: x in a ==> x !in b
    ensures |a + b| == |a| + |b|
  {}

  lemma LastStretchIsNew(lo: int, m: nat, vs: set<seq<int>>)
    ensures forall x :: x in StartingIn(lo, m, vs) ==> x !in Prefixed(lo + m, vs)
  {
    forall x | x in StartingIn(lo, m, vs)
      ensures x !in Prefixed(lo + m, vs)
    {
      StartingInHolds(lo, m, vs, x);
    }
  }

  lemma StartingInStep(lo: int, m: nat, vs: set<seq<int>>)
    requires m > 0
    ensures StartingIn(lo, m, vs) == StartingIn(lo, m - 1, vs) + Prefixed(lo + m - 1, vs)
  {}

  lemma OneMore(m: nat, n: nat)
    requires m > 0
    ensures m * n == (m - 1) * n + n
  {}

  lemma {:induction false} StartingInSize(lo: int, m: nat, vs: set<seq<int>>)
    ensures |StartingIn(lo, m, vs)| == m * |vs|
  {
    if m > 0 {
      StartingInSize(lo, m - 1, vs);
      LastStretchSize(lo, m, vs);
      OneMore(m, |vs|);
    }
  }

  lemma LastStretchSize(lo: int, m: nat, vs: set<seq<int>>)
    requires m > 0
    ensures |StartingIn(lo, m, vs)| == |StartingIn(lo, m - 1, vs)| + |vs|
  {
    hide *;
    StartingInStep(lo, m, vs);
    PrefixedSize(lo + m - 1, vs);
    LastStretchIsNew(lo, m - 1, vs);
    UnionSize(StartingIn(lo, m - 1, vs), Prefixed(lo + m - 1, vs));
  }

  function IndexOf<T(==)>(s: seq<T>, x: T): (i: nat)
    requires x in s
    ensures i < |s| && s[i] == x
  {
    if s[0] == x then 0 else 1 + IndexOf(s[1..], x)
  }

  lemma RemoveDistinct<T>(s: seq<T>, i: nat)
    requires Distinct(s) && i < |s|
    ensures Distinct(Remove(s, i))
  {}

  lemma FirstOfRearranged<T>(items: seq<T>, out: seq<T>)
    requires Rearranges(items, out) && items != []
    ensures out != [] && out[0] in items && |out| == |items|
  {
    assert |multiset(items)| == |items| && |multiset(out)| == |out|;
    assert out[0] in multiset(out);
  }

  lemma RestRearranges<T>(items: seq<T>, out: seq<T>, i: nat)
    requires Rearranges(items, out) && i < |items| && out != [] && out[0] == items[i]
    ensures Rearranges(Remove(items, i), out[1..])
  {
    RemoveKeepsRest(items, i);
    RemoveKeepsRest(out, 0);
    assert Remove(out, 0) == out[1..];
    assert multiset(Remove(items, i)) == multiset(items) - multiset{items[i]};
    assert multiset(out[1..]) == multiset(out) - multiset{out[0]};
  }

  lemma Shrinks<T>(items: seq<T>, out: seq<T>)
    requires Distinct(items) && Rearranges(items, out) && items != []
    ensures out != [] && out[0] in items && |out| == |items|
    ensures var i := IndexOf(items, out[0]);
            Distinct(Remove(items, i)) && Rearranges(Remove(items, i), out[1..])
  {
    FirstOfRearranged(items, out);
    RemoveDistinct(items, IndexOf(items, out[0]));
    RestRearranges(items, out, IndexOf(items, out[0]));
  }

  lemma RemovePositive(ws: seq<int>, i: nat)
    requires Positive(ws) && i < |ws|
    ensures Positive(Remove(ws, i))
  {}

  /** The pick vectors that put `items` in the order `out`. */
  ghost function PickVectors<T>(items: seq<T>, ws: seq<int>, out: seq<T>): set<seq<int>>
    requires |items| == |ws| && Positive(ws) && Distinct(items) && Rearranges(items, out)
    decreases |items|
  {
    if items == [] then {[]}
    else
      Shrinks(items, out);
      var i := IndexOf(items, out[0]);
      RemovePositive(ws, i);
      StartingIn(Sum(ws[..i]), ws[i], PickVectors(Remove(items, i), Remove(ws, i), out[1..]))
  }

  /** The first pick decides the first target. */
  lemma FirstPick<T>(items: seq<T>, ws: seq<int>, i: nat, pick: int)
    requires |items| == |ws| && Positive(ws) && Distinct(items) && i < |items| && 0 <= pick < Sum(ws)
    ensures items[Scan(ws, pick, 0)] == items[i] <==> Scan(ws, pick, 0) == i
    ensures Scan(ws, pick, 0) == i <==> Sum(ws[..i]) <= pick < Sum(ws[..i]) + ws[i]
  {
    assert ws[0..] == ws && ws[0..i] == ws[..i];
    ScanChooses(ws, pick, 0, i);
  }

  lemma OrderBegins<T>(items: seq<T>, ws: seq<int>, total: int, picks: seq<int>, out: seq<T>)
    requires |items| == |ws| && ValidPicks(ws, total, picks) && items != [] && total > 0 && out != []
    ensures var i := Scan(ws, picks[0], 0);
            (Order(items, ws, total, picks) == out)
            == (items[i] == out[0] && Order(Remove(items, i), Remove(ws, i), total - ws[i], picks[1..]) == out[1..])
  {
    hide Order, Scan, Remove, ValidPicks, Sum;
    OrderStep(items, ws, total, picks);
    var i := Scan(ws, picks[0], 0);
    var rest := Order(Remove(items, i), Remove(ws, i), total - ws[i], picks[1..]);
    assert ([items[i]] + rest)[1..] == rest;
    assert out == [out[0]] + out[1..];
  }

  /** The picks are in range and put `items` in the order `out`. */
  ghost predicate Gives<T>(items: seq<T>, ws: seq<int>, out: seq<T>, picks: seq<int>)
    requires |items| == |ws|
  {
    ValidPicks(ws, Sum(ws), picks) && Order(items, ws, Sum(ws), picks) == out
  }

  lemma GivesStep<T>(items: seq<T>, ws: seq<int>, out: seq<T>, picks: seq<int>, i: nat)
    requires |items| == |ws| && Positive(ws) && Distinct(items) && i < |items|
    requires out != [] && out[0] == items[i]
    ensures Gives(items, ws, out, picks)
       <==> && picks != [] && Sum(ws[..i]) <= picks[0] < Sum(ws[..i]) + ws[i]
            && Gives(Remove(items, i), Remove(ws, i), out[1..], picks[1..])
  {
    SumPositive(ws);
    StretchInTotal(ws, i);
    if picks != [] && 0 <= picks[0] < Sum(ws) {
      FirstPick(items, ws, i, picks[0]);
      SumRemove(ws, i);
      if ValidPicks(ws, Sum(ws), picks) { OrderBegins(items, ws, Sum(ws), picks, out); }
    }
  }

  lemma {:induction false} PickVectorsGiveOrder<T>(items: seq<T>, ws: seq<int>, out: seq<T>, picks: seq<int>)
    requires |items| == |ws| && Positive(ws) && Distinct(items) && Rearranges(items, out)
    ensures picks in PickVectors(items, ws, out) <==> Gives(items, ws, out, picks)
    decreases |items|
  {
    if items == [] {
      assert |multiset(out)| == |out|;
    } else {
      Shrinks(items, out);
      var i := IndexOf(items, out[0]);
      RemovePositive(ws, i);
      GivesStep(items, ws, out, picks, i);
      StartingInHolds(Sum(ws[..i]), ws[i], PickVectors(Remove(items, i), Remove(ws, i), out[1..]), picks);
      if picks != [] { PickVectorsGiveOrder(Remove(items, i), Remove(ws, i), out[1..], picks[1..]); }
    }
  }

  lemma StretchInTotal(ws: seq<int>, i: nat)
    requires Positive(ws) && i < |ws|
    ensures 0 <= Sum(ws[..i]) && Sum(ws[..i]) + ws[i] <= Sum(ws)
  {
    SumAt(ws, i);
    assert ws == ws[..i + 1] + ws[i + 1..];
    SumSplit(ws[..i + 1], ws[i + 1..]);
    SumPositive(ws[..i]);
    SumPositive(ws[i + 1..]);
  }

  lemma {:induction false} ProductRemove(ws: seq<int>, i: nat)
    requires i < |ws|
    ensures Product(ws) == ws[i] * Product(Remove(ws, i))
  {
    if i == 0 {
      assert Remove(ws, 0) == ws[1..];
    } else {
      ProductRemove(ws[1..], i - 1);
      assert Remove(ws, i)[1..] == Remove(ws[1..], i - 1);
      assert ws[0] * (ws[i] * Product(Remove(ws[1..], i - 1))) == ws[i] * (ws[0] * Product(Remove(ws[1..], i - 1)));
    }
  }

  lemma {:induction false} PickVectorsSize<T>(items: seq<T>, ws: seq<int>, out: seq<T>)
    requires |items| == |ws| && Positive(ws) && Distinct(items) && Rearranges(items, out)
    ensures |PickVectors(items, ws, out)| == Product(ws)
    decreases |items|
  {
    if items != [] {
      Shrinks(items, out);
      var i := IndexOf(items, out[0]);
      RemovePositive(ws, i);
      StartingInSize(Sum(ws[..i]), ws[i], PickVectors(Remove(items, i), Remove(ws, i), out[1..]));
      PickVectorsSize(Remove(items, i), Remove(ws, i), out[1..]);
      ProductRemove(ws, i);
    }
  }

  /** For positive weights, every order of distinct targets is produced by exactly as many pick
      vectors as the product of all weights. */
  lemma {:induction false} EveryOrderHasTheSameCount<T>(items: seq<T>, ws: seq<int>, out: seq<T>)
    requires |items| == |ws| && Positive(ws) && Distinct(items) && Rearranges(items, out)
    ensures |PickVectors(items, ws, out)| == Product(ws)
    ensures forall picks :: picks in PickVectors(items, ws, out) <==> Gives(items, ws, out, picks)
  {
    PickVectorsSize(items, ws, out);
    forall picks
      ensures picks in PickVectors(items, ws, out) <==> Gives(items, ws, out, picks)
    {
      PickVectorsGiveOrder(items, ws, out, picks);
    }
  }
}
