/** The dashboard's derived view of a snapshot (`filteredCoins` in the
    component): keep the coins whose name or symbol contains the search term
    (case-insensitively) and whose market-cap class is the selected one, then
    sort them stably by the chosen field in the chosen direction. */
module ViewProjection {
  import opened Sequences
  import opened Market

  /** The market-cap selector: every class, or one of them. */
  datatype CapFilter = AllCaps | Only(bucket: Bucket)

  datatype SortField = MarketCapField | PriceField | Change24hField

  datatype SortOrder = Asc | Desc

  // ---------------------------------------------------------------------------
  // Case-insensitive substring search

  /** Lower-casing, restricted to the ASCII letters: a capital becomes the
      small letter at the same place in the alphabet. */
  function LowerChar(c: char): (d: char)
    ensures !('A' <= d <= 'Z')
    ensures !('A' <= c <= 'Z') ==> d == c
    ensures 'A' <= c <= 'Z' ==> 'a' <= d <= 'z' && d as int - 'a' as int == c as int - 'A' as int
  {
    if 'A' <= c <= 'Z' then (c as int + 32) as char else c
  }

  /** `toLowerCase`: every character lower-cased in place. */
  function Lower(s: string): (r: string)
    ensures |r| == |s|
    ensures forall i :: 0 <= i < |s| ==> r[i] == LowerChar(s[i])
    ensures forall i :: 0 <= i < |r| ==> !('A' <= r[i] <= 'Z')
    decreases |s|
  {
    if s == [] then [] else [LowerChar(s[0])] + Lower(s[1..])
  }

  /** Lower-casing an already lower-case string changes nothing. */
  lemma {:induction false} LowerIdempotent(s: string)
    ensures Lower(Lower(s)) == Lower(s)
    decreases |s|
  {
    if s != [] {
      var r := Lower(s);
      assert r[0] == LowerChar(s[0]) && r[1..] == Lower(s[1..]);
      LowerIdempotent(s[1..]);
    }
  }

  /** `String.prototype.includes`: `needle` occurs somewhere in `hay`. */
  function Contains(hay: string, needle: string): (b: bool)
    ensures |needle| == 0 ==> b
    ensures b ==> |needle| <= |hay|
    decreases |hay|
  {
    needle <= hay || (hay != [] && Contains(hay[1..], needle))
  }

  /** `needle` occurs in `hay` starting at index `i`. */
  predicate OccursAt(hay: string, needle: string, i: int) {
    0 <= i <= |hay| - |needle| && hay[i..i + |needle|] == needle
  }

  /** A successful search finds an index where the term occurs. */
  lemma {:induction false} ContainsWitness(hay: string, needle: string) returns (i: int)
    requires Contains(hay, needle)
    ensures OccursAt(hay, needle, i)
    decreases |hay|
  {
    if needle <= hay {
      i := 0;
      assert hay[..|needle|] == needle;
    } else {
      var i' := ContainsWitness(hay[1..], needle);
      i := i' + 1;
      assert hay[i..i + |needle|] == hay[1..][i'..i' + |needle|];
    }
  }

  /** A term that occurs at some index is found by the search. */
  lemma {:induction false} OccursContains(hay: string, needle: string, i: int)
    requires OccursAt(hay, needle, i)
    ensures Contains(hay, needle)
    decreases |hay|
  {
    if i == 0 {
      assert hay[..|needle|] == needle;
    } else {
      assert hay[1..][i - 1..i - 1 + |needle|] == hay[i..i + |needle|];
      OccursContains(hay[1..], needle, i - 1);
    }
  }

  /** The search agrees with the reference definition of a substring. */
  lemma ContainsIff(hay: string, needle: string)
    ensures Contains(hay, needle) <==> exists i :: OccursAt(hay, needle, i)
  {
    if Contains(hay, needle) {
      var i := ContainsWitness(hay, needle);
    }
    if exists i :: OccursAt(hay, needle, i) {
      var i :| OccursAt(hay, needle, i);
      OccursContains(hay, needle, i);
    }
  }

  /** `matchesSearch`: the lower-cased term occurs in the lower-cased name or symbol. */
  predicate MatchesSearch(c: Coin, term: string) {
    Contains(Lower(c.name), Lower(term)) || Contains(Lower(c.symbol), Lower(term))
  }

  /** `matchesMarketCap`: the selector is `all` or names the coin's class. */
  predicate MatchesCap(c: Coin, cap: CapFilter) {
    cap == AllCaps || Category(c.marketCap) == cap.bucket
  }

  // ---------------------------------------------------------------------------
  // Filtering

  /** The filter's predicate, as one value so that every use names the same function. */
  function Kept(term: string, cap: CapFilter): Coin -> bool {
    c => MatchesSearch(c, term) && MatchesCap(c, cap)
  }

  function FilterCoins(coins: seq<Coin>, term: string, cap: CapFilter): seq<Coin> {
    Select(coins, Kept(term, cap))
  }

  /** A coin is in the filtered list exactly when it is in the snapshot and
      passes both the search and the market-cap test; order is kept. */
  lemma FilterSound(coins: seq<Coin>, term: string, cap: CapFilter)
    ensures forall c :: c in FilterCoins(coins, term, cap) <==>
                        c in coins && MatchesSearch(c, term) && MatchesCap(c, cap)
    ensures Subsequence(FilterCoins(coins, term, cap), coins)
  {
    SelectMembershipAll(coins, Kept(term, cap));
    SelectIsSubsequence(coins, Kept(term, cap));
  }

  /** An empty search with every market-cap class selected keeps the whole snapshot. */
  lemma FilterKeepsAll(coins: seq<Coin>)
    ensures FilterCoins(coins, "", AllCaps) == coins
  {
    SelectAll(coins, Kept("", AllCaps));
  }

  /** Two search terms that differ only in letter case select the same coins. */
  lemma {:induction false} FilterCaseInsensitive(coins: seq<Coin>, t1: string, t2: string, cap: CapFilter)
    requires Lower(t1) == Lower(t2)
    ensures FilterCoins(coins, t1, cap) == FilterCoins(coins, t2, cap)
    decreases |coins|
  {
    if coins != [] {
      FilterCaseInsensitive(coins[1..], t1, t2, cap);
    }
  }

  // ---------------------------------------------------------------------------
  // Sorting

  /** The compared value; a missing 24h change compares as 0. */
  function Key(c: Coin, field: SortField): real {
    match field
    case MarketCapField => c.marketCap
    case PriceField => c.currentPrice
    case Change24hField => match c.change24h { case None => 0.0 case Some(v) => v }
  }

  /** `x` may stand before `y`: the comparator's result for (x, y) is not positive. */
  predicate InOrder(x: Coin, y: Coin, field: SortField, order: SortOrder) {
    if order == Asc then Key(x, field) <= Key(y, field) else Key(x, field) >= Key(y, field)
  }

  predicate Sorted(s: seq<Coin>, field: SortField, order: SortOrder) {
    forall i, j :: 0 <= i < j < |s| ==> InOrder(s[i], s[j], field, order)
  }

  /** The coins whose sort key is `k`; stability is stated through it. */
  function HasKey(field: SortField, k: real): Coin -> bool {
    c => Key(c, field) == k
  }

  /** Inserts `x` into sorted `t` after every element it does not strictly precede. */
  function InsertLast(t: seq<Coin>, x: Coin, field: SortField, order: SortOrder): (r: seq<Coin>)
    decreases |t|
  {
    if t == [] then [x]
    else if InOrder(t[|t| - 1], x, field, order) then t + [x]
    else InsertLast(t[..|t| - 1], x, field, order) + [t[|t| - 1]]
  }

  /** The stable sort that `filtered.sort(comparator)` performs: insertion from left to right. */
  function SortSeq(s: seq<Coin>, field: SortField, order: SortOrder): (r: seq<Coin>)
    decreases |s|
  {
    if s == [] then []
    else InsertLast(SortSeq(s[..|s| - 1], field, order), s[|s| - 1], field, order)
  }

  lemma {:induction false} InsertLastMultiset(t: seq<Coin>, x: Coin, field: SortField, order: SortOrder)
    ensures multiset(InsertLast(t, x, field, order)) == multiset(t) + multiset{x}
    decreases |t|
  {
    if t != [] && !InOrder(t[|t| - 1], x, field, order) {
      InsertLastMultiset(t[..|t| - 1], x, field, order);
      assert t == t[..|t| - 1] + [t[|t| - 1]];
    }
  }

  lemma {:induction false} InsertLastSorted(t: seq<Coin>, x: Coin, field: SortField, order: SortOrder)
    requires Sorted(t, field, order)
    ensures Sorted(InsertLast(t, x, field, order), field, order)
    decreases |t|
  {
    if t == [] {
    } else if InOrder(t[|t| - 1], x, field, order) {
      var r := t + [x];
      forall i, j | 0 <= i < j < |r| ensures InOrder(r[i], r[j], field, order) {
        if j == |t| && i < |t| - 1 {
          assert InOrder(t[i], t[|t| - 1], field, order);
        }
      }
    } else {
      var init, last := t[..|t| - 1], t[|t| - 1];
      InsertLastSorted(init, x, field, order);
      var u := InsertLast(init, x, field, order);
      InsertLastMultiset(init, x, field, order);
      var r := u + [last];
      forall i, j | 0 <= i < j < |r| ensures InOrder(r[i], r[j], field, order) {
        if j == |u| {
          assert r[i] in multiset(init) + multiset{x} by {
            assert r[i] in multiset(u);
          }
          if r[i] != x {
            var k :| 0 <= k < |init| && init[k] == r[i];
            assert InOrder(t[k], t[|t| - 1], field, order);
          }
        }
      }
    }
  }

  /** Inserting `x` appends it to the run of coins sharing its key and leaves every other run alone. */
  lemma {:induction false} InsertLastStable(t: seq<Coin>, x: Coin, field: SortField, order: SortOrder, k: real)
    ensures Select(InsertLast(t, x, field, order), HasKey(field, k)) ==
            Select(t, HasKey(field, k)) + Select([x], HasKey(field, k))
    decreases |t|
  {
    var p := HasKey(field, k);
    if t == [] {
    } else if InOrder(t[|t| - 1], x, field, order) {
      SelectAppend(t, [x], p);
    } else {
      var init, last := t[..|t| - 1], t[|t| - 1];
      InsertLastStable(init, x, field, order, k);
      SelectAppend(InsertLast(init, x, field, order), [last], p);
      SelectAppend(init, [last], p);
      assert t == init + [last];
      // x strictly precedes last, so at most one of them has key k
      assert Key(x, field) != Key(last, field);
    }
  }

  /** Sorting only reorders: the result is a permutation of the input. */
  lemma {:induction false} SortSeqPermutation(s: seq<Coin>, field: SortField, order: SortOrder)
    ensures multiset(SortSeq(s, field, order)) == multiset(s)
    decreases |s|
  {
    if s != [] {
      SortSeqPermutation(s[..|s| - 1], field, order);
      InsertLastMultiset(SortSeq(s[..|s| - 1], field, order), s[|s| - 1], field, order);
      assert s == s[..|s| - 1] + [s[|s| - 1]];
    }
  }

  /** The result is ordered by the key: non-decreasing for Asc, non-increasing for Desc. */
  lemma {:induction false} SortSeqSorted(s: seq<Coin>, field: SortField, order: SortOrder)
    ensures Sorted(SortSeq(s, field, order), field, order)
    decreases |s|
  {
    if s != [] {
      SortSeqSorted(s[..|s| - 1], field, order);
      InsertLastSorted(SortSeq(s[..|s| - 1], field, order), s[|s| - 1], field, order);
    }
  }

  /** Stability: for every key value, the coins carrying it appear in the
      sorted result in the same relative order as in the input. */
  lemma {:induction false} SortSeqStable(s: seq<Coin>, field: SortField, order: SortOrder, k: real)
    ensures Select(SortSeq(s, field, order), HasKey(field, k)) == Select(s, HasKey(field, k))
    decreases |s|
  {
    if s != [] {
      var init, last := s[..|s| - 1], s[|s| - 1];
      SortSeqStable(init, field, order, k);
      InsertLastStable(SortSeq(init, field, order), last, field, order, k);
      SelectAppend(init, [last], HasKey(field, k));
      assert s == init + [last];
    }
  }

  /** A coin's own key run is never empty. */
  lemma {:induction false} OwnRunNonEmpty(s: seq<Coin>, field: SortField)
    requires s != []
    ensures Select(s, HasKey(field, Key(s[0], field))) != []
  {
    SelectMembership(s, HasKey(field, Key(s[0], field)), s[0]);
  }

  /** In a sorted list every element may stand before the last one. */
  lemma {:induction false} LastIsExtreme(s: seq<Coin>, x: Coin, field: SortField, order: SortOrder)
    requires Sorted(s, field, order) && x in s
    ensures InOrder(x, s[|s| - 1], field, order)
  {
    var i :| 0 <= i < |s| && s[i] == x;
    if i < |s| - 1 {
      assert InOrder(s[i], s[|s| - 1], field, order);
    }
  }

  /** Two sorted lists with the same key runs end with coins of the same key. */
  lemma {:induction false} LastKeysAgree(r: seq<Coin>, u: seq<Coin>, field: SortField, order: SortOrder)
    requires r != [] && u != []
    requires Sorted(r, field, order) && Sorted(u, field, order)
    requires forall k :: Select(r, HasKey(field, k)) == Select(u, HasKey(field, k))
    ensures Key(r[|r| - 1], field) == Key(u[|u| - 1], field)
  {
    var m, n := r[|r| - 1], u[|u| - 1];
    SelectMembership(r, HasKey(field, Key(m, field)), m);
    SelectMembership(u, HasKey(field, Key(m, field)), m);
    SelectMembership(u, HasKey(field, Key(n, field)), n);
    SelectMembership(r, HasKey(field, Key(n, field)), n);
    LastIsExtreme(u, m, field, order);
    LastIsExtreme(r, n, field, order);
  }

  /** ... and then with the same coin, and what precedes the two still has equal key runs. */
  lemma {:induction false} DropLastRuns(r: seq<Coin>, u: seq<Coin>, field: SortField)
    requires r != [] && u != []
    requires Key(r[|r| - 1], field) == Key(u[|u| - 1], field)
    requires forall k :: Select(r, HasKey(field, k)) == Select(u, HasKey(field, k))
    ensures r[|r| - 1] == u[|u| - 1]
    ensures forall k :: Select(r[..|r| - 1], HasKey(field, k)) == Select(u[..|u| - 1], HasKey(field, k))
  {
    var r', m := r[..|r| - 1], r[|r| - 1];
    var u', n := u[..|u| - 1], u[|u| - 1];
    assert r == r' + [m] && u == u' + [n];
    forall k ensures Select(r', HasKey(field, k)) == Select(u', HasKey(field, k)) {
      SelectDropLast(r', m, u', n, HasKey(field, k));
    }
    SelectDropLast(r', m, u', n, HasKey(field, Key(m, field)));
  }

  /** Two sorted lists with the same run of coins for every key are the same list. */
  lemma {:induction false} SortedRunsDetermine(r: seq<Coin>, u: seq<Coin>, field: SortField, order: SortOrder)
    requires Sorted(r, field, order) && Sorted(u, field, order)
    requires forall k :: Select(r, HasKey(field, k)) == Select(u, HasKey(field, k))
    ensures r == u
    decreases |r|
  {
    if r != [] {
      OwnRunNonEmpty(r, field);
    }
    if u != [] {
      OwnRunNonEmpty(u, field);
    }
    if r != [] && u != [] {
      LastKeysAgree(r, u, field, order);
      DropLastRuns(r, u, field);
      SortedRunsDetermine(r[..|r| - 1], u[..|u| - 1], field, order);
      assert r == r[..|r| - 1] + [r[|r| - 1]];
      assert u == u[..|u| - 1] + [u[|u| - 1]];
    }
  }

  /** Any stable sort gives the same result: a sorted list whose key runs are
      those of `s` is `SortSeq(s)`, whichever algorithm produced it. */
  lemma {:induction false} SortSeqUnique(s: seq<Coin>, r: seq<Coin>, field: SortField, order: SortOrder)
    requires Sorted(r, field, order)
    requires forall k :: Select(r, HasKey(field, k)) == Select(s, HasKey(field, k))
    ensures r == SortSeq(s, field, order)
  {
    SortSeqSorted(s, field, order);
    forall k ensures Select(r, HasKey(field, k)) == Select(SortSeq(s, field, order), HasKey(field, k)) {
      SortSeqStable(s, field, order, k);
    }
    SortedRunsDetermine(r, SortSeq(s, field, order), field, order);
  }

  /** A list that is already in order comes out unchanged. */
  lemma {:induction false} SortSeqOfSorted(s: seq<Coin>, field: SortField, order: SortOrder)
    requires Sorted(s, field, order)
    ensures SortSeq(s, field, order) == s
    decreases |s|
  {
    if s != [] {
      var init := s[..|s| - 1];
      assert Sorted(init, field, order);
      SortSeqOfSorted(init, field, order);
      if |s| > 1 {
        assert InOrder(s[|s| - 2], s[|s| - 1], field, order);
        assert init[|init| - 1] == s[|s| - 2];
      }
      assert s == init + [s[|s| - 1]];
    }
  }

  /** Where the shifting loop stops: `x` goes after `t[..j]` when it strictly
      precedes every element of `t[j..]` and not `t[j - 1]`. */
  lemma {:induction false} InsertLastAt(t: seq<Coin>, j: nat, x: Coin, field: SortField, order: SortOrder)
    requires j <= |t|
    requires forall k :: j <= k < |t| ==> !InOrder(t[k], x, field, order)
    requires j == 0 || InOrder(t[j - 1], x, field, order)
    ensures InsertLast(t, x, field, order) == t[..j] + [x] + t[j..]
    decreases |t|
  {
    if j < |t| {
      var init := t[..|t| - 1];
      assert init[..j] == t[..j];
      assert forall k :: j <= k < |init| ==> init[k] == t[k];
      InsertLastAt(init, j, x, field, order);
      assert t[j..] == init[j..] + [t[|t| - 1]];
    }
  }

  /** One pass of the insertion sort: moves `a[i]` left past every element it
      strictly precedes, shifting those one place right. */
  method InsertAt(a: array<Coin>, i: nat, field: SortField, order: SortOrder)
    requires i < a.Length
    modifies a
    ensures a[..i + 1] == InsertLast(old(a[..i]), old(a[i]), field, order)
    ensures a[i + 1..] == old(a[i + 1..])
  {
    var x := a[i];
    ghost var t := a[..i];
    var j := i;
    while j > 0 && !InOrder(a[j - 1], x, field, order)
      invariant 0 <= j <= i
      invariant forall k :: 0 <= k < j ==> a[k] == t[k]
      invariant forall k :: j < k <= i ==> a[k] == t[k - 1]
      invariant forall k :: i < k < a.Length ==> a[k] == old(a[k])
      invariant forall k :: j <= k < i ==> !InOrder(t[k], x, field, order)
    {
      a[j] := a[j - 1];
      j := j - 1;
    }
    a[j] := x;
    InsertLastAt(t, j, x, field, order);
    assert a[..i + 1] == t[..j] + [x] + t[j..];
  }

  /** `filtered.sort(comparator)`: a stable sort of the array in place. */
  method SortCoins(a: array<Coin>, field: SortField, order: SortOrder)
    modifies a
    ensures a[..] == SortSeq(old(a[..]), field, order)
  {
    ghost var s := a[..];
    var i := 0;
    while i < a.Length
      invariant 0 <= i <= a.Length
      invariant a[..i] == SortSeq(s[..i], field, order)
      invariant a[i..] == s[i..]
    {
      InsertAt(a, i, field, order);
      assert s[..i + 1][..i] == s[..i];
      assert a[i + 1..] == s[i + 1..];
      i := i + 1;
    }
    assert s[..a.Length] == s;
  }

  /** `filteredCoins`: filter the snapshot, then sort the filtered copy.
      The snapshot itself is not changed. */
  method FilteredCoins(coins: seq<Coin>, term: string, cap: CapFilter, field: SortField, order: SortOrder)
    returns (view: seq<Coin>)
    ensures forall c :: c in view <==> c in coins && MatchesSearch(c, term) && MatchesCap(c, cap)
    ensures multiset(view) == multiset(FilterCoins(coins, term, cap))
    ensures Sorted(view, field, order)
    ensures forall k :: Select(view, HasKey(field, k)) == Select(FilterCoins(coins, term, cap), HasKey(field, k))
    ensures view == SortSeq(FilterCoins(coins, term, cap), field, order)
  {
    var filtered := FilterCoins(coins, term, cap);
    var a := new Coin[|filtered|](i requires 0 <= i < |filtered| => filtered[i]);
    assert a[..] == filtered;
    SortCoins(a, field, order);
    view := a[..];
    FilterSound(coins, term, cap);
    SortSeqPermutation(filtered, field, order);
    SortSeqSorted(filtered, field, order);
    forall k ensures Select(view, HasKey(field, k)) == Select(filtered, HasKey(field, k)) {
      SortSeqStable(filtered, field, order, k);
    }
    forall c ensures c in view <==> c in filtered {
      assert c in view <==> c in multiset(view);
      assert c in filtered <==> c in multiset(filtered);
    }
  }

  /** Two coins, one in each of the large and mid classes: sorted by market cap
      descending with every class selected they come out largest first, and
      each single class keeps only its own coin. */
  lemma TwoCoinScenario()
    ensures var btc := Coin("bitcoin", "Bitcoin", "btc", 50000.0, 900000000000.0, Some(2.5));
            var xmr := Coin("monero", "Monero", "xmr", 150.0, 3000000000.0, Some(-1.2));
            && SortSeq(FilterCoins([xmr, btc], "", AllCaps), MarketCapField, Desc) == [btc, xmr]
            && FilterCoins([btc, xmr], "", Only(Mid)) == [xmr]
            && FilterCoins([btc, xmr], "", Only(Large)) == [btc]
  {
    var btc := Coin("bitcoin", "Bitcoin", "btc", 50000.0, 900000000000.0, Some(2.5));
    var xmr := Coin("monero", "Monero", "xmr", 150.0, 3000000000.0, Some(-1.2));
    FilterKeepsAll([xmr, btc]);
    assert [xmr, btc][..1] == [xmr];
    assert SortSeq([xmr], MarketCapField, Desc) == [xmr];
    assert !InOrder(xmr, btc, MarketCapField, Desc);
    assert [xmr][..0] == [];
    assert InsertLast([xmr], btc, MarketCapField, Desc) == [btc, xmr];
    assert [btc, xmr][1..] == [xmr];
  }
}
