/** The availability probe picks one uncached file in a single pass over all listings. */
module ProbePick {
  import opened Wrappers

  /** An indexed entry together with what the probe finds out about it. */
  datatype Item = Item(path: string, isDir: bool, cached: bool)

  function StripSlashes(text: string): string
    decreases |text|
  {
    if text != "" && text[0] == '/' then StripSlashes(text[1..])
    else if text != "" && text[|text| - 1] == '/' then StripSlashes(text[..|text| - 1])
    else text
  }

  predicate Eligible(item: Item) {
    !item.isDir && StripSlashes(item.path) != "" && !item.cached
  }

  function Candidates(items: seq<Item>): seq<Item> {
    if items == [] then []
    else
      var n := |items| - 1;
      Candidates(items[..n]) + if Eligible(items[n]) then [items[n]] else []
  }

  function Concat(listings: seq<seq<Item>>): seq<Item> {
    if listings == [] then [] else Concat(listings[..|listings| - 1]) + listings[|listings| - 1]
  }

  lemma CandidatesAppend(items: seq<Item>, item: Item)
    ensures Candidates(items + [item]) == Candidates(items) + if Eligible(item) then [item] else []
  {
  }

  predicate HasName(path: string) {
    exists c :: c in path && c != '/'
  }

  lemma {:induction false} StripSlashesEmpty(text: string)
    ensures StripSlashes(text) != "" <==> HasName(text)
    decreases |text|
  {
    if text != "" && text[0] == '/' {
      StripSlashesEmpty(text[1..]);
      SlashSaysNothing(text, text[1..]);
    } else if text != "" && text[|text| - 1] == '/' {
      StripSlashesEmpty(text[..|text| - 1]);
      SlashSaysNothing(text, text[..|text| - 1]);
    } else if text != "" {
      assert text[0] in text;
    }
  }

  lemma SlashSaysNothing(text: string, rest: string)
    requires text == ['/'] + rest || text == rest + ['/']
    ensures HasName(text) <==> HasName(rest)
  {
    forall c | c != '/' ensures c in text <==> c in rest {
    }
  }

  /** The candidates are the uncached files with a name, each as often as it is listed. */
  lemma {:induction false} CandidatesMean(items: seq<Item>, item: Item)
    ensures multiset(Candidates(items))[item] ==
              if !item.isDir && !item.cached && HasName(item.path) then multiset(items)[item] else 0
  {
    StripSlashesEmpty(item.path);
    if items != [] {
      var n := |items| - 1;
      CandidatesMean(items[..n], item);
      assert items == items[..n] + [items[n]];
    }
  }

  lemma {:induction false} ConcatMeans(listings: seq<seq<Item>>, item: Item)
    ensures item in Concat(listings) <==> exists l :: l in listings && item in l
  {
    if listings != [] {
      var n := |listings| - 1;
      ConcatMeans(listings[..n], item);
      assert listings == listings[..n] + [listings[n]];
    }
  }

  /** What the probe picks is an uncached file with a name out of one of the listings, and it picks
      something iff there is one. */
  lemma PickedIsUncached(listings: seq<seq<Item>>, draws: seq<nat>)
    requires ValidDraws(draws) && |draws| == |Candidates(Concat(listings))|
    ensures var picked := Chosen(Candidates(Concat(listings)), draws);
            && (picked.Some? <==>
                  exists l, item :: l in listings && item in l && Probed(item))
            && (picked.Some? ==> Probed(picked.value) && exists l :: l in listings && picked.value in l)
  {
    var all := Concat(listings);
    var candidates := Candidates(all);
    forall item
      ensures item in candidates <==> item in all && Probed(item)
      ensures item in all <==> exists l :: l in listings && item in l
    {
      CandidatesMean(all, item);
      ConcatMeans(listings, item);
      assert item in candidates <==> item in multiset(candidates);
      assert item in all <==> item in multiset(all);
    }
    if candidates != [] {
      WinnerInRange(draws);
      assert candidates[Winner(draws)] in candidates;
    }
    if l, item :| l in listings && item in l && Probed(item) {
      assert item in candidates;
    }
  }

  predicate Probed(item: Item) {
    !item.isDir && !item.cached && HasName(item.path)
  }

  // ---- Draws ----

  /** Position i draws one of i + 1 numbers. */
  predicate ValidDraws(d: seq<nat>) {
    forall i :: 0 <= i < |d| ==> d[i] <= i
  }

  /** The last position that drew zero. */
  function Winner(d: seq<nat>): nat {
    if d == [] then 0
    else if d[|d| - 1] == 0 then |d| - 1
    else Winner(d[..|d| - 1])
  }

  lemma {:induction false} WinnerInRange(d: seq<nat>)
    requires ValidDraws(d) && d != []
    ensures Winner(d) < |d| && d[Winner(d)] == 0
    ensures forall i :: Winner(d) < i < |d| ==> d[i] != 0
  {
    if d[|d| - 1] != 0 {
      WinnerInRange(d[..|d| - 1]);
    }
  }

  function Chosen(candidates: seq<Item>, d: seq<nat>): (chosen: Option<Item>)
    requires ValidDraws(d) && |d| == |candidates|
  {
    if candidates == [] then None
    else
      WinnerInRange(d);
      Some(candidates[Winner(d)])
  }

  /** The running candidate is the choice among the candidates met so far. */
  ghost predicate Holding(items: seq<Item>, seen: nat, candidate: Option<Item>, draws: seq<nat>) {
    && ValidDraws(draws) && seen == |Candidates(items)| <= |draws|
    && candidate == Chosen(Candidates(items), draws[..seen])
  }

  lemma TakeItem(items: seq<Item>, seen: nat, candidate: Option<Item>, draws: seq<nat>, item: Item)
    requires Holding(items, seen, candidate, draws) && |Candidates(items + [item])| <= |draws|
    ensures Eligible(item) ==> seen < |draws|
    ensures Eligible(item) ==>
              Holding(items + [item], seen + 1, if draws[seen] == 0 then Some(item) else candidate, draws)
    ensures !Eligible(item) ==> Holding(items + [item], seen, candidate, draws)
  {
    CandidatesAppend(items, item);
    assert Candidates(items) + [] == Candidates(items);
    if Eligible(item) {
      assert draws[..seen + 1][..seen] == draws[..seen];
      if draws[seen] != 0 {
        assert seen > 0;
        WinnerInRange(draws[..seen]);
        assert Winner(draws[..seen + 1]) == Winner(draws[..seen]);
      }
    }
  }

  method ScanListing(ghost before: seq<Item>, listing: seq<Item>, seen0: nat, candidate0: Option<Item>,
                     draws: seq<nat>)
    returns (seen: nat, candidate: Option<Item>)
    requires Holding(before, seen0, candidate0, draws) && |Candidates(before + listing)| <= |draws|
    ensures Holding(before + listing, seen, candidate, draws)
  {
    seen, candidate := seen0, candidate0;
    assert before + listing[..0] == before;
    for j := 0 to |listing|
      invariant Holding(before + listing[..j], seen, candidate, draws)
    {
      var item := listing[j];
      NextItem(before, listing, j);
      TakeItem(before + listing[..j], seen, candidate, draws, item);
      if !item.isDir && StripSlashes(item.path) != "" && !item.cached {
        seen := seen + 1;
        if draws[seen - 1] == 0 {
          candidate := Some(item);
        }
      }
    }
    assert listing[..|listing|] == listing;
  }

  lemma NextItem(before: seq<Item>, listing: seq<Item>, j: nat)
    requires j < |listing|
    ensures before + listing[..j + 1] == (before + listing[..j]) + [listing[j]]
    ensures |Candidates(before + listing[..j + 1])| <= |Candidates(before + listing)|
  {
    assert before + listing[..j + 1] <= before + listing;
    PrefixCandidates(before + listing[..j + 1], before + listing);
  }

  /** The loop of `_run_availability_probe`; `draws[k]` is what the k-th `randrange(k + 1)` returns. */
  method Pick(listings: seq<seq<Item>>, draws: seq<nat>) returns (candidate: Option<Item>)
    requires ValidDraws(draws) && |draws| >= |Candidates(Concat(listings))|
    ensures candidate == Chosen(Candidates(Concat(listings)), draws[..|Candidates(Concat(listings))|])
  {
    candidate := None;
    var seen := 0;
    for i := 0 to |listings|
      invariant Holding(Concat(listings[..i]), seen, candidate, draws)
    {
      PrefixFits(listings, i);
      seen, candidate := ScanListing(Concat(listings[..i]), listings[i], seen, candidate, draws);
      assert listings[..i + 1][..i] == listings[..i];
    }
    assert listings[..|listings|] == listings;
  }

  lemma {:induction false} PrefixCandidates(a: seq<Item>, b: seq<Item>)
    requires a <= b
    ensures |Candidates(a)| <= |Candidates(b)|
    decreases |b|
  {
    if a != b {
      PrefixCandidates(a, b[..|b| - 1]);
    }
  }

  lemma {:induction false} PrefixFits(listings: seq<seq<Item>>, i: nat)
    requires i < |listings|
    ensures |Candidates(Concat(listings[..i]) + listings[i])| <= |Candidates(Concat(listings))|
    decreases |listings|
  {
    var n := |listings| - 1;
    if i < n {
      PrefixFits(listings[..n], i);
      assert listings[..n][..i] == listings[..i];
      PrefixCandidates(Concat(listings[..n]), Concat(listings));
    }
  }

  // ---- Counting draws ----

  function Factorial(n: nat): nat {
    if n == 0 then 1 else n * Factorial(n - 1)
  }

  /** Each member of `s` extended by each number in lo..hi. */
  function Extend(s: set<seq<nat>>, lo: nat, hi: nat): set<seq<nat>> {
    set d, x | d in s && lo <= x < hi :: d + [x]
  }

  function Front(p: seq<nat>): seq<nat>
    requires p != []
  {
    p[..|p| - 1]
  }

  function Last(p: seq<nat>): nat
    requires p != []
  {
    p[|p| - 1]
  }

  lemma InExtend(s: set<seq<nat>>, lo: nat, hi: nat, p: seq<nat>)
    ensures p in Extend(s, lo, hi) <==> p != [] && Front(p) in s && lo <= Last(p) < hi
  {
    if p in Extend(s, lo, hi) {
      var d, x :| d in s && lo <= x < hi && p == d + [x];
      assert Front(p) == d && Last(p) == x;
    }
    if p != [] && Front(p) in s && lo <= Last(p) < hi {
      assert p == Front(p) + [Last(p)];
    }
  }

  lemma {:induction false} ExtendByOne(s: set<seq<nat>>, x: nat)
    ensures |Extend(s, x, x + 1)| == |s|
    decreases |s|
  {
    if s == {} {
      assert Extend(s, x, x + 1) == {};
    } else {
      var d :| d in s;
      var rest, new' := s - {d}, d + [x];
      ExtendByOne(rest, x);
      assert Front(new') == d && Last(new') == x;
      InExtend(rest, x, x + 1, new');
      var all, some := Extend(s, x, x + 1), Extend(rest, x, x + 1);
      forall p ensures p in all <==> p in some || p == new' {
        InExtend(s, x, x + 1, p);
        InExtend(rest, x, x + 1, p);
        assert p != [] ==> p == Front(p) + [Last(p)];
      }
      assert all == some + {new'};
    }
  }

  lemma ExtendSplit(s: set<seq<nat>>, lo: nat, mid: nat, hi: nat)
    requires lo <= mid <= hi
    ensures |Extend(s, lo, hi)| == |Extend(s, lo, mid)| + |Extend(s, mid, hi)|
  {
    var all, low, high := Extend(s, lo, hi), Extend(s, lo, mid), Extend(s, mid, hi);
    forall p
      ensures p in all <==> p in low || p in high
      ensures !(p in low && p in high)
    {
      InExtend(s, lo, hi, p);
      InExtend(s, lo, mid, p);
      InExtend(s, mid, hi, p);
    }
    assert all == low + high && low !! high;
  }

  lemma OneMoreTime(size: nat, times: nat)
    ensures size * (times + 1) == size * times + size
  {
  }

  lemma {:induction false} ExtendSize(s: set<seq<nat>>, lo: nat, hi: nat)
    requires lo <= hi
    ensures |Extend(s, lo, hi)| == |s| * (hi - lo)
    decreases hi
  {
    if lo == hi {
      assert Extend(s, lo, hi) == {};
    } else {
      ExtendSize(s, lo, hi - 1);
      ExtendByOne(s, hi - 1);
      ExtendSplit(s, lo, hi - 1, hi);
      OneMoreTime(|s|, hi - lo - 1);
    }
  }

  /** All ways n candidates can be drawn for. */
  function AllDraws(n: nat): set<seq<nat>> {
    if n == 0 then {[]} else Extend(AllDraws(n - 1), 0, n)
  }

  lemma {:induction false} AllDrawsAreValid(n: nat, d: seq<nat>)
    ensures d in AllDraws(n) <==> |d| == n && ValidDraws(d)
  {
    if n > 0 {
      if |d| == n {
        AllDrawsAreValid(n - 1, d[..n - 1]);
        assert d == d[..n - 1] + [d[n - 1]];
      }
      if d in AllDraws(n) {
        var e, x :| e in AllDraws(n - 1) && 0 <= x < n && d == e + [x];
        AllDrawsAreValid(n - 1, e);
      }
    }
  }

  lemma {:induction false} AllDrawsCount(n: nat)
    ensures |AllDraws(n)| == Factorial(n)
  {
    if n > 0 {
      AllDrawsCount(n - 1);
      ExtendSize(AllDraws(n - 1), 0, n);
      assert Factorial(n - 1) * n == n * Factorial(n - 1);
    }
  }

  /** The draw sequences that end with candidate j. */
  function Favouring(n: nat, j: nat): set<seq<nat>> {
    set d | d in AllDraws(n) && Winner(d) == j
  }

  lemma LastWins(n: nat)
    requires n > 0
    ensures Favouring(n, n - 1) == Extend(AllDraws(n - 1), 0, 1)
  {
    var left, right := Favouring(n, n - 1), Extend(AllDraws(n - 1), 0, 1);
    forall d
      ensures d in left <==> d in right
    {
      InExtend(AllDraws(n - 1), 0, n, d);
      InExtend(AllDraws(n - 1), 0, 1, d);
      AllDrawsAreValid(n, d);
      if d in AllDraws(n) {
        WinnerInRange(d);
      }
    }
  }

  lemma EarlierWins(n: nat, j: nat)
    requires j < n - 1
    ensures Favouring(n, j) == Extend(Favouring(n - 1, j), 1, n)
  {
    var left, right := Favouring(n, j), Extend(Favouring(n - 1, j), 1, n);
    forall d
      ensures d in left <==> d in right
    {
      InExtend(AllDraws(n - 1), 0, n, d);
      InExtend(Favouring(n - 1, j), 1, n, d);
      AllDrawsAreValid(n, d);
    }
  }

  /** Exact uniformity: of the n! equally likely draw sequences, each candidate wins exactly (n - 1)!. */
  lemma {:induction false} EachCandidateEquallyOften(n: nat, j: nat)
    requires j < n
    ensures |Favouring(n, j)| == Factorial(n - 1)
    ensures |AllDraws(n)| == n * Factorial(n - 1)
    decreases n
  {
    AllDrawsCount(n);
    AllDrawsCount(n - 1);
    if j == n - 1 {
      LastWins(n);
      ExtendSize(AllDraws(n - 1), 0, 1);
    } else {
      EarlierWins(n, j);
      EachCandidateEquallyOften(n - 1, j);
      ExtendSize(Favouring(n - 1, j), 1, n);
      assert Factorial(n - 2) * (n - 1) == Factorial(n - 1);
    }
  }
}
