// Feeds whose links are all sections of one page, and feeds that carry only teasers.
module FeedDepth {
  import opened Strings

  const MIN_BATCH: nat := 3
  const MAJORITY: real := 0.6

  // A link after parsing: without a URL in it, or its base page and whether it has a fragment after the `#`.
  datatype Link = Unparseable | Link(base: string, fragment: bool)

  // How many links are to a section of `base`, and how many are to a section of any page.
  function Sections(urls: seq<Link>, base: string): nat { multiset(urls)[Link(base, true)] }

  function Anchored(urls: seq<Link>): seq<string> {
    if urls == [] then []
    else
      var last := urls[|urls| - 1];
      Anchored(urls[..|urls| - 1]) + if last.Link? && last.fragment then [last.base] else []
  }

  // At least three fifths of n, in whole numbers.
  predicate IsMajority(count: nat, n: nat) { 5 * count >= 3 * n }

  lemma ShareAtLeast(x: real, n: real, share: real)
    requires n > 0.0
    ensures x / n >= share <==> x >= share * n
  {
    var q := x / n;
    assert x == q * n;
    if q >= share {
      assert (q - share) * n >= 0.0;
    } else {
      assert (share - q) * n > 0.0;
    }
  }

  lemma RatioIsMajority(count: nat, n: nat)
    requires n > 0
    ensures count as real / n as real >= MAJORITY <==> IsMajority(count, n)
  {
    ShareAtLeast(count as real, n as real, MAJORITY);
  }

  lemma CountAppend<T>(s: seq<T>, last: T, x: T)
    ensures multiset(s + [last])[x] == multiset(s)[x] + if last == x then 1 else 0
  {
    MultisetAppend(s, last);
  }

  lemma {:induction false} AnchoredCounts(urls: seq<Link>, base: string)
    ensures multiset(Anchored(urls))[base] == Sections(urls, base)
    ensures |Anchored(urls)| <= |urls|
  {
    if urls != [] {
      var front, last := urls[..|urls| - 1], urls[|urls| - 1];
      AnchoredCounts(front, base);
      assert urls == front + [last];
      CountAppend(front, last, Link(base, true));
      if last.Link? && last.fragment {
        CountAppend(Anchored(front), last.base, base);
      }
    }
  }

  lemma {:induction false} CountsDisjoint(s: seq<string>, a: string, b: string)
    ensures multiset(s)[a] <= |s|
    ensures a != b ==> multiset(s)[a] + multiset(s)[b] <= |s|
  {
    if s != [] {
      var front, last := s[..|s| - 1], s[|s| - 1];
      CountsDisjoint(front, a, b);
      assert s == front + [last];
      CountAppend(front, last, a);
      CountAppend(front, last, b);
    }
  }

  // The page that most of the batch points into.
  ghost predicate HasDominantBase(urls: seq<Link>) {
    exists base :: IsMajority(Sections(urls, base), |urls|)
  }

  // There is at most one such page.
  lemma DominantBaseUnique(urls: seq<Link>, a: string, b: string)
    requires urls != [] && IsMajority(Sections(urls, a), |urls|) && IsMajority(Sections(urls, b), |urls|)
    ensures a == b
  {
    AnchoredCounts(urls, a);
    AnchoredCounts(urls, b);
    CountsDisjoint(Anchored(urls), a, b);
  }

  // Leaving early on too few anchored links never misses one.
  lemma EarlyExitIsSafe(urls: seq<Link>)
    requires !IsMajority(|Anchored(urls)|, |urls|)
    ensures !HasDominantBase(urls)
  {
    forall base ensures !IsMajority(Sections(urls, base), |urls|) {
      AnchoredCounts(urls, base);
      CountsDisjoint(Anchored(urls), base, base);
    }
  }

  // ---------- The verdict ----------

  method Frequencies(anchored: seq<string>) returns (freq: map<string, nat>)
    ensures forall base :: multiset(anchored)[base] == if base in freq then freq[base] else 0
    ensures forall base :: base in freq ==> freq[base] > 0
  {
    freq := map[];
    for i := 0 to |anchored|
      invariant forall base :: multiset(anchored[..i])[base] == if base in freq then freq[base] else 0
      invariant forall base :: base in freq ==> freq[base] > 0
    {
      var base := anchored[i];
      var count := if base in freq then freq[base] else 0;
      freq := freq[base := count + 1];
      assert anchored[..i + 1] == anchored[..i] + [base];
    }
    assert anchored[..|anchored|] == anchored;
  }

  method MaxCount(freq: map<string, nat>) returns (max: nat)
    requires |freq| > 0
    ensures exists base :: base in freq && freq[base] == max
    ensures forall base :: base in freq ==> freq[base] <= max
  {
    var first :| first in freq;
    max := freq[first];
    var left := freq.Keys - {first};
    while left != {}
      invariant left <= freq.Keys
      invariant exists base :: base in freq && freq[base] == max
      invariant forall base :: base in freq && base !in left ==> freq[base] <= max
      decreases left
    {
      var base :| base in left;
      if freq[base] > max {
        max := freq[base];
      }
      left := left - {base};
    }
  }

  // True exactly when the batch has three links or more and one page has three fifths of them.
  method IsBatchAnchorFragment(urls: seq<Link>) returns (verdict: bool)
    ensures verdict <==> |urls| >= 3 && HasDominantBase(urls)
  {
    if |urls| < MIN_BATCH {
      return false;
    }
    var anchored := [];
    for i := 0 to |urls|
      invariant anchored == Anchored(urls[..i])
    {
      assert urls[..i + 1][..i] == urls[..i];
      if urls[i].Link? && urls[i].fragment {
        anchored := anchored + [urls[i].base];
      }
    }
    assert urls[..|urls|] == urls;
    RatioIsMajority(|anchored|, |urls|);
    if |anchored| as real / |urls| as real < MAJORITY {
      EarlyExitIsSafe(urls);
      return false;
    }
    var freq := Frequencies(anchored);
    assert anchored[0] in multiset(anchored);
    assert anchored[0] in freq;
    var maxCount := MaxCount(freq);
    RatioIsMajority(maxCount, |urls|);
    verdict := maxCount as real / |urls| as real >= MAJORITY;
    MaxDecides(urls, freq, maxCount);
  }

  lemma MaxDecides(urls: seq<Link>, freq: map<string, nat>, max: nat)
    requires urls != []
    requires forall base :: multiset(Anchored(urls))[base] == if base in freq then freq[base] else 0
    requires exists base :: base in freq && freq[base] == max
    requires forall base :: base in freq ==> freq[base] <= max
    ensures HasDominantBase(urls) <==> IsMajority(max, |urls|)
  {
    forall base ensures Sections(urls, base) == if base in freq then freq[base] else 0 {
      AnchoredCounts(urls, base);
    }
    var best :| best in freq && freq[best] == max;
    assert Sections(urls, best) == max;
  }

  // The order of the batch does not matter.
  lemma PermutationInvariant(urls: seq<Link>, shuffled: seq<Link>)
    requires multiset(urls) == multiset(shuffled)
    ensures |urls| == |shuffled| && (HasDominantBase(urls) <==> HasDominantBase(shuffled))
  {
    assert |urls| == |multiset(urls)| == |multiset(shuffled)| == |shuffled|;
    assert forall base :: Sections(urls, base) == Sections(shuffled, base);
  }

  // ---------- The depth of a feed ----------

  datatype Item = Item(url: Option<Link>, content: string, contentFromSummary: bool)

  datatype Depth = Full | SummaryOnly | AnchorFragment

  predicate IsThin(item: Item, thinChars: nat) {
    var content := Trim(item.content);
    content == "" || item.contentFromSummary || |content| < thinChars
  }

  function Links(items: seq<Item>): seq<Link> {
    if items == [] then []
    else
      var last := items[|items| - 1];
      Links(items[..|items| - 1]) + if last.url.Some? then [last.url.value] else []
  }

  function ThinCount(items: seq<Item>, thinChars: nat): (n: nat)
    ensures n <= |items|
  {
    if items == [] then 0
    else ThinCount(items[..|items| - 1], thinChars) + if IsThin(items[|items| - 1], thinChars) then 1 else 0
  }

  // The items that are a summary by origin, or whose trimmed text is empty or shorter than asked for.
  function ThinItems(items: seq<Item>, thinChars: nat): set<int> {
    set i | 0 <= i < |items| && (items[i].contentFromSummary || |Trim(items[i].content)| == 0
                                 || |Trim(items[i].content)| < thinChars)
  }

  lemma {:induction false} ThinCountIs(items: seq<Item>, thinChars: nat)
    ensures ThinCount(items, thinChars) == |ThinItems(items, thinChars)|
  {
    if items != [] {
      var n := |items| - 1;
      ThinCountIs(items[..n], thinChars);
      assert forall i :: 0 <= i < n ==> items[..n][i] == items[i];
      assert ThinItems(items, thinChars)
          == ThinItems(items[..n], thinChars) + if IsThin(items[n], thinChars) then {n} else {};
    }
  }

  // The links are the items' own, in order.
  lemma {:induction false} LinksAre(a: seq<Item>, b: seq<Item>, item: Item)
    ensures Links(a + b) == Links(a) + Links(b)
    ensures Links([item]) == if item.url == None then [] else [item.url.value]
    decreases |b|
  {
    assert [item][..0] == [];
    if b == [] {
      assert a + b == a;
    } else {
      assert (a + b)[..|a + b| - 1] == a + b[..|b| - 1];
      LinksAre(a, b[..|b| - 1], item);
    }
  }

  // No verdict below three items; an anchored page takes precedence; otherwise three fifths of thin items decide.
  method AssessFeedDepth(items: seq<Item>, thinChars: nat) returns (depth: Option<Depth>)
    ensures depth.None? <==> |items| < 3
    ensures depth == Some(AnchorFragment) <==>
            |items| >= 3 && |Links(items)| >= 3 && HasDominantBase(Links(items))
    ensures depth.Some? && depth.value != AnchorFragment ==>
              (depth.value == SummaryOnly <==> 5 * |ThinItems(items, thinChars)| >= 3 * |items|)
  {
    ThinCountIs(items, thinChars);
    if |items| < MIN_BATCH {
      return None;
    }
    var anchored := IsBatchAnchorFragment(Links(items));
    if anchored {
      return Some(AnchorFragment);
    }
    var thinCount := ThinCount(items, thinChars);
    RatioIsMajority(thinCount, |items|);
    depth := if thinCount as real / |items| as real >= MAJORITY then Some(SummaryOnly) else Some(Full);
  }
}
