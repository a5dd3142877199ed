/**
 * The LRU page-replacement simulator (solveLRU). The resident pages are an
 * insertion-ordered set, kept here as a sequence from least to most recently
 * used. A hit moves the page to the most-recently-used end; a fault evicts the
 * first (least recently used) page when the set already holds `capacity`
 * pages and then appends the new page. After each reference the resident
 * pages are recorded.
 */
module Lru {
  import opened Sorting

  datatype Status = Hit | Fault

  /** One entry of the history: 1-based step, the page, its status and the resident pages after it. */
  datatype Step = Step(step: int, page: int, status: Status, cacheState: seq<int>)

  /** s with every occurrence of x deleted, the rest in order (deleting a key of the ordered set). */
  function Remove(s: seq<int>, x: int): (r: seq<int>)
    ensures |r| <= |s| && x !in r
    ensures forall y :: y in r ==> y in s
  {
    if s == [] then [] else (if s[0] == x then [] else [s[0]]) + Remove(s[1..], x)
  }

  /** Remove deletes exactly x and leaves a sequence without x unchanged. */
  lemma {:induction false} RemoveFacts(s: seq<int>, x: int)
    ensures forall y :: y in Remove(s, x) <==> y in s && y != x
    ensures x !in s ==> Remove(s, x) == s
  {
    if s != [] {
      RemoveFacts(s[1..], x);
      assert s == [s[0]] + s[1..];
    }
  }

  lemma {:induction false} RemoveKeepsDistinct(s: seq<int>, x: int)
    requires Distinct(s)
    ensures Distinct(Remove(s, x))
    ensures x in s ==> |Remove(s, x)| == |s| - 1
  {
    if s != [] {
      var tail := s[1..];
      assert Distinct(tail) && s[0] !in tail by {
        forall i, j | 0 <= i < j < |tail| ensures tail[i] != tail[j] {
          assert tail[i] == s[i + 1] && tail[j] == s[j + 1];
        }
        forall m | 0 <= m < |tail| ensures tail[m] != s[0] {
          assert tail[m] == s[m + 1];
        }
      }
      RemoveKeepsDistinct(tail, x);
      RemoveFacts(tail, x);
      var rest := Remove(tail, x);
      var r := (if s[0] == x then [] else [s[0]]) + rest;
      assert Remove(s, x) == r;
      if s[0] != x {
        forall i, j | 0 <= i < j < |r| ensures r[i] != r[j] {
          if i > 0 {
            assert r[i] == rest[i - 1] && r[j] == rest[j - 1];
          } else {
            assert r[j] in rest;
          }
        }
      }
      if x in s && s[0] != x {
        assert x in tail;
      }
    }
  }

  /**
   * The resident pages that stay when `page` is referenced: on a hit all but
   * the page itself; on a fault all but the first page when the set holds
   * exactly `capacity` pages (deleting from an empty set changes nothing),
   * and otherwise all of them.
   */
  function Kept(cache: seq<int>, page: int, capacity: int): (r: seq<int>)
    ensures |r| <= |cache| && page !in r
    ensures forall y :: y in r ==> y in cache
  {
    if page in cache then Remove(cache, page)
    else if |cache| == capacity && cache != [] then cache[1..]
    else cache
  }

  /** The resident pages after one reference to `page`: the pages kept, then the page itself. */
  function Access(cache: seq<int>, page: int, capacity: int): (r: seq<int>)
    ensures |r| > 0 && r[|r| - 1] == page
  {
    Kept(cache, page, capacity) + [page]
  }

  lemma KeptFacts(cache: seq<int>, page: int, capacity: int)
    requires Distinct(cache)
    ensures page !in Kept(cache, page, capacity)
    ensures forall y :: y in Kept(cache, page, capacity) ==> y in cache
    ensures Distinct(Kept(cache, page, capacity))
  {
    var kept := Kept(cache, page, capacity);
    RemoveFacts(cache, page);
    if page in cache {
      RemoveKeepsDistinct(cache, page);
    } else if |cache| == capacity && cache != [] {
      assert cache == [cache[0]] + kept;
      forall i, j | 0 <= i < j < |kept| ensures kept[i] != kept[j] {
        assert kept[i] == cache[i + 1] && kept[j] == cache[j + 1];
      }
    }
  }

  /** A reference keeps the pages distinct and brings in no page other than the one referenced. */
  lemma AccessFacts(cache: seq<int>, page: int, capacity: int)
    requires Distinct(cache)
    ensures Distinct(Access(cache, page, capacity))
    ensures forall y :: y in Access(cache, page, capacity) ==> y == page || y in cache
  {
    KeptFacts(cache, page, capacity);
    var kept := Kept(cache, page, capacity);
    var r := kept + [page];
    forall i, j | 0 <= i < j < |r| ensures r[i] != r[j] {
      if j < |kept| {
        assert r[i] == kept[i] && r[j] == kept[j];
      } else {
        assert r[i] in kept;
      }
    }
  }

  /** order with page deleted and re-appended at the most-recently-used end. */
  function MoveToEnd(order: seq<int>, page: int): seq<int> {
    Remove(order, page) + [page]
  }

  lemma MoveToEndDistinct(order: seq<int>, page: int)
    requires Distinct(order)
    ensures Distinct(MoveToEnd(order, page))
  {
    RemoveKeepsDistinct(order, page);
    RemoveFacts(order, page);
    var kept := Remove(order, page);
    var r := kept + [page];
    forall i, j | 0 <= i < j < |r| ensures r[i] != r[j] {
      if j < |kept| {
        assert r[i] == kept[i] && r[j] == kept[j];
      } else {
        assert r[i] in kept;
      }
    }
  }

  /** Distinct pages of refs, ordered by their last reference (oldest first). */
  function Recency(refs: seq<int>): seq<int> {
    if refs == [] then [] else MoveToEnd(Recency(refs[..|refs| - 1]), refs[|refs| - 1])
  }

  /** The recency order lists every referenced page exactly once. */
  lemma {:induction false} RecencyFacts(refs: seq<int>)
    ensures Distinct(Recency(refs))
    ensures forall x :: x in Recency(refs) <==> x in refs
  {
    if refs != [] {
      var last := refs[|refs| - 1];
      var prefix := refs[..|refs| - 1];
      var earlier := Recency(prefix);
      RecencyFacts(prefix);
      RemoveFacts(earlier, last);
      assert refs == prefix + [last];
      MoveToEndDistinct(earlier, last);
    }
  }

  /**
   * The reference definition of an LRU cache: the `capacity` most recently
   * used distinct pages, ordered by last use. A capacity of 0 or less never
   * bounds the set, because the size check in the simulator then never
   * finds a page to evict.
   */
  function Resident(refs: seq<int>, capacity: int): seq<int> {
    Window(Recency(refs), capacity)
  }

  /** The last `capacity` entries of order, or all of them when capacity is not positive. */
  function Window(order: seq<int>, capacity: int): seq<int> {
    if capacity >= 1 && |order| > capacity then order[|order| - capacity..] else order
  }

  lemma WindowFacts(order: seq<int>, capacity: int)
    requires Distinct(order)
    ensures Distinct(Window(order, capacity))
    ensures forall x :: x in Window(order, capacity) ==> x in order
  {
    var r := Window(order, capacity);
    var d := |order| - |r|;
    assert r == order[d..];
    forall i, j | 0 <= i < j < |r| ensures r[i] != r[j] {
      assert r[i] == order[i + d] && r[j] == order[j + d];
    }
  }

  /**
   * The resident pages are distinct, are pages that were referenced, and with
   * a positive capacity number at most `capacity`.
   */
  lemma ResidentFacts(refs: seq<int>, capacity: int)
    ensures Distinct(Resident(refs, capacity))
    ensures forall x :: x in Resident(refs, capacity) ==> x in refs
    ensures capacity >= 1 ==> |Resident(refs, capacity)| <= capacity
  {
    RecencyFacts(refs);
    WindowFacts(Recency(refs), capacity);
  }

  /** Position of the last reference to x in refs. */
  function LastUse(refs: seq<int>, x: int): (k: int)
    requires x in refs
    ensures 0 <= k < |refs| && refs[k] == x
    ensures forall m :: k < m < |refs| ==> refs[m] != x
  {
    if refs[|refs| - 1] == x then |refs| - 1
    else
      assert x in refs[..|refs| - 1] by {
        var m :| 0 <= m < |refs| && refs[m] == x;
        assert refs[..|refs| - 1][m] == x;
      }
      LastUse(refs[..|refs| - 1], x)
  }

  function CountHits(history: seq<Step>): (n: nat)
    ensures n <= |history|
  {
    if history == [] then 0
    else CountHits(history[..|history| - 1]) + (if history[|history| - 1].status == Hit then 1 else 0)
  }

  lemma CountHitsAppend(history: seq<Step>, s: Step)
    ensures CountHits(history + [s]) == CountHits(history) + (if s.status == Hit then 1 else 0)
  {
    assert (history + [s])[..|history|] == history;
  }

  lemma {:induction false} RemoveAppend(a: seq<int>, b: seq<int>, x: int)
    ensures Remove(a + b, x) == Remove(a, x) + Remove(b, x)
  {
    if a == [] {
      assert a + b == b;
    } else {
      var ab := a + b;
      assert ab[0] == a[0] && ab[1..] == a[1..] + b;
      RemoveAppend(a[1..], b, x);
      var head := if a[0] == x then [] else [a[0]];
      assert Remove(ab, x) == head + Remove(a[1..] + b, x);
      assert Remove(a, x) == head + Remove(a[1..], x);
    }
  }

  lemma {:induction false} RemoveIndex(s: seq<int>, x: int, i: nat)
    requires Distinct(s) && i < |s| && s[i] == x
    ensures Remove(s, x) == s[..i] + s[i + 1..]
  {
    var a, b := s[..i], s[i + 1..];
    assert s == a + ([x] + b);
    assert x !in a by {
      forall m | 0 <= m < i ensures a[m] != x { assert a[m] == s[m]; }
    }
    assert x !in b by {
      forall m | i + 1 <= m < |s| ensures s[m] != x { }
      forall y | y in b ensures y != x {
        var m :| 0 <= m < |b| && b[m] == y;
        assert b[m] == s[i + 1 + m];
      }
    }
    RemoveFacts(a, x);
    RemoveFacts(b, x);
    RemoveAppend([x], b, x);
    assert Remove([x], x) == [] by {
      assert [x][1..] == [];
    }
    assert Remove([x] + b, x) == b;
    RemoveAppend(a, [x] + b, x);
    assert Remove(a, x) == a;
  }

  /**
   * Recency is move-to-end: the pages ordered by last reference, strictly
   * increasing in the position of that reference.
   */
  lemma {:induction false} RecencyOrdersByLastUse(refs: seq<int>, i: nat, j: nat)
    requires i < j < |Recency(refs)|
    ensures Recency(refs)[i] in refs && Recency(refs)[j] in refs
    ensures LastUse(refs, Recency(refs)[i]) < LastUse(refs, Recency(refs)[j])
  {
    var r := Recency(refs);
    var last := refs[|refs| - 1];
    var prefix := refs[..|refs| - 1];
    var earlier := Recency(prefix);
    var kept := Remove(earlier, last);
    assert refs == prefix + [last];
    assert r == kept + [last];
    RecencyFacts(prefix);
    RemoveFacts(earlier, last);
    if j == |r| - 1 {
      assert r[i] in kept;
      assert r[i] != last;
    } else {
      // both pages were resident before the last reference and are not it
      assert r[i] == kept[i] && r[j] == kept[j];
      var i', j' := RemovedPositions(earlier, last, i, j);
      RecencyOrdersByLastUse(prefix, i', j');
      LastUseBeforeLast(refs, r[i]);
      LastUseBeforeLast(refs, r[j]);
    }
  }

  /** Where the elements at positions i < j of Remove(s, x) sat in s. */
  lemma RemovedPositions(s: seq<int>, x: int, i: nat, j: nat) returns (i': nat, j': nat)
    requires Distinct(s) && i < j < |Remove(s, x)|
    ensures i' < j' < |s| && s[i'] == Remove(s, x)[i] && s[j'] == Remove(s, x)[j]
  {
    if x in s {
      var p :| 0 <= p < |s| && s[p] == x;
      RemoveIndex(s, x, p);
      i' := if i < p then i else i + 1;
      j' := if j < p then j else j + 1;
    } else {
      RemoveFacts(s, x);
      i', j' := i, j;
    }
  }

  lemma LastUseBeforeLast(refs: seq<int>, x: int)
    requires refs != [] && x in refs[..|refs| - 1] && x != refs[|refs| - 1]
    ensures x in refs && LastUse(refs, x) == LastUse(refs[..|refs| - 1], x)
  {
  }

  /**
   * One simulated reference keeps the resident pages equal to the reference
   * definition: applying Access to the pages resident after refs yields the
   * pages resident after refs + [page].
   */
  lemma {:induction false} AccessIsLru(refs: seq<int>, page: int, capacity: int)
    ensures Access(Resident(refs, capacity), page, capacity) == Resident(refs + [page], capacity)
  {
    var next := refs + [page];
    assert next[..|next| - 1] == refs;
    RecencyFacts(refs);
    AccessWindow(Recency(refs), page, capacity);
  }

  /** The step of AccessIsLru on the recency order itself. */
  lemma AccessWindow(order: seq<int>, page: int, capacity: int)
    requires Distinct(order)
    ensures Access(Window(order, capacity), page, capacity) == Window(MoveToEnd(order, page), capacity)
  {
    if capacity >= 1 && |order| > capacity {
      var cut := |order| - capacity;
      var front, c := order[..cut], order[cut..];
      assert order == front + c;
      assert Window(order, capacity) == c;
      WindowFacts(order, capacity);
      if page in c {
        FullWindowHit(front, c, page, capacity);
      } else {
        FullWindowFault(front, c, page, capacity);
      }
    } else {
      OpenWindow(order, page, capacity);
    }
  }

  /** While at most `capacity` pages were referenced, the window is the whole recency order. */
  lemma OpenWindow(order: seq<int>, page: int, capacity: int)
    requires Distinct(order) && !(capacity >= 1 && |order| > capacity)
    ensures Access(order, page, capacity) == Window(MoveToEnd(order, page), capacity)
  {
    var moved := MoveToEnd(order, page);
    RemoveFacts(order, page);
    if page in order {
      RemoveKeepsDistinct(order, page);
    } else {
      assert Remove(order, page) == order;
      if |order| == capacity && order != [] {
        assert moved == [order[0]] + (order[1..] + [page]);
        assert moved[|moved| - capacity..] == order[1..] + [page];
      }
    }
  }

  /** A hit inside a full window: the page moves to the end and nothing leaves. */
  lemma FullWindowHit(front: seq<int>, c: seq<int>, page: int, capacity: int)
    requires Distinct(front + c) && |c| == capacity >= 1 && page in c
    ensures Access(c, page, capacity) == Window(MoveToEnd(front + c, page), capacity)
  {
    var order := front + c;
    assert page !in front by {
      var p :| 0 <= p < |c| && c[p] == page;
      assert order[|front| + p] == page;
      forall m | 0 <= m < |front| ensures front[m] != page { assert front[m] == order[m]; }
    }
    RemoveAppend(front, c, page);
    RemoveFacts(front, page);
    assert Distinct(c) by {
      forall i, j | 0 <= i < j < |c| ensures c[i] != c[j] {
        assert c[i] == order[|front| + i] && c[j] == order[|front| + j];
      }
    }
    RemoveKeepsDistinct(c, page);
    var tail := Remove(c, page) + [page];
    var order' := MoveToEnd(order, page);
    assert order' == front + tail;
    assert order'[|order'| - capacity..] == tail;
  }

  /** A fault at a full window: its first page leaves and the new page is appended. */
  lemma FullWindowFault(front: seq<int>, c: seq<int>, page: int, capacity: int)
    requires |c| == capacity >= 1 && page !in c
    ensures Access(c, page, capacity) == Window(MoveToEnd(front + c, page), capacity)
  {
    RemoveAppend(front, c, page);
    RemoveFacts(c, page);
    var kept := Remove(front, page);
    assert Remove(front + c, page) == kept + c;
    assert c == [c[0]] + c[1..];
    var tail := c[1..] + [page];
    var order' := MoveToEnd(front + c, page);
    assert order' == (kept + [c[0]]) + tail;
    assert order'[|order'| - capacity..] == tail;
  }

  /** A reference can only evict on a fault when the set is full, and then only its least recently used page. */
  lemma AccessEvictsOnlyLru(cache: seq<int>, page: int, capacity: int, x: int)
    requires Distinct(cache)
    ensures x in cache && x !in Access(cache, page, capacity) <==>
              page !in cache && |cache| == capacity && cache != [] && x == cache[0]
  {
    var kept := Kept(cache, page, capacity);
    RemoveFacts(cache, page);
    assert Access(cache, page, capacity) == kept + [page];
    if page !in cache && |cache| == capacity && cache != [] {
      assert cache == [cache[0]] + cache[1..];
      if x == cache[0] {
        assert x !in cache[1..] by {
          forall m | 0 <= m < |cache| - 1 ensures cache[1..][m] != x { assert cache[1..][m] == cache[m + 1]; }
        }
      } else if x in cache {
        assert x in cache[1..];
      }
    }
  }

  /**
   * The pages other than `page` keep their relative order: what remains of
   * the old set (after the eviction, if any) is the new set without `page`.
   */
  lemma AccessKeepsOrder(cache: seq<int>, page: int, capacity: int)
    requires Distinct(cache)
    ensures Remove(Access(cache, page, capacity), page) ==
              if page !in cache && |cache| == capacity && cache != [] then cache[1..]
              else Remove(cache, page)
  {
    var kept := Kept(cache, page, capacity);
    KeptFacts(cache, page, capacity);
    RemoveAppend(kept, [page], page);
    RemoveFacts(kept, page);
    assert Remove([page], page) == [] by {
      assert [page][1..] == [];
    }
  }

  /** With a positive capacity, a set within bounds stays within bounds. */
  lemma AccessBounded(cache: seq<int>, page: int, capacity: int)
    requires Distinct(cache) && capacity >= 1 && |cache| <= capacity
    ensures |Access(cache, page, capacity)| <= capacity
  {
    RemoveKeepsDistinct(cache, page);
    assert |Access(cache, page, capacity)| == |Kept(cache, page, capacity)| + 1;
  }

  /** hits / (hits + faults), and 0 where that quotient is undefined (no references). */
  function HitRatio(hits: nat, faults: nat): (r: real)
    ensures 0.0 <= r <= 1.0
    ensures hits + faults == 0 ==> r == 0.0
    ensures faults == 0 && hits > 0 ==> r == 1.0
  {
    if hits + faults == 0 then 0.0
    else
      var n := (hits + faults) as real;
      assert hits as real <= n;
      (hits as real) / n
  }

  /** The ratio is the share of hits among all references. */
  lemma HitRatioIsShare(hits: nat, faults: nat)
    requires hits + faults > 0
    ensures HitRatio(hits, faults) * ((hits + faults) as real) == hits as real
  {
  }

  /**
   * One reference to `page`, updating the resident pages in place: a hit
   * deletes the page and re-appends it; a fault first deletes the oldest page
   * when exactly `capacity` pages are resident.
   */
  method Reference(cache: seq<int>, page: int, capacity: int) returns (cache': seq<int>, status: Status)
    ensures cache' == Access(cache, page, capacity)
    ensures status == Hit <==> page in cache
  {
    cache' := cache;
    status := Fault;
    if page in cache' {
      status := Hit;
      cache' := Remove(cache', page);
      cache' := cache' + [page];
    } else {
      if |cache'| == capacity {
        // deleting the first key of an empty set is a no-op
        if cache' != [] {
          cache' := cache'[1..];
        }
      }
      cache' := cache' + [page];
    }
  }

  /**
   * The history entry the reference definition predicts for the reference at
   * position m: a hit exactly when the page is among the resident pages
   * before it, and the resident pages after it.
   */
  function Predicted(pages: seq<int>, capacity: int, m: nat): Step
    requires m < |pages|
  {
    Step(m + 1, pages[m],
         if pages[m] in Resident(pages[..m], capacity) then Hit else Fault,
         Resident(pages[..m + 1], capacity))
  }

  /** One step of SolveLru agrees with the reference definition. */
  lemma StepPredicted(pages: seq<int>, capacity: int, k: nat, before: seq<int>, status: Status, cache: seq<int>)
    requires k < |pages| && before == Resident(pages[..k], capacity)
    requires cache == Access(before, pages[k], capacity) && (status == Hit <==> pages[k] in before)
    ensures Step(k + 1, pages[k], status, cache) == Predicted(pages, capacity, k)
    ensures cache == Resident(pages[..k + 1], capacity)
  {
    AccessIsLru(pages[..k], pages[k], capacity);
    assert pages[..k + 1] == pages[..k] + [pages[k]];
  }

  /** The history the reference definition predicts for the whole reference string. */
  function Trace(pages: seq<int>, capacity: int): (h: seq<Step>)
    ensures |h| == |pages|
  {
    seq(|pages|, m requires 0 <= m < |pages| => Predicted(pages, capacity, m))
  }

  /** The prediction for reference m depends only on the references up to m. */
  lemma PredictedPrefix(pages: seq<int>, capacity: int, m: nat, n: nat)
    requires m < n <= |pages|
    ensures Predicted(pages[..n], capacity, m) == Predicted(pages, capacity, m)
  {
    assert pages[..n][..m] == pages[..m];
    assert pages[..n][..m + 1] == pages[..m + 1];
  }

  lemma TraceStep(pages: seq<int>, capacity: int, k: nat)
    requires k < |pages|
    ensures Trace(pages[..k + 1], capacity) == Trace(pages[..k], capacity) + [Predicted(pages, capacity, k)]
  {
    var longer, shorter := Trace(pages[..k + 1], capacity), Trace(pages[..k], capacity);
    forall m | 0 <= m <= k ensures longer[m] == (shorter + [Predicted(pages, capacity, k)])[m] {
      PredictedPrefix(pages, capacity, m, k + 1);
      if m < k {
        PredictedPrefix(pages, capacity, m, k);
      }
    }
  }

  /** Spells out every entry of the trace. */
  lemma TraceMeaning(pages: seq<int>, capacity: int)
    ensures forall k :: 0 <= k < |pages| ==>
              && Trace(pages, capacity)[k].step == k + 1
              && Trace(pages, capacity)[k].page == pages[k]
              && (Trace(pages, capacity)[k].status == Hit <==> pages[k] in Resident(pages[..k], capacity))
              && Trace(pages, capacity)[k].cacheState == Resident(pages[..k + 1], capacity)
  {
  }

  /** One step of SolveLru extends the trace by the predicted entry and counts its hit. */
  lemma StepKeepsTrace(pages: seq<int>, capacity: int, k: nat, before: seq<int>, status: Status, cache: seq<int>, history: seq<Step>)
    requires k < |pages| && before == Resident(pages[..k], capacity) && history == Trace(pages[..k], capacity)
    requires cache == Access(before, pages[k], capacity) && (status == Hit <==> pages[k] in before)
    ensures cache == Resident(pages[..k + 1], capacity)
    ensures history + [Step(k + 1, pages[k], status, cache)] == Trace(pages[..k + 1], capacity)
    ensures CountHits(history + [Step(k + 1, pages[k], status, cache)]) == CountHits(history) + (if status == Hit then 1 else 0)
  {
    StepPredicted(pages, capacity, k, before, status, cache);
    TraceStep(pages, capacity, k);
    CountHitsAppend(history, Step(k + 1, pages[k], status, cache));
  }

  /**
   * Runs the simulation: one history entry per reference, in input order,
   * with the hit and fault counts and the hit ratio (0 for no references).
   */
  method SolveLru(capacity: int, pages: seq<int>) returns (hits: nat, faults: nat, ratio: real, history: seq<Step>)
    ensures |history| == |pages|
    ensures hits + faults == |pages| && hits == CountHits(history)
    ensures forall k :: 0 <= k < |pages| ==>
              && history[k].step == k + 1
              && history[k].page == pages[k]
              && (history[k].status == Hit <==> pages[k] in Resident(pages[..k], capacity))
              && history[k].cacheState == Resident(pages[..k + 1], capacity)
    ensures ratio == HitRatio(hits, faults)
  {
    var cache: seq<int> := [];
    hits, faults, history := 0, 0, [];
    for k := 0 to |pages|
      invariant hits + faults == k && hits == CountHits(history)
      invariant cache == Resident(pages[..k], capacity)
      invariant history == Trace(pages[..k], capacity)
    {
      var page := pages[k];
      var status;
      ghost var before := cache;
      cache, status := Reference(cache, page, capacity);
      if status == Hit {
        hits := hits + 1;
      } else {
        faults := faults + 1;
      }
      StepKeepsTrace(pages, capacity, k, before, status, cache, history);
      history := history + [Step(k + 1, page, status, cache)];
    }
    assert pages[..|pages|] == pages;
    TraceMeaning(pages, capacity);
    ratio := HitRatio(hits, faults);
  }
}
