/**
 Walking the feed page by page until a page comes back empty.

 snaps[p][s] is what shard s held when it answered page p; rows may be inserted and deleted between
 pages, and the shards of one page may answer at different instants.
 */
module KeysetWalk {
  import opened Keyset

  function Walk(snaps: seq<seq<seq<Order>>>, cur: Cursor, limit: nat): seq<seq<Order>>
    decreases |snaps|
  {
    if snaps == [] then []
    else
      var page := Page(snaps[0], cur, limit);
      if page == [] then [page] else [page] + Walk(snaps[1..], NextCursor(page, cur), limit)
  }

  method NextPage(rows: seq<seq<Order>>, cur: Cursor, limit: nat) returns (page: seq<Order>, next: Cursor)
    ensures page == Page(rows, cur, limit) && next == NextCursor(page, cur)
  {
    var answers := seq(|rows|, s requires 0 <= s < |rows| => Snapshot(rows[s]));
    var answer;
    answer, next := PageRecent(answers, cur, limit);
    assert Held(answers) == rows;
    page := answer.value;
  }

  /** The loop of `shardctl page`. */
  method WalkPages(snaps: seq<seq<seq<Order>>>, limit: nat) returns (pages: seq<seq<Order>>)
    ensures pages == Walk(snaps, FIRST_PAGE, limit)
  {
    pages := [];
    var cur := FIRST_PAGE;
    for p := 0 to |snaps|
      invariant Walk(snaps, FIRST_PAGE, limit) == pages + Walk(snaps[p..], cur, limit)
    {
      assert snaps[p..][0] == snaps[p] && snaps[p..][1..] == snaps[p + 1..];
      var page, next := NextPage(snaps[p], cur, limit);
      pages := pages + [page];
      if page == [] {
        return;
      }
      cur := next;
    }
  }

  // ---- one page ----

  // The order in which shards are merged does not affect the keys of a page.
  lemma ShardOrderIrrelevant(shards: seq<seq<Order>>, shards': seq<seq<Order>>, cur: Cursor, limit: nat, i: nat)
    requires multiset(Concat(shards)) == multiset(Concat(shards'))
    ensures |Page(shards, cur, limit)| == |Page(shards', cur, limit)|
    ensures i < |Page(shards, cur, limit)| ==> SameKey(Page(shards, cur, limit)[i], Page(shards', cur, limit)[i])
  {
    PageIsTop(shards, cur, limit);
    PageIsTop(shards', cur, limit);
    var all, all' := multiset(Eligible(Concat(shards), cur)), multiset(Eligible(Concat(shards'), cur));
    forall o
      ensures all[o] == all'[o]
    {
      EligibleContents(Concat(shards), cur, o);
      EligibleContents(Concat(shards'), cur, o);
    }
    assert all == all';
    if i < |Page(shards, cur, limit)| {
      TopKeysUnique(Page(shards, cur, limit), Page(shards', cur, limit), all, limit, i);
    }
  }

  /** No two rows, on any of the shards, share a key. */
  ghost predicate DistinctKeys(all: multiset<Order>) {
    && (forall x :: x in all ==> all[x] == 1)
    && forall x, y :: x in all && y in all && x.createdAt == y.createdAt && x.id == y.id ==> x == y
  }

  lemma RepeatCounts(s: seq<Order>, i: nat, j: nat)
    requires i < j < |s| && s[i] == s[j]
    ensures multiset(s)[s[i]] >= 2
  {
    assert s == s[..j] + s[j..];
    assert s[..j][i] == s[i] && s[j..][0] == s[i];
  }

  lemma PageStrict(shards: seq<seq<Order>>, cur: Cursor, limit: nat)
    requires DistinctKeys(multiset(Concat(shards)))
    ensures StrictlyDescending(Page(shards, cur, limit))
  {
    var page := Page(shards, cur, limit);
    PageIsTop(shards, cur, limit);
    forall i, j | 0 <= i < j < |page|
      ensures Newer(page[i], page[j])
    {
      PageRows(shards, cur, limit, page[i]);
      PageRows(shards, cur, limit, page[j]);
      if SameKey(page[i], page[j]) {
        RepeatCounts(page, i, j);
        EligibleContents(Concat(shards), cur, page[i]);
      }
    }
  }

  // ---- whole walks ----

  /** The zero time as a cursor means "first page", so a page must not end on it. */
  ghost predicate NoPageEndsAtZero(pages: seq<seq<Order>>) {
    forall p :: 0 <= p < |pages| && pages[p] != [] ==> pages[p][|pages[p]| - 1].createdAt != ZERO_TIME
  }

  ghost predicate DistinctKeysPerPage(snaps: seq<seq<seq<Order>>>) {
    forall p :: 0 <= p < |snaps| ==> DistinctKeys(multiset(Concat(snaps[p])))
  }

  lemma TailOfWalk(snaps: seq<seq<seq<Order>>>)
    requires snaps != []
    ensures forall p :: 0 <= p < |snaps| - 1 ==> snaps[1..][p] == snaps[p + 1]
    ensures DistinctKeysPerPage(snaps) ==> DistinctKeysPerPage(snaps[1..])
  {
  }

  lemma TailOfPages(snaps: seq<seq<seq<Order>>>, cur: Cursor, limit: nat, page: seq<Order>)
    requires snaps != [] && page == Page(snaps[0], cur, limit) && page != []
    requires NoPageEndsAtZero(Walk(snaps, cur, limit))
    ensures page[|page| - 1].createdAt != ZERO_TIME
    ensures NoPageEndsAtZero(Walk(snaps[1..], NextCursor(page, cur), limit))
  {
    var pages, rest := Walk(snaps, cur, limit), Walk(snaps[1..], NextCursor(page, cur), limit);
    assert pages == [page] + rest;
    assert pages[0] == page;
    forall p | 0 <= p < |rest| && rest[p] != []
      ensures rest[p][|rest[p]| - 1].createdAt != ZERO_TIME
    {
      assert pages[p + 1] == rest[p];
    }
  }

  lemma {:induction false} WalkIsBelow(snaps: seq<seq<seq<Order>>>, cur: Cursor, limit: nat, o: Order)
    requires NoPageEndsAtZero(Walk(snaps, cur, limit)) && o in Concat(Walk(snaps, cur, limit))
    ensures Below(o, cur)
    decreases |snaps|
  {
    var page := Page(snaps[0], cur, limit);
    WalkUnrolls(snaps, cur, limit);
    if o in page {
      PageRows(snaps[0], cur, limit, o);
    } else {
      TailOfPages(snaps, cur, limit, page);
      WalkIsBelow(snaps[1..], NextCursor(page, cur), limit, o);
      CursorIsBelow(snaps[0], cur, limit, o);
    }
  }

  lemma WalkUnrolls(snaps: seq<seq<seq<Order>>>, cur: Cursor, limit: nat)
    requires snaps != []
    ensures var page := Page(snaps[0], cur, limit);
            Concat(Walk(snaps, cur, limit)) ==
            if page == [] then [] else page + Concat(Walk(snaps[1..], NextCursor(page, cur), limit))
  {
    var page := Page(snaps[0], cur, limit);
    if page != [] {
      assert Walk(snaps, cur, limit)[1..] == Walk(snaps[1..], NextCursor(page, cur), limit);
    }
  }

  lemma CursorIsBelow(shards: seq<seq<Order>>, cur: Cursor, limit: nat, o: Order)
    requires Page(shards, cur, limit) != [] && Below(o, NextCursor(Page(shards, cur, limit), cur))
    requires NextCursor(Page(shards, cur, limit), cur).createdAt != ZERO_TIME
    ensures Below(o, cur)
  {
    var page := Page(shards, cur, limit);
    PageRows(shards, cur, limit, page[|page| - 1]);
  }

  lemma StrictJoin(a: seq<Order>, b: seq<Order>)
    requires StrictlyDescending(a) && StrictlyDescending(b) && a != []
    requires forall j :: 0 <= j < |b| ==> Newer(a[|a| - 1], b[j])
    ensures StrictlyDescending(a + b)
  {
  }

  // All pages together list rows strictly newest first, so no row is ever returned twice.
  lemma {:induction false} WalkStrictlyDescends(snaps: seq<seq<seq<Order>>>, cur: Cursor, limit: nat)
    requires NoPageEndsAtZero(Walk(snaps, cur, limit)) && DistinctKeysPerPage(snaps)
    ensures StrictlyDescending(Concat(Walk(snaps, cur, limit)))
    decreases |snaps|
  {
    if snaps != [] {
      var page := Page(snaps[0], cur, limit);
      PageStrict(snaps[0], cur, limit);
      if page != [] {
        var next := NextCursor(page, cur);
        var rest := Concat(Walk(snaps[1..], next, limit));
        TailOfWalk(snaps);
        TailOfPages(snaps, cur, limit, page);
        WalkStrictlyDescends(snaps[1..], next, limit);
        PageRows(snaps[0], cur, limit, page[|page| - 1]);
        forall j | 0 <= j < |rest|
          ensures Newer(page[|page| - 1], rest[j])
        {
          WalkIsBelow(snaps[1..], next, limit, rest[j]);
        }
        StrictJoin(page, rest);
        assert Walk(snaps, cur, limit)[1..] == Walk(snaps[1..], next, limit);
        assert Concat(Walk(snaps, cur, limit)) == page + rest;
      } else {
        assert Concat([page]) == page;
      }
    }
  }

  ghost predicate Ended(pages: seq<seq<Order>>) {
    pages != [] && pages[|pages| - 1] == []
  }

  /** Row i of page p has the key of r and was on one of the shards when that page was read. */
  ghost predicate ReturnedAt(snaps: seq<seq<seq<Order>>>, pages: seq<seq<Order>>, p: nat, i: nat, r: Order) {
    && p < |pages| && p < |snaps| && i < |pages[p]|
    && pages[p][i].createdAt == r.createdAt && pages[p][i].id == r.id && pages[p][i] in Concat(snaps[p])
  }

  // Whatever happens to other rows, the key of a row that exists throughout a finished walk is
  // returned. This needs neither distinct keys nor nonzero timestamps.
  lemma {:induction false} WalkReturnsKey(snaps: seq<seq<seq<Order>>>, cur: Cursor, limit: nat, r: Order)
    returns (p: nat, i: nat)
    requires limit >= 1 && Ended(Walk(snaps, cur, limit)) && Below(r, cur)
    requires forall p :: 0 <= p < |snaps| ==> r in Concat(snaps[p])
    ensures ReturnedAt(snaps, Walk(snaps, cur, limit), p, i, r)
    decreases |snaps|
  {
    var found;
    found, i := FoundOrBelow(snaps[0], cur, limit, r);
    if found {
      p := 0;
    } else {
      var next := NextCursor(Page(snaps[0], cur, limit), cur);
      TailOfWalk(snaps);
      WalkGoesOn(snaps, cur, limit);
      p, i := WalkReturnsKey(snaps[1..], next, limit, r);
      ReturnedLater(snaps, cur, limit, p, i, r);
      p := p + 1;
    }
  }

  // A page either returns the key of a row below its cursor or leaves it below the next cursor.
  lemma FoundOrBelow(shards: seq<seq<Order>>, cur: Cursor, limit: nat, r: Order) returns (found: bool, i: nat)
    requires limit >= 1 && r in Concat(shards) && Below(r, cur)
    ensures found ==> i < |Page(shards, cur, limit)| && SameKey(Page(shards, cur, limit)[i], r)
                      && Page(shards, cur, limit)[i] in Concat(shards)
    ensures !found ==> Page(shards, cur, limit) != [] && Below(r, NextCursor(Page(shards, cur, limit), cur))
  {
    var page := Page(shards, cur, limit);
    if r in page {
      i :| 0 <= i < |page| && page[i] == r;
      return true, i;
    }
    LeftOutIsBelow(shards, cur, limit, r);
    i := |page| - 1;
    PageRows(shards, cur, limit, page[i]);
    found := SameKey(page[i], r);
  }

  lemma WalkGoesOn(snaps: seq<seq<seq<Order>>>, cur: Cursor, limit: nat)
    requires snaps != [] && Page(snaps[0], cur, limit) != [] && Ended(Walk(snaps, cur, limit))
    ensures Ended(Walk(snaps[1..], NextCursor(Page(snaps[0], cur, limit), cur), limit))
  {
    var rest := Walk(snaps[1..], NextCursor(Page(snaps[0], cur, limit), cur), limit);
    assert Walk(snaps, cur, limit) == [Page(snaps[0], cur, limit)] + rest;
  }

  lemma ReturnedLater(snaps: seq<seq<seq<Order>>>, cur: Cursor, limit: nat, p: nat, i: nat, r: Order)
    requires snaps != [] && Page(snaps[0], cur, limit) != []
    requires ReturnedAt(snaps[1..], Walk(snaps[1..], NextCursor(Page(snaps[0], cur, limit), cur), limit), p, i, r)
    ensures ReturnedAt(snaps, Walk(snaps, cur, limit), p + 1, i, r)
  {
    var rest := Walk(snaps[1..], NextCursor(Page(snaps[0], cur, limit), cur), limit);
    assert Walk(snaps, cur, limit)[p + 1] == rest[p] && snaps[1..][p] == snaps[p + 1];
  }

  lemma {:induction false} ConcatAt<T>(parts: seq<seq<T>>, p: nat, i: nat) returns (k: nat)
    requires p < |parts| && i < |parts[p]|
    ensures k < |Concat(parts)| && Concat(parts)[k] == parts[p][i]
    decreases p
  {
    if p == 0 {
      k := i;
    } else {
      k := ConcatAt(parts[1..], p - 1, i);
      k := k + |parts[0]|;
    }
  }

  // The pagination theorem: a finished walk returns every row that exists throughout it exactly
  // once, at one place of a strictly descending list.
  lemma WalkReturnsExactlyOnce(snaps: seq<seq<seq<Order>>>, limit: nat, r: Order)
    requires limit >= 1 && DistinctKeysPerPage(snaps)
    requires Ended(Walk(snaps, FIRST_PAGE, limit)) && NoPageEndsAtZero(Walk(snaps, FIRST_PAGE, limit))
    requires forall p :: 0 <= p < |snaps| ==> r in Concat(snaps[p])
    ensures StrictlyDescending(Concat(Walk(snaps, FIRST_PAGE, limit)))
    ensures multiset(Concat(Walk(snaps, FIRST_PAGE, limit)))[r] == 1
  {
    var pages := Walk(snaps, FIRST_PAGE, limit);
    var feed := Concat(pages);
    WalkStrictlyDescends(snaps, FIRST_PAGE, limit);
    var p, i := WalkReturnsKey(snaps, FIRST_PAGE, limit, r);
    assert pages[p][i] in multiset(Concat(snaps[p])) && r in multiset(Concat(snaps[p]));
    assert pages[p][i] == r;
    var k := ConcatAt(pages, p, i);
    StrictCountsOnce(feed, k);
  }

  lemma StrictCountsOnce(feed: seq<Order>, k: nat)
    requires StrictlyDescending(feed) && k < |feed|
    ensures multiset(feed)[feed[k]] == 1
  {
    var r := feed[k];
    assert feed == feed[..k] + [r] + feed[k + 1..];
    assert r !in feed[..k] && r !in feed[k + 1..];
  }

  // ---- termination ----

  // Cursors strictly descend from page to page, even when two shards hold copies with one key.
  lemma CursorDescends(shards: seq<seq<Order>>, cur: Cursor, limit: nat)
    requires Page(shards, cur, limit) != []
    ensures var next := NextCursor(Page(shards, cur, limit), cur);
            cur.createdAt == ZERO_TIME || KeyAbove(cur.createdAt, cur.id, next.createdAt, next.id)
  {
    var page := Page(shards, cur, limit);
    PageRows(shards, cur, limit, page[|page| - 1]);
  }

  lemma EligibleShrinks(rows: seq<Order>, cur: Cursor, next: Cursor, last: Order)
    requires last in rows && Below(last, cur) && next == Cursor(last.createdAt, last.id)
    requires next.createdAt != ZERO_TIME
    ensures |Eligible(rows, next)| < |Eligible(rows, cur)|
  {
    var a, b := multiset(Eligible(rows, next)), multiset(Eligible(rows, cur));
    forall o
      ensures a[o] <= b[o]
    {
      EligibleContents(rows, next, o);
      EligibleContents(rows, cur, o);
    }
    EligibleContents(rows, next, last);
    EligibleContents(rows, cur, last);
    assert last in multiset(rows);
    assert last in b - a;
    assert b == a + (b - a);
    assert |a| == |Eligible(rows, next)| && |b| == |Eligible(rows, cur)|;
  }

  /** The data stands still: every page is read from the same shards. */
  ghost predicate Still(shards: seq<seq<Order>>, snaps: seq<seq<seq<Order>>>) {
    forall p :: 0 <= p < |snaps| ==> snaps[p] == shards
  }

  // On data that stands still the walk ends: every page but the last uses up a row.
  lemma {:induction false} WalkTerminates(shards: seq<seq<Order>>, snaps: seq<seq<seq<Order>>>, cur: Cursor, limit: nat)
    requires Still(shards, snaps) && NoPageEndsAtZero(Walk(snaps, cur, limit))
    requires |snaps| > |Eligible(Concat(shards), cur)|
    ensures Ended(Walk(snaps, cur, limit))
    ensures |Walk(snaps, cur, limit)| <= |Eligible(Concat(shards), cur)| + 1
    decreases |snaps|
  {
    assert snaps[0] == shards;
    var page := Page(shards, cur, limit);
    if page != [] {
      StillStep(shards, snaps, cur, limit, page);
      WalkTerminates(shards, snaps[1..], NextCursor(page, cur), limit);
      WalkGrows(snaps, cur, limit, page);
    }
  }

  lemma StillStep(shards: seq<seq<Order>>, snaps: seq<seq<seq<Order>>>, cur: Cursor, limit: nat, page: seq<Order>)
    requires Still(shards, snaps) && NoPageEndsAtZero(Walk(snaps, cur, limit))
    requires snaps != [] && page == Page(shards, cur, limit) && page != []
    ensures Still(shards, snaps[1..]) && NoPageEndsAtZero(Walk(snaps[1..], NextCursor(page, cur), limit))
    ensures |Eligible(Concat(shards), NextCursor(page, cur))| < |Eligible(Concat(shards), cur)|
  {
    assert snaps[0] == shards;
    PageRows(shards, cur, limit, page[|page| - 1]);
    TailOfPages(snaps, cur, limit, page);
    EligibleShrinks(Concat(shards), cur, NextCursor(page, cur), page[|page| - 1]);
  }

  lemma WalkGrows(snaps: seq<seq<seq<Order>>>, cur: Cursor, limit: nat, page: seq<Order>)
    requires snaps != [] && page == Page(snaps[0], cur, limit) && page != []
    ensures var rest := Walk(snaps[1..], NextCursor(page, cur), limit);
            |Walk(snaps, cur, limit)| == |rest| + 1 && (Ended(rest) ==> Ended(Walk(snaps, cur, limit)))
  {
    assert Walk(snaps, cur, limit) == [page] + Walk(snaps[1..], NextCursor(page, cur), limit);
  }

  // A page that ends on a zero timestamp leads back to the first page.
  lemma ZeroTimestampRestarts(shards: seq<seq<Order>>, later: seq<seq<Order>>, cur: Cursor, limit: nat)
    requires Page(shards, cur, limit) != []
    ensures var page := Page(shards, cur, limit);
            page[|page| - 1].createdAt == ZERO_TIME ==>
              Page(later, NextCursor(page, cur), limit) == Page(later, FIRST_PAGE, limit)
  {
    var page := Page(shards, cur, limit);
    if page[|page| - 1].createdAt == ZERO_TIME {
      SameFirstPage(later, NextCursor(page, cur), limit);
    }
  }

  lemma {:induction false} SameFirstPage(shards: seq<seq<Order>>, cur: Cursor, limit: nat)
    requires cur.createdAt == ZERO_TIME
    ensures QueryAll(shards, cur, limit) == QueryAll(shards, FIRST_PAGE, limit)
    decreases |shards|
  {
    if shards != [] {
      SameEligible(shards[0], cur);
      SameFirstPage(shards[1..], cur, limit);
    }
  }

  lemma {:induction false} SameEligible(rows: seq<Order>, cur: Cursor)
    requires cur.createdAt == ZERO_TIME
    ensures Eligible(rows, cur) == Eligible(rows, FIRST_PAGE)
    decreases |rows|
  {
    if rows != [] {
      SameEligible(rows[1..], cur);
    }
  }

  lemma {:induction false} WalkSuffix(snaps: seq<seq<seq<Order>>>, cur: Cursor, limit: nat, p: nat)
    requires p < |Walk(snaps, cur, limit)| && Walk(snaps, cur, limit)[p] != []
    ensures p < |snaps|
    ensures Walk(snaps[p + 1..], NextCursor(Walk(snaps, cur, limit)[p], cur), limit) == Walk(snaps, cur, limit)[p + 1..]
    decreases p
  {
    var page := Page(snaps[0], cur, limit);
    if p > 0 {
      WalkSuffix(snaps[1..], NextCursor(page, cur), limit, p - 1);
      assert snaps[1..][p..] == snaps[p + 1..];
      assert Walk(snaps, cur, limit)[1..] == Walk(snaps[1..], NextCursor(page, cur), limit);
    }
  }

  // Two finished walks over the same still data that start with one page are one walk.
  lemma {:induction false} SameWalk(shards: seq<seq<Order>>, a: seq<seq<seq<Order>>>, b: seq<seq<seq<Order>>>,
                                    cur: Cursor, cur': Cursor, limit: nat)
    requires Still(shards, a) && Still(shards, b) && Page(shards, cur, limit) == Page(shards, cur', limit)
    requires Ended(Walk(a, cur, limit)) && Ended(Walk(b, cur', limit))
    ensures Walk(a, cur, limit) == Walk(b, cur', limit)
    decreases |a|
  {
    var page := Page(shards, cur, limit);
    assert a[0] == shards && b[0] == shards;
    if page != [] {
      var next := NextCursor(page, cur);
      WalkGoesOn(a, cur, limit);
      WalkGoesOn(b, cur', limit);
      TailOfWalk(a);
      TailOfWalk(b);
      SameWalk(shards, a[1..], b[1..], next, next, limit);
    }
  }

  lemma EndedAvoidsZero(shards: seq<seq<Order>>, snaps: seq<seq<seq<Order>>>, limit: nat, p: nat)
    requires Still(shards, snaps) && Ended(Walk(snaps, FIRST_PAGE, limit))
    requires p < |Walk(snaps, FIRST_PAGE, limit)| && Walk(snaps, FIRST_PAGE, limit)[p] != []
    ensures var page := Walk(snaps, FIRST_PAGE, limit)[p]; page[|page| - 1].createdAt != ZERO_TIME
  {
    var pages := Walk(snaps, FIRST_PAGE, limit);
    WalkSuffix(snaps, FIRST_PAGE, limit, p);
    if NextCursor(pages[p], FIRST_PAGE).createdAt == ZERO_TIME {
      RestartRepeats(shards, snaps, limit, NextCursor(pages[p], FIRST_PAGE), p);
      assert false;
    }
  }

  lemma RestartRepeats(shards: seq<seq<Order>>, snaps: seq<seq<seq<Order>>>, limit: nat, next: Cursor, p: nat)
    requires Still(shards, snaps) && Ended(Walk(snaps, FIRST_PAGE, limit)) && p < |snaps|
    requires next.createdAt == ZERO_TIME && Ended(Walk(snaps[p + 1..], next, limit))
    ensures Walk(snaps[p + 1..], next, limit) == Walk(snaps, FIRST_PAGE, limit)
  {
    SameFirstPage(shards, next, limit);
    SameWalk(shards, snaps, snaps[p + 1..], FIRST_PAGE, next, limit);
  }

  // The exact condition: a walk over still data, given time enough, ends if and only if none of its
  // pages ends on a zero timestamp.
  lemma StillWalkEndsIff(shards: seq<seq<Order>>, snaps: seq<seq<seq<Order>>>, limit: nat)
    requires Still(shards, snaps) && |snaps| > |Concat(shards)|
    ensures Ended(Walk(snaps, FIRST_PAGE, limit)) <==> NoPageEndsAtZero(Walk(snaps, FIRST_PAGE, limit))
  {
    var pages := Walk(snaps, FIRST_PAGE, limit);
    if Ended(pages) {
      forall p | 0 <= p < |pages| && pages[p] != []
        ensures pages[p][|pages[p]| - 1].createdAt != ZERO_TIME
      {
        EndedAvoidsZero(shards, snaps, limit, p);
      }
    }
    if NoPageEndsAtZero(pages) {
      EligibleAtMost(Concat(shards), FIRST_PAGE);
      WalkTerminates(shards, snaps, FIRST_PAGE, limit);
    }
  }

  lemma {:induction false} EligibleAtMost(rows: seq<Order>, cur: Cursor)
    ensures |Eligible(rows, cur)| <= |rows|
    decreases |rows|
  {
    if rows != [] {
      EligibleAtMost(rows[1..], cur);
    }
  }
}
