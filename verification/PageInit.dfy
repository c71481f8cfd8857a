/** The free list at boot (kern/pmap.c): what page_init links together, and the in-place
    partition of check_page_free_list. */
module PageInit {
  import opened Mmu
  import opened Pmap
  import opened PageTables

  const MPENTRY_PAGE := 7
  const IOPHYS_PAGE := 160

  // The pages that page_init must leave free, `firstFree` being the page of boot_alloc(0).
  predicate Usable(p: nat, firstFree: nat) {
    p != 0 && p != MPENTRY_PAGE && !(IOPHYS_PAGE <= p < firstFree)
  }

  // The usable pages below n, highest first.
  function Descending(n: nat, firstFree: nat): seq<nat> {
    if n == 0 then []
    else (if Usable(n - 1, firstFree) then [n - 1] else []) + Descending(n - 1, firstFree)
  }

  // The highest usable page below n.
  function Below(n: nat, firstFree: nat): Option<nat> {
    if n == 0 then None
    else if Usable(n - 1, firstFree) then Some(n - 1)
    else Below(n - 1, firstFree)
  }

  /** Each usable page is in the list exactly once, and the list descends. */
  lemma {:induction false} DescendingIsExact(n: nat, firstFree: nat)
    ensures forall p: nat :: p in Descending(n, firstFree) <==> p < n && Usable(p, firstFree)
    ensures forall i, j :: 0 <= i < j < |Descending(n, firstFree)| ==>
              Descending(n, firstFree)[i] > Descending(n, firstFree)[j]
  {
    if n > 0 {
      DescendingIsExact(n - 1, firstFree);
      var all, rest := Descending(n, firstFree), Descending(n - 1, firstFree);
      forall i, j | 0 <= i < j < |all| ensures all[i] > all[j] {
        if Usable(n - 1, firstFree) { assert all[j] == rest[j - 1] && rest[j - 1] in rest; }
      }
    }
  }

  lemma {:induction false} BelowHole(n: nat, firstFree: nat)
    requires IOPHYS_PAGE <= n <= firstFree
    ensures Below(n, firstFree) == Some(IOPHYS_PAGE - 1)
  {
    if n > IOPHYS_PAGE { BelowHole(n - 1, firstFree); }
  }

  lemma ConsLinked(links: seq<Option<nat>>, head: Option<nat>, free: seq<nat>, p: nat)
    requires Linked(links, head, free) && p < |links| && p !in free && links[p] == head
    ensures Linked(links, Some(p), [p] + free)
  {
    assert ([p] + free)[1..] == free;
  }

  // When every usable page links to the next lower one, the list is Descending.
  lemma {:induction false} DescendingLinked(links: seq<Option<nat>>, n: nat, firstFree: nat)
    requires n <= |links| && forall p :: 0 <= p < n && Usable(p, firstFree) ==> links[p] == Below(p, firstFree)
    ensures Linked(links, Below(n, firstFree), Descending(n, firstFree))
  {
    if n > 0 {
      DescendingLinked(links, n - 1, firstFree);
      DescendingIsExact(n - 1, firstFree);
      if Usable(n - 1, firstFree) {
        assert Descending(n, firstFree) == [n - 1] + Descending(n - 1, firstFree);
        ConsLinked(links, Below(n - 1, firstFree), Descending(n - 1, firstFree), n - 1);
      } else {
        assert Descending(n, firstFree) == Descending(n - 1, firstFree);
      }
    }
  }

  // The link that page_init leaves in page p.
  function LinkOf(p: nat, firstFree: nat): Option<nat> {
    if !Usable(p, firstFree) || p == 1 then None
    else if p == MPENTRY_PAGE + 1 then Some(MPENTRY_PAGE - 1)
    else if p == firstFree then Some(IOPHYS_PAGE - 1)
    else Some(p - 1)
  }

  lemma BootList(links: seq<Option<nat>>, firstFree: nat)
    requires IOPHYS_PAGE <= firstFree < |links| && forall p :: 0 <= p < |links| ==> links[p] == LinkOf(p, firstFree)
    ensures Linked(links, Some(|links| - 1), Descending(|links|, firstFree))
            && Unlinked(links, Descending(|links|, firstFree))
  {
    BelowHole(firstFree, firstFree);
    forall p | 0 <= p < |links| && Usable(p, firstFree) ensures links[p] == Below(p, firstFree) {
      if p != 1 && p != MPENTRY_PAGE + 1 && p != firstFree { assert Usable(p - 1, firstFree); }
    }
    DescendingLinked(links, |links|, firstFree);
    DescendingIsExact(|links|, firstFree);
  }

  // the loop that links every page to the one before it
  method LinkAll(pm: Pages)
    requires pm.ppLink.Length == pm.ppRef.Length && pm.pageFreeList == None && pm.ppRef.Length > 0
    modifies pm`pageFreeList, pm.ppLink, pm.ppRef
    ensures pm.pageFreeList == Some(pm.ppRef.Length - 1)
    ensures forall p :: 0 <= p < pm.ppRef.Length ==>
              pm.ppRef[p] == 0 && pm.ppLink[p] == if p == 0 then None else Some(p - 1)
  {
    for i := 0 to pm.ppRef.Length
      invariant forall p :: 0 <= p < i ==> pm.ppRef[p] == 0 && pm.ppLink[p] == if p == 0 then None else Some(p - 1)
      invariant pm.pageFreeList == if i == 0 then None else Some(i - 1)
    {
      pm.ppRef[i] := 0;
      pm.ppLink[i] := pm.pageFreeList;
      pm.pageFreeList := Some(i);
    }
  }

  // the pages at MPENTRY_PADDR and at 0
  method TakeOut(pm: Pages)
    requires pm.ppLink.Length == pm.ppRef.Length > MPENTRY_PAGE + 1
    modifies pm.ppLink, pm.ppRef
    ensures forall p :: 0 <= p < pm.ppRef.Length ==>
      && pm.ppRef[p] == (if p == MPENTRY_PAGE || p == 0 then 1 else old(pm.ppRef[p]))
      && pm.ppLink[p] == if p == MPENTRY_PAGE || p <= 1 then None
                         else if p == MPENTRY_PAGE + 1 then Some(MPENTRY_PAGE - 1) else old(pm.ppLink[p])
  {
    pm.ppRef[MPENTRY_PAGE] := 1;
    pm.ppLink[MPENTRY_PAGE] := None;
    pm.ppLink[MPENTRY_PAGE + 1] := Some(MPENTRY_PAGE - 1);
    pm.ppRef[0] := 1;
    pm.ppLink[0] := None;
    pm.ppLink[1] := None;
  }

  // the loop that takes the pages of the hole, and what lies above it, out
  method CarveHole(pm: Pages, firstFree: nat)
    requires pm.ppLink.Length == pm.ppRef.Length && IOPHYS_PAGE <= firstFree < pm.ppRef.Length
    modifies pm.ppLink, pm.ppRef
    ensures forall p :: 0 <= p < pm.ppRef.Length ==>
      && pm.ppRef[p] == (if IOPHYS_PAGE <= p < firstFree then 1 else old(pm.ppRef[p]))
      && pm.ppLink[p] == if p == firstFree then old(pm.ppLink[IOPHYS_PAGE])
           else if IOPHYS_PAGE <= p < firstFree then None else old(pm.ppLink[p])
  {
    var tmp := pm.ppLink[IOPHYS_PAGE];
    var i := IOPHYS_PAGE;
    while i < firstFree
      invariant IOPHYS_PAGE <= i <= firstFree
      invariant forall p :: 0 <= p < pm.ppRef.Length ==>
        && pm.ppRef[p] == (if IOPHYS_PAGE <= p < i then 1 else old(pm.ppRef[p]))
        && pm.ppLink[p] == if IOPHYS_PAGE <= p < i then None else old(pm.ppLink[p])
    {
      pm.ppRef[i] := 1;
      pm.ppLink[i] := None;
      i := i + 1;
    }
    pm.ppLink[i] := tmp;
  }

  /** page_init: the list is left with exactly the usable pages, each once, in descending order,
      and every other page carries a reference so that it is never handed out. */
  method PageInit(pm: Pages, firstFree: nat)
    requires pm.Valid() && pm.pageFreeList == None && IOPHYS_PAGE <= firstFree < pm.ppRef.Length
    modifies pm, pm.ppLink, pm.ppRef
    ensures pm.Valid() && pm.free == Descending(pm.ppRef.Length, firstFree)
    ensures forall p :: 0 <= p < pm.ppRef.Length ==> pm.ppRef[p] == if Usable(p, firstFree) then 0 else 1
  {
    var npages := pm.ppRef.Length;
    LinkAll(pm);
    TakeOut(pm);
    CarveHole(pm, firstFree);
    assert forall p :: 0 <= p < npages ==> pm.ppLink[..][p] == LinkOf(p, firstFree);
    assert forall p :: 0 <= p < npages ==> pm.ppRef[p] == if Usable(p, firstFree) then 0 else 1;
    hide Linked, Unlinked, Descending, LinkOf, Usable;
    pm.free := Descending(npages, firstFree);
    BootList(pm.ppLink[..], firstFree);
    DescendingIsExact(npages, firstFree);
  }

  // ---------- check_page_free_list: the pages below 4 MB first, in place

  // The links lead from `head` through exactly `xs` to `end`.
  ghost predicate Segment(links: seq<Option<nat>>, head: Option<nat>, xs: seq<nat>, end: Option<nat>)
    decreases |xs|
  {
    if xs == [] then head == end
    else head == Some(xs[0]) && xs[0] < |links| && xs[0] !in xs[1..] && Segment(links, links[xs[0]], xs[1..], end)
  }

  lemma {:induction false} SegmentElsewhere(links: seq<Option<nat>>, head: Option<nat>, xs: seq<nat>,
                                            end: Option<nat>, p: nat, w: Option<nat>)
    requires Segment(links, head, xs, end) && p < |links| && p !in xs
    ensures Segment(links[p := w], head, xs, end)
    decreases |xs|
  {
    if xs != [] { SegmentElsewhere(links, links[xs[0]], xs[1..], end, p, w); }
  }

  // Writing the link of the last page moves the end of the segment.
  lemma {:induction false} SegmentEnd(links: seq<Option<nat>>, head: Option<nat>, xs: seq<nat>, end: Option<nat>,
                                      w: Option<nat>)
    requires Segment(links, head, xs, end) && xs != [] && xs[|xs| - 1] < |links|
    ensures Segment(links[xs[|xs| - 1] := w], head, xs, w)
    decreases |xs|
  {
    if |xs| > 1 {
      SegmentEnd(links, links[xs[0]], xs[1..], end, w);
      assert xs[|xs| - 1] in xs[1..];
    } else {
      assert xs[1..] == [];
    }
  }

  lemma {:induction false} SegmentJoin(links: seq<Option<nat>>, head: Option<nat>, xs: seq<nat>, mid: Option<nat>,
                                       ys: seq<nat>, end: Option<nat>)
    requires Segment(links, head, xs, mid) && Segment(links, mid, ys, end) && forall x :: x in xs ==> x !in ys
    ensures Segment(links, head, xs + ys, end)
    decreases |xs|
  {
    if xs == [] {
      assert xs + ys == ys;
    } else {
      SegmentJoin(links, links[xs[0]], xs[1..], mid, ys, end);
      assert (xs + ys)[1..] == xs[1..] + ys;
    }
  }

  lemma {:induction false} SegmentIsLinked(links: seq<Option<nat>>, head: Option<nat>, xs: seq<nat>)
    ensures Segment(links, head, xs, None) <==> Linked(links, head, xs)
    decreases |xs|
  {
    if xs != [] && xs[0] < |links| { SegmentIsLinked(links, links[xs[0]], xs[1..]); }
  }

  /** The pages of `xs` on one side of 4 MB, in the order of `xs`. */
  function Side(xs: seq<nat>, low: bool): seq<nat> {
    if xs == [] then []
    else
      var rest := Side(xs[..|xs| - 1], low);
      if (xs[|xs| - 1] < 1024) == low then rest + [xs[|xs| - 1]] else rest
  }

  lemma {:induction false} SideContains(xs: seq<nat>, low: bool, p: nat)
    ensures p in Side(xs, low) <==> p in xs && (p < 1024) == low
  {
    if xs != [] {
      SideContains(xs[..|xs| - 1], low, p);
      assert xs == xs[..|xs| - 1] + [xs[|xs| - 1]];
    }
  }

  // A list under construction: the links lead from `head` through `xs`, whose last page is `tail`.
  ghost predicate Strand(links: seq<Option<nat>>, head: Option<nat>, tail: Option<nat>, xs: seq<nat>) {
    if xs == [] then tail == None
    else tail == Some(xs[|xs| - 1]) && tail.value < |links| && Segment(links, head, xs, links[tail.value])
  }

  // *tp = w, for the tail pointer of a strand: the local head variable or the last page's link
  function LinksAfter(links: seq<Option<nat>>, tail: Option<nat>, w: Option<nat>): seq<Option<nat>> {
    if tail.Some? && tail.value < |links| then links[tail.value := w] else links
  }

  function HeadAfter(head: Option<nat>, tail: Option<nat>, w: Option<nat>): Option<nat> {
    if tail == None then w else head
  }

  lemma EndStrand(links: seq<Option<nat>>, head: Option<nat>, tail: Option<nat>, xs: seq<nat>, w: Option<nat>)
    requires Strand(links, head, tail, xs)
    ensures Segment(LinksAfter(links, tail, w), HeadAfter(head, tail, w), xs, w)
  {
    if xs != [] { SegmentEnd(links, head, xs, links[tail.value], w); }
  }

  lemma ExtendStrand(links: seq<Option<nat>>, head: Option<nat>, tail: Option<nat>, xs: seq<nat>, p: nat)
    requires Strand(links, head, tail, xs) && p < |links| && p !in xs
    ensures Strand(LinksAfter(links, tail, Some(p)), HeadAfter(head, tail, Some(p)), Some(p), xs + [p])
  {
    EndStrand(links, head, tail, xs, Some(p));
    var links' := LinksAfter(links, tail, Some(p));
    assert [p][1..] == [];
    SegmentJoin(links', HeadAfter(head, tail, Some(p)), xs, Some(p), [p], links'[p]);
  }

  lemma StrandElsewhere(links: seq<Option<nat>>, head: Option<nat>, tail: Option<nat>, xs: seq<nat>,
                        other: Option<nat>, w: Option<nat>)
    requires Strand(links, head, tail, xs) && (other.Some? ==> other.value !in xs)
    ensures Strand(LinksAfter(links, other, w), head, tail, xs)
  {
    if xs != [] && other.Some? && other.value < |links| {
      SegmentElsewhere(links, head, xs, links[tail.value], other.value, w);
      assert xs[|xs| - 1] in xs;
    }
  }

  lemma LinkedElsewhere2(links: seq<Option<nat>>, head: Option<nat>, xs: seq<nat>, other: Option<nat>, w: Option<nat>)
    requires Linked(links, head, xs) && (other.Some? ==> other.value !in xs)
    ensures Linked(LinksAfter(links, other, w), head, xs)
  {
    if other.Some? && other.value < |links| { LinkedElsewhere(links, head, xs, other.value, w); }
  }

  // What the loop keeps: two strands of the pages passed, and the list of those to come.
  ghost predicate Sorting(links: seq<Option<nat>>, all: seq<nat>, n: nat, pp: Option<nat>,
                          pp1: Option<nat>, t1: Option<nat>, pp2: Option<nat>, t2: Option<nat>) {
    && n <= |all| && (forall i, j :: 0 <= i < j < |all| ==> all[i] != all[j])
    && Linked(links, pp, all[n..]) && Unlinked(links, all)
    && Strand(links, pp1, t1, Side(all[..n], true)) && Strand(links, pp2, t2, Side(all[..n], false))
  }

  lemma SortLow(links: seq<Option<nat>>, all: seq<nat>, n: nat, p: nat,
                pp1: Option<nat>, t1: Option<nat>, pp2: Option<nat>, t2: Option<nat>)
    requires Sorting(links, all, n, Some(p), pp1, t1, pp2, t2) && p < 1024
    ensures n < |all| && p < |links| && (t1.Some? ==> t1.value < |links|)
    ensures var links' := LinksAfter(links, t1, Some(p));
            Sorting(links', all, n + 1, links'[p], HeadAfter(pp1, t1, Some(p)), Some(p), pp2, t2)
  {
    Passed(links, all, n, p, pp1, t1, pp2, t2);
    var links' := LinksAfter(links, t1, Some(p));
    ExtendStrand(links, pp1, t1, Side(all[..n], true), p);
    StrandElsewhere(links, pp2, t2, Side(all[..n], false), t1, Some(p));
    LinkedElsewhere2(links, Some(p), all[n..], t1, Some(p));
  }

  lemma SortHigh(links: seq<Option<nat>>, all: seq<nat>, n: nat, p: nat,
                 pp1: Option<nat>, t1: Option<nat>, pp2: Option<nat>, t2: Option<nat>)
    requires Sorting(links, all, n, Some(p), pp1, t1, pp2, t2) && p >= 1024
    ensures n < |all| && p < |links| && (t2.Some? ==> t2.value < |links|)
    ensures var links' := LinksAfter(links, t2, Some(p));
            Sorting(links', all, n + 1, links'[p], pp1, t1, HeadAfter(pp2, t2, Some(p)), Some(p))
  {
    Passed(links, all, n, p, pp1, t1, pp2, t2);
    var links' := LinksAfter(links, t2, Some(p));
    ExtendStrand(links, pp2, t2, Side(all[..n], false), p);
    StrandElsewhere(links, pp1, t1, Side(all[..n], true), t2, Some(p));
    LinkedElsewhere2(links, Some(p), all[n..], t2, Some(p));
  }

  lemma Passed(links: seq<Option<nat>>, all: seq<nat>, n: nat, p: nat,
               pp1: Option<nat>, t1: Option<nat>, pp2: Option<nat>, t2: Option<nat>)
    requires Sorting(links, all, n, Some(p), pp1, t1, pp2, t2)
    ensures n < |all| && all[n] == p < |links| && all[n..][1..] == all[n + 1..]
    ensures all[..n + 1][..n] == all[..n] && all[..n + 1][n] == p
    ensures forall q: nat :: q in Side(all[..n], true) ==> q in all && q !in all[n..] && q !in Side(all[..n], false)
    ensures forall q: nat :: q in Side(all[..n], false) ==> q in all && q !in all[n..] && q !in Side(all[..n], true)
    ensures p !in Side(all[..n], true) && p !in Side(all[..n], false)
    ensures t1.Some? ==> t1.value in Side(all[..n], true)
    ensures t2.Some? ==> t2.value in Side(all[..n], false)
  {
    forall q: nat, low: bool | q in Side(all[..n], low)
      ensures q in all && q !in all[n..] && q !in Side(all[..n], !low)
    {
      SideContains(all[..n], low, q);
      SideContains(all[..n], !low, q);
      var i :| 0 <= i < n && all[..n][i] == q;
      assert all[i] == q;
    }
    assert p in all[n..];
  }

  lemma SortEndContents(all: seq<nat>)
    ensures forall p: nat :: p in Side(all, true) + Side(all, false) <==> p in all
  {
    forall p: nat ensures p in Side(all, true) + Side(all, false) <==> p in all {
      SideContains(all, true, p);
      SideContains(all, false, p);
    }
  }

  // *tp[1] = 0; *tp[0] = pp2
  lemma SortEnd(links: seq<Option<nat>>, all: seq<nat>, n: nat,
                pp1: Option<nat>, t1: Option<nat>, pp2: Option<nat>, t2: Option<nat>)
    requires Sorting(links, all, n, None, pp1, t1, pp2, t2)
    ensures (t1.Some? ==> t1.value < |links|) && (t2.Some? ==> t2.value < |links|)
    ensures var links1, pp2' := LinksAfter(links, t2, None), HeadAfter(pp2, t2, None);
            var links2 := LinksAfter(links1, t1, pp2');
            Linked(links2, HeadAfter(pp1, t1, pp2'), Side(all, true) + Side(all, false))
              && Unlinked(links2, Side(all, true) + Side(all, false))
  {
    var lo, hi := Side(all, true), Side(all, false);
    assert all[n..] == [] && all[..n] == all;
    forall q: nat ensures (q in lo <==> q in all && q < 1024) && (q in hi <==> q in all && q >= 1024) {
      SideContains(all, true, q);
      SideContains(all, false, q);
    }
    var links1, pp2' := LinksAfter(links, t2, None), HeadAfter(pp2, t2, None);
    var links2 := LinksAfter(links1, t1, pp2');
    EndStrand(links, pp2, t2, hi, None);
    StrandElsewhere(links, pp1, t1, lo, t2, None);
    EndStrand(links1, pp1, t1, lo, pp2');
    if t1.Some? && t1.value < |links1| { SegmentElsewhere(links1, pp2', hi, None, t1.value, pp2'); }
    SegmentJoin(links2, HeadAfter(pp1, t1, pp2'), lo, pp2', hi, None);
    SegmentIsLinked(links2, HeadAfter(pp1, t1, pp2'), lo + hi);
  }

  // *tp = w
  method StoreTail(pm: Pages, head: Option<nat>, tail: Option<nat>, w: Option<nat>) returns (head': Option<nat>)
    requires tail.Some? ==> tail.value < pm.ppLink.Length
    modifies pm.ppLink
    ensures pm.ppLink[..] == LinksAfter(old(pm.ppLink[..]), tail, w) && head' == HeadAfter(head, tail, w)
  {
    head' := head;
    if tail == None { head' := w; } else { pm.ppLink[tail.value] := w; }
  }

  lemma {:induction false} LinkedDistinct(links: seq<Option<nat>>, head: Option<nat>, free: seq<nat>)
    requires Linked(links, head, free)
    ensures forall i, j :: 0 <= i < j < |free| ==> free[i] != free[j]
    decreases |free|
  {
    if free != [] {
      LinkedDistinct(links, links[free[0]], free[1..]);
      forall i, j | 0 <= i < j < |free| ensures free[i] != free[j] {
        assert free[j] == free[1..][j - 1];
        if i > 0 { assert free[i] == free[1..][i - 1]; }
      }
    }
  }

  // one round: append the page to the list of its side
  method SortPage(pm: Pages, p: nat, pp1: Option<nat>, t1: Option<nat>, pp2: Option<nat>, t2: Option<nat>,
                  ghost all: seq<nat>, ghost n: nat)
      returns (next: Option<nat>, pp1': Option<nat>, t1': Option<nat>, pp2': Option<nat>, t2': Option<nat>)
    requires Sorting(pm.ppLink[..], all, n, Some(p), pp1, t1, pp2, t2)
    modifies pm.ppLink
    ensures n < |all| && Sorting(pm.ppLink[..], all, n + 1, next, pp1', t1', pp2', t2')
  {
    pp1', t1', pp2', t2' := pp1, t1, pp2, t2;
    hide LinksAfter, HeadAfter;
    if p / 1024 >= 1 {
      SortHigh(pm.ppLink[..], all, n, p, pp1, t1, pp2, t2);
      hide Sorting;
      pp2' := StoreTail(pm, pp2, t2, Some(p));
      t2' := Some(p);
    } else {
      SortLow(pm.ppLink[..], all, n, p, pp1, t1, pp2, t2);
      hide Sorting;
      pp1' := StoreTail(pm, pp1, t1, Some(p));
      t1' := Some(p);
    }
    next := pm.ppLink[p];
  }

  lemma SortStart(links: seq<Option<nat>>, head: Option<nat>, all: seq<nat>)
    requires Linked(links, head, all) && Unlinked(links, all)
    ensures Sorting(links, all, 0, head, None, None, None, None)
  {
    assert all[0..] == all && all[..0] == [];
    LinkedDistinct(links, head, all);
  }

  /** The two-tail relinking of check_page_free_list: a stable partition of the free list, in
      place, with the pages below 4 MB first. */
  method LowPagesFirst(pm: Pages)
    requires pm.Valid()
    modifies pm, pm.ppLink
    ensures pm.Valid() && pm.free == Side(old(pm.free), true) + Side(old(pm.free), false)
  {
    hide Side, Linked, Unlinked, LinksAfter, HeadAfter, Sorting;
    ghost var all := pm.free;
    SortStart(pm.ppLink[..], pm.pageFreeList, all);
    SortEndContents(all);
    var pp: Option<nat> := pm.pageFreeList;
    var pp1: Option<nat>, t1: Option<nat>, pp2: Option<nat>, t2: Option<nat> := None, None, None, None;
    ghost var n: nat := 0;
    while pp != None
      invariant Sorting(pm.ppLink[..], all, n, pp, pp1, t1, pp2, t2) && n <= |all|
      decreases |all| - n
    {
      pp, pp1, t1, pp2, t2 := SortPage(pm, pp.value, pp1, t1, pp2, t2, all, n);
      n := n + 1;
    }
    SortEnd(pm.ppLink[..], all, n, pp1, t1, pp2, t2);
    pp2 := StoreTail(pm, pp2, t2, None);
    pp1 := StoreTail(pm, pp1, t1, pp2);
    pm.pageFreeList := pp1;
    pm.free := Side(all, true) + Side(all, false);
  }

  /** The partition is one: it loses and repeats no page, every low page comes before every
      high one, and two pages of one side keep their order. */
  lemma PartitionIsStable(xs: seq<nat>)
    ensures var ys := Side(xs, true) + Side(xs, false);
            && multiset(ys) == multiset(xs)
            && (forall i, j :: 0 <= i < j < |ys| && ys[j] < 1024 ==> ys[i] < 1024)
            && Side(ys, true) == Side(xs, true) && Side(ys, false) == Side(xs, false)
  {
    var lo, hi := Side(xs, true), Side(xs, false);
    SideCount(xs);
    forall p: nat ensures (p in lo ==> p < 1024) && (p in hi ==> p >= 1024) {
      SideContains(xs, true, p);
      SideContains(xs, false, p);
    }
    forall k | |lo| <= k < |lo + hi| ensures (lo + hi)[k] >= 1024 { assert hi[k - |lo|] in hi; }
    forall i, j | 0 <= i < j < |lo + hi| && (lo + hi)[j] < 1024 ensures (lo + hi)[i] < 1024 {
      assert (lo + hi)[i] in lo;
    }
    SideOfSides(lo, hi, |hi|, true);
    SideOfSides(lo, hi, |hi|, false);
    assert hi[..|hi|] == hi;
  }

  lemma {:induction false} SideCount(xs: seq<nat>)
    ensures multiset(Side(xs, true) + Side(xs, false)) == multiset(xs)
  {
    if xs != [] {
      SideCount(xs[..|xs| - 1]);
      assert xs == xs[..|xs| - 1] + [xs[|xs| - 1]];
    }
  }

  lemma {:induction false} SideOfOneSide(xs: seq<nat>, side: bool, low: bool)
    requires forall p: nat :: p in xs ==> (p < 1024) == side
    ensures Side(xs, low) == if low == side then xs else []
  {
    if xs != [] {
      var init := xs[..|xs| - 1];
      forall p: nat | p in init ensures (p < 1024) == side { assert p in xs; }
      SideOfOneSide(init, side, low);
      assert xs[|xs| - 1] in xs;
      assert xs == xs[..|xs| - 1] + [xs[|xs| - 1]];
    }
  }

  lemma {:induction false} SideOfSides(lo: seq<nat>, hi: seq<nat>, n: nat, low: bool)
    requires (forall p: nat :: p in lo ==> p < 1024) && (forall p: nat :: p in hi ==> p >= 1024) && n <= |hi|
    ensures Side(lo + hi[..n], low) == if low then lo else hi[..n]
  {
    var xs := lo + hi[..n];
    if n == 0 {
      assert xs == lo;
      SideOfOneSide(lo, true, low);
    } else {
      assert xs[..|xs| - 1] == lo + hi[..n - 1] && xs[|xs| - 1] == hi[n - 1];
      assert hi[..n] == hi[..n - 1] + [hi[n - 1]];
      SideOfSides(lo, hi, n - 1, low);
      assert hi[n - 1] in hi;
    }
  }

  /** Once booting is done, before the first environment: the references that boot left are all
      pins, and the invariant of Pmap holds. */
  lemma BootInv(s: Phys, kdir: nat)
    requires |s.mem| == |s.refs| <= 0x10_0000 && (forall p :: 0 <= p < |s.refs| ==> s.refs[p] < 0x1_0000)
    requires FreeList(s) && kdir < |s.refs| && s.refs[kdir] >= 1 && Blank(s, kdir, USER_PDES)
    ensures Inv(s, map[], s.refs, kdir)
  {
    forall p | 0 <= p < |s.refs| ensures Holders(s, map[], p) == {} {}
  }
}
