/** kern/pmap.c in place: the PageInfo array, its linked free list, and the page tables that
    live in the pages themselves. Each method is tied to the function of module Pmap that
    says what it does, and the theorems there are about those functions. */
module PageTables {
  import opened Mmu
  import opened Pmap
  import opened Perms

  /** What pgdir_walk relies on when called for page v of `dir`: the directory is in use, and its
      entry names a page of memory. */
  predicate Rooted(s: Phys, dir: nat, v: nat) {
    && |s.mem| == |s.refs| && v < 0x10_0000
    && dir < |s.refs| && dir !in s.free
    && (Present(Cell(s, dir, v / 1024)) ==> Cell(s, dir, v / 1024).frame < |s.refs|)
  }

  /** What page_lookup, page_insert and page_remove rely on: the table's entry, too, names a
      page of memory, and one that is not free. */
  predicate Walkable(s: Phys, dir: nat, v: nat) {
    && Rooted(s, dir, v)
    && (Pt(s, dir, v).Some? ==> Pt(s, dir, v).value.frame < |s.refs| && Pt(s, dir, v).value.frame !in s.free)
  }

  /** The singly linked list that starts at `head` runs through exactly `free`, in that order,
      meeting no page twice. */
  ghost predicate Linked(links: seq<Option<nat>>, head: Option<nat>, free: seq<nat>)
    decreases |free|
  {
    if free == [] then head == None
    else head == Some(free[0]) && free[0] < |links| && free[0] !in free[1..] && Linked(links, links[free[0]], free[1..])
  }

  // Every page outside the list has a NULL link.
  ghost predicate Unlinked(links: seq<Option<nat>>, free: seq<nat>) {
    forall p: nat :: p < |links| && p !in free ==> links[p] == None
  }

  lemma {:induction false} LinkedElsewhere(links: seq<Option<nat>>, head: Option<nat>, free: seq<nat>, p: nat,
                                           next: Option<nat>)
    requires Linked(links, head, free) && p < |links| && p !in free
    ensures Linked(links[p := next], head, free)
    decreases |free|
  {
    if free != [] { LinkedElsewhere(links, links[free[0]], free[1..], p, next); }
  }

  lemma PopLinked(links: seq<Option<nat>>, head: Option<nat>, free: seq<nat>)
    requires Linked(links, head, free) && Unlinked(links, free) && free != []
    ensures Linked(links[free[0] := None], links[free[0]], free[1..]) && Unlinked(links[free[0] := None], free[1..])
  {
    LinkedElsewhere(links, links[free[0]], free[1..], free[0], None);
  }

  lemma PushLinked(links: seq<Option<nat>>, head: Option<nat>, free: seq<nat>, p: nat)
    requires Linked(links, head, free) && Unlinked(links, free) && p < |links| && p !in free
    ensures Linked(links[p := head], Some(p), [p] + free) && Unlinked(links[p := head], [p] + free)
  {
    LinkedElsewhere(links, head, free, p, head);
    assert ([p] + free)[1..] == free;
    assert forall q: nat :: q in free ==> q in [p] + free;
  }

  // A page of the list has a link unless it is the last.
  lemma {:induction false} LastLinked(links: seq<Option<nat>>, head: Option<nat>, free: seq<nat>, p: nat)
    requires Linked(links, head, free) && p in free && p < |links| && links[p] == None
    ensures free[|free| - 1] == p
    decreases |free|
  {
    if p != free[0] { LastLinked(links, links[free[0]], free[1..], p); }
  }

  lemma WalkLeaves(s: Phys, dir: nat, v: nat, pp: nat)
    requires pp !in s.free && pp < |s.refs|
    ensures pp !in Walk(s, dir, v, true).0.free && Walk(s, dir, v, true).0.refs[pp] == s.refs[pp]
  {}

  lemma CellIs(s: Phys, p: nat, i: nat)
    requires p < |s.mem| && i < 1024
    ensures Cell(s, p, i) == s.mem[p][i]
  {}

  lemma IncWalkable(s: Phys, dir: nat, v: nat, pp: nat)
    requires Walkable(s, dir, v) && pp < |s.refs|
    ensures Walkable(IncRef(s, pp), dir, v)
  {}

  class Pages {
    // pages[i].pp_link and pages[i].pp_ref, and the contents of page i.
    const ppLink: array<Option<nat>>
    const ppRef: array<nat>
    const mem: array<Page>
    var pageFreeList: Option<nat>
    ghost var free: seq<nat>

    ghost predicate Valid()
      reads this, ppLink, ppRef, mem
    {
      && ppLink.Length == ppRef.Length == mem.Length <= 0x10_0000
      && Linked(ppLink[..], pageFreeList, free) && Unlinked(ppLink[..], free)
      && (forall p :: 0 <= p < ppRef.Length ==> ppRef[p] < 0x1_0000)
      && (forall p :: p in free ==> p < ppRef.Length && ppRef[p] == 0)
    }

    ghost function View(): Phys
      reads this, ppRef, mem
    {
      Phys(free, ppRef[..], mem[..])
    }

    // An allocator that owns `n` pages of memory and has given none out yet; page_init decides
    // which of them are free.
    constructor (n: nat)
      requires n <= 0x10_0000
      ensures Valid() && View() == Phys([], seq(n, i => 0), seq(n, i => ZeroPage()))
      ensures fresh(ppLink) && fresh(ppRef) && fresh(mem)
    {
      ppLink := new Option<nat>[n](i => None);
      ppRef := new nat[n](i => 0);
      mem := new Page[n](i => ZeroPage());
      pageFreeList := None;
      free := [];
    }

    method PageAlloc(zero: bool) returns (pp: Option<nat>)
      requires Valid()
      modifies this`pageFreeList, this`free, ppLink, mem
      ensures Valid() && (pp.Some? ==> pp.value < mem.Length && pp.value !in free)
      ensures zero ==> (View(), pp) == Pmap.PageAlloc(old(View()))
      ensures !zero ==>
                (View(), pp) == (Pmap.PageAlloc(old(View())).0.(mem := old(View()).mem), Pmap.PageAlloc(old(View())).1)
    {
      if pageFreeList == None { return None; }
      PopLinked(ppLink[..], pageFreeList, free);
      pp := pageFreeList;
      pageFreeList := ppLink[pp.value];
      ppLink[pp.value] := None;
      assert ppLink[..] == old(ppLink[..])[pp.value := None];
      free := free[1..];
      assert forall p: nat :: p in free ==> p in old(free);
      if zero {
        mem[pp.value] := ZeroPage();
        assert mem[..] == old(mem[..])[pp.value := ZeroPage()];
      }
    }

    /** page_free panics exactly on a page still referred to or still linked. That catches every
        page already on the free list but the last one, whose link is NULL: freeing that page
        again goes through and makes the list circular. */
    method PageFree(pp: nat) returns (panic: bool)
      requires Valid() && pp < ppRef.Length
      modifies this`pageFreeList, this`free, ppLink
      ensures panic <==> old(ppRef[pp] != 0 || ppLink[pp].Some?)
      ensures old(pp in free) && !panic ==>
                old(free[|free| - 1]) == pp && ppLink[pp] == old(pageFreeList) && pageFreeList == Some(pp)
      ensures panic ==> Valid() && View() == old(View())
      ensures !panic && old(pp !in free) ==> Valid() && View() == old(View()).(free := [pp] + old(free))
    {
      if ppRef[pp] != 0 { return true; }
      if ppLink[pp] != None { return true; }
      if pp in free {
        LastLinked(ppLink[..], pageFreeList, free, pp);
      } else {
        PushLinked(ppLink[..], pageFreeList, free, pp);
      }
      ppLink[pp] := pageFreeList;
      pageFreeList := Some(pp);
      free := [pp] + free;
      return false;
    }

    method PageDecref(pp: nat) returns (panic: bool)
      requires Valid() && pp < ppRef.Length && pp !in free
      modifies this`pageFreeList, this`free, ppLink, ppRef
      ensures !panic && Valid() && View() == Decref(old(View()), pp)
    {
      panic := false;
      ppRef[pp] := (ppRef[pp] + 0xFFFF) % 0x1_0000;
      if ppRef[pp] == 0 { panic := PageFree(pp); }
    }

    // *pte = w
    method SetPte(pte: PtePtr, w: Word)
      requires Valid() && pte.frame < mem.Length && pte.index < 1024
      modifies mem
      ensures Valid() && View() == SetCell(old(View()), pte.frame, pte.index, w)
    {
      mem[pte.frame] := mem[pte.frame][pte.index := w];
    }

    // pp->pp_ref++
    method AddRef(pp: nat)
      requires Valid() && pp < ppRef.Length && pp !in free
      modifies ppRef
      ensures Valid() && View() == IncRef(old(View()), pp)
    {
      ppRef[pp] := (ppRef[pp] + 1) % 0x1_0000;
    }

    method PgdirWalk(dir: nat, v: nat, create: bool) returns (pte: Option<PtePtr>)
      requires Valid() && Rooted(View(), dir, v)
      modifies this`pageFreeList, this`free, ppLink, ppRef, mem
      ensures Valid() && (View(), pte) == Walk(old(View()), dir, v, create)
      ensures Rooted(View(), dir, v) && (old(Walkable(View(), dir, v)) ==> Walkable(View(), dir, v))
      ensures pte.Some? ==> pte.value.frame < mem.Length && pte.value.index < 1024
    {
      var pdx := v / 1024;
      if !Present(mem[dir][pdx]) {
        if !create { return None; }
        var pp := PageAlloc(true);
        if pp == None { return None; }
        ppRef[pp.value] := (ppRef[pp.value] + 1) % 0x1_0000;
        mem[dir] := mem[dir][v / 1024 := Word(pp.value, PTE_P | PTE_W | PTE_U)];
      }
      return Some(PtePtr(mem[dir][v / 1024].frame, v % 1024));
    }

    method PageLookup(dir: nat, v: nat) returns (pp: Option<nat>, pte: Option<PtePtr>)
      requires Valid() && Walkable(View(), dir, v)
      modifies this`pageFreeList, this`free, ppLink, ppRef, mem
      ensures Valid() && View() == old(View())
      ensures pte == Walk(View(), dir, v, false).1
      ensures pp == match Pt(View(), dir, v) case None => None case Some(w) => Some(w.frame)
      ensures pte.Some? ==> pte.value.frame < mem.Length && pte.value.index < 1024
    {
      pte := PgdirWalk(dir, v, false);
      if pte == None || !Present(mem[pte.value.frame][pte.value.index]) { return None, pte; }
      return Some(mem[pte.value.frame][pte.value.index].frame), pte;
    }

    method PageRemove(dir: nat, v: nat)
      requires Valid() && Walkable(View(), dir, v)
      modifies this`pageFreeList, this`free, ppLink, ppRef, mem
      ensures Valid() && View() == Remove(old(View()), dir, v)
    {
      var pp, pte := PageLookup(dir, v);
      if pp == None { return; }
      var panic := PageDecref(pp.value);
      SetPte(pte.value, ZERO);
    }

    method PageInsert(dir: nat, pp: Frame, v: nat, perm: Perm) returns (ok: bool)
      requires Valid() && Walkable(View(), dir, v)
      requires pp < ppRef.Length && pp !in free
      modifies this`pageFreeList, this`free, ppLink, ppRef, mem
      ensures Valid() && (View(), ok) == InsertWord(old(View()), dir, pp, v, EntryOf(pp, perm))
    {
      WalkLeaves(View(), dir, v, pp);
      var pte := PgdirWalk(dir, v, true);
      if pte == None { return false; }
      hide Walk, Remove, Linked, Unlinked, Cell, SetCell, IncRef, Walkable, Rooted, Pt, EntryOf;
      IncWalkable(View(), dir, v, pp);
      AddRef(pp);
      var word := mem[pte.value.frame][pte.value.index];
      CellIs(View(), pte.value.frame, pte.value.index);
      if Present(word) { PageRemove(dir, v); }
      SetPte(pte.value, EntryOf(pp, perm));
      return true;
    }
  }
}
