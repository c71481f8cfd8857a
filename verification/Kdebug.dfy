/** The typed binary search over interleaved stabs (stab_binsearch of kern/kdebug.c). */
module Kdebug {
  datatype Stab = Stab(ntype: int, value: nat)

  const WORD := 0x1_0000_0000

  // addr++ on a uintptr_t
  function Next(addr: nat): nat { if addr + 1 == WORD then 0 else addr + 1 }

  // Entry i is one of those searched for, in the range given.
  predicate Match(stabs: seq<Stab>, lo: int, hi: int, ntype: int, i: int) {
    0 <= i < |stabs| && lo <= i <= hi && stabs[i].ntype == ntype
  }

  /** What the search assumes of the table: entries of one type increase strictly, within 32
      bits, and none has the largest address there is. */
  ghost predicate Ordered(stabs: seq<Stab>, lo: int, hi: int, ntype: int) {
    && (forall i, j :: Match(stabs, lo, hi, ntype, i) && Match(stabs, lo, hi, ntype, j) && i < j ==>
         stabs[i].value < stabs[j].value)
    && (forall i :: Match(stabs, lo, hi, ntype, i) ==> stabs[i].value < WORD - 1)
  }

  ghost predicate Has(stabs: seq<Stab>, lo: int, hi: int, ntype: int, value: nat) {
    exists i :: Match(stabs, lo, hi, ntype, i) && stabs[i].value == value
  }

  // Every address from a to b has an entry.
  ghost predicate Unbroken(stabs: seq<Stab>, lo: int, hi: int, ntype: int, a: nat, b: nat) {
    a <= b && (a < b ==> forall v: nat :: a <= v <= b ==> Has(stabs, lo, hi, ntype, v))
  }

  /** The answer for address a: with no entry of the type the range is empty; with none at or
      below a, it is what lies before the first one; otherwise it runs from the last entry at
      or below a to just before the next entry of the type. */
  ghost predicate Brackets(stabs: seq<Stab>, lo: int, hi: int, ntype: int, a: nat, left: int, right: int) {
    if forall i :: !Match(stabs, lo, hi, ntype, i) then left == lo && right == lo - 1
    else if forall i :: Match(stabs, lo, hi, ntype, i) ==> stabs[i].value > a then
      && Match(stabs, lo, hi, ntype, right + 1) && (forall i :: Match(stabs, lo, hi, ntype, i) ==> i > right)
      && left == if right < lo then lo - 1 else lo
    else
      && Match(stabs, lo, hi, ntype, left) && stabs[left].value <= a && left <= right
      && (forall i :: Match(stabs, lo, hi, ntype, i) ==>
           (stabs[i].value <= a <==> i <= left) && (i <= left || i > right))
      && (right == hi || Match(stabs, lo, hi, ntype, right + 1))
  }

  // The entry that a round with bounds l and r compares: the last of the type up to the middle.
  function Probe(stabs: seq<Stab>, l: int, m: int, ntype: int): (i: int)
    requires 0 <= l && m < |stabs|
    ensures i <= m && (i >= l ==> stabs[i].ntype == ntype) && forall k :: l <= k <= m && stabs[k].ntype == ntype ==>
              k <= i
    decreases m - l
  {
    if m < l || stabs[m].ntype == ntype then m else Probe(stabs, l, m - 1, ntype)
  }

  ghost predicate SomeMatch(stabs: seq<Stab>, lo: int, hi: int, ntype: int) {
    exists i :: Match(stabs, lo, hi, ntype, i)
  }

  ghost predicate NoneBefore(stabs: seq<Stab>, lo: int, hi: int, ntype: int, l: int) {
    forall i :: Match(stabs, lo, hi, ntype, i) ==> i >= l
  }

  function Middle(l: int, r: int): (m: int)
    requires 0 <= l <= r
    ensures l <= m <= r
  {
    (l + r) / 2
  }

  /** The variables of the search loop, apart from r, which always equals *region_right. */
  datatype Bounds = Bounds(left: int, right: int, l: int, addr: nat)

  predicate Within(stabs: seq<Stab>, lo: int, hi: int, q: Bounds) {
    0 <= lo <= hi < |stabs| && lo <= q.l <= q.right + 1 && q.right <= hi && q.left >= lo && q.addr < WORD
  }

  // The entry that the next round compares, if it is at least q.l.
  function Found(stabs: seq<Stab>, lo: int, hi: int, ntype: int, q: Bounds): (m: int)
    requires Within(stabs, lo, hi, q) && q.l <= q.right
    ensures m <= Middle(q.l, q.right)
  {
    Probe(stabs, q.l, Middle(q.l, q.right), ntype)
  }

  // One round of the search.
  function Round(stabs: seq<Stab>, lo: int, hi: int, ntype: int, q: Bounds): Bounds
    requires Within(stabs, lo, hi, q) && q.l <= q.right
  {
    var middle, m := Middle(q.l, q.right), Found(stabs, lo, hi, ntype, q);
    if m < q.l then q.(l := middle + 1)
    else if stabs[m].value < q.addr then q.(left := m, l := middle + 1)
    else if stabs[m].value > q.addr then q.(right := m - 1)
    else q.(left := m, l := m, addr := Next(q.addr))
  }

  // 1 when the next round finds the address itself.
  function Hit(stabs: seq<Stab>, lo: int, hi: int, ntype: int, q: Bounds): nat {
    if Within(stabs, lo, hi, q) && q.l <= q.right && Found(stabs, lo, hi, ntype, q) >= q.l
       && stabs[Found(stabs, lo, hi, ntype, q)].value == q.addr then 1 else 0
  }

  /** Every round makes progress: the range shrinks, or an exact match at its left end makes the
      address move on, and then the next round does not match. */
  lemma Progress(stabs: seq<Stab>, lo: int, hi: int, ntype: int, q: Bounds)
    requires Within(stabs, lo, hi, q) && q.l <= q.right
    ensures var q' := Round(stabs, lo, hi, ntype, q);
            && Within(stabs, lo, hi, q')
            && (q'.right - q'.l < q.right - q.l
                || (q'.right == q.right && q'.l == q.l && Hit(stabs, lo, hi, ntype, q') < Hit(stabs, lo, hi, ntype, q)))
  {}

  // All rounds: the bounds that the loop ends with.
  function Rounds(stabs: seq<Stab>, lo: int, hi: int, ntype: int, q: Bounds): (q': Bounds)
    requires Within(stabs, lo, hi, q)
    ensures Within(stabs, lo, hi, q') && q'.l == q'.right + 1
    decreases q.right - q.l + 1, Hit(stabs, lo, hi, ntype, q)
  {
    if q.l > q.right then q
    else
      Progress(stabs, lo, hi, ntype, q);
      Rounds(stabs, lo, hi, ntype, Round(stabs, lo, hi, ntype, q))
  }

  // The last loop: the rightmost entry of the type down from `l`, or `left`.
  function Rightmost(stabs: seq<Stab>, left: int, l: int, ntype: int): (i: int)
    requires 0 <= left && l < |stabs|
    ensures i <= l && (if l < left then i == l else i >= left && (i == left || stabs[i].ntype == ntype))
    ensures forall k :: i < k <= l ==> stabs[k].ntype != ntype
    decreases l - left
  {
    if l > left && stabs[l].ntype != ntype then Rightmost(stabs, left, l - 1, ntype) else l
  }

  // The whole search as a function.
  function Answer(stabs: seq<Stab>, lo: int, hi: int, ntype: int, address: nat): (int, int)
    requires 0 <= lo && hi < |stabs| && address < WORD
  {
    if lo > hi then (lo, lo - 1)
    else
      var q := Rounds(stabs, lo, hi, ntype, Bounds(lo, hi, lo, address));
      if Probes(stabs, lo, hi, ntype, Bounds(lo, hi, lo, address))
      then (Rightmost(stabs, q.left, q.right, ntype), q.right)
      else (q.left, q.left - 1)
  }

  // any_matches: some round found an entry of the type.
  predicate Probes(stabs: seq<Stab>, lo: int, hi: int, ntype: int, q: Bounds)
    requires Within(stabs, lo, hi, q)
    decreases q.right - q.l + 1, Hit(stabs, lo, hi, ntype, q)
  {
    q.l <= q.right &&
    (Found(stabs, lo, hi, ntype, q) >= q.l ||
     (Progress(stabs, lo, hi, ntype, q); Probes(stabs, lo, hi, ntype, Round(stabs, lo, hi, ntype, q))))
  }

  // ---------- what the rounds keep

  /** `goal` is the address whose bracket is being narrowed: the one asked for, until an exact
      match makes the code look for its successor and finds that too. */
  ghost predicate Narrowed(stabs: seq<Stab>, lo: int, hi: int, ntype: int, address: nat, goal: nat, q: Bounds) {
    && Unbroken(stabs, lo, hi, ntype, address, goal)
    && (q.right == hi || Match(stabs, lo, hi, ntype, q.right + 1))
    && (forall i :: Match(stabs, lo, hi, ntype, i) && i > q.right ==> stabs[i].value > goal)
    && ((q.left == lo && q.addr == goal && NoneBefore(stabs, lo, hi, ntype, q.l))
        || (Match(stabs, lo, hi, ntype, q.left) && q.left <= q.right && q.left <= q.l && stabs[q.left].value <= goal
            && (forall i :: Match(stabs, lo, hi, ntype, i) && i > q.left ==> i >= q.l)
            && (q.addr == goal || (q.addr == goal + 1 && stabs[q.left].value == goal))
            && (q.left == q.l ==> q.addr == goal + 1)))
  }

  // After a round the goal is the same, or the value just matched.
  function GoalAfter(stabs: seq<Stab>, lo: int, hi: int, ntype: int, q: Bounds, goal: nat): nat
    requires Within(stabs, lo, hi, q) && q.l <= q.right
  {
    if Hit(stabs, lo, hi, ntype, q) == 1 then q.addr else goal
  }

  lemma RoundNarrows(stabs: seq<Stab>, lo: int, hi: int, ntype: int, address: nat, goal: nat, q: Bounds)
    requires Ordered(stabs, lo, hi, ntype) && Within(stabs, lo, hi, q) && q.l <= q.right
    requires Narrowed(stabs, lo, hi, ntype, address, goal, q)
    ensures Narrowed(stabs, lo, hi, ntype, address, GoalAfter(stabs, lo, hi, ntype, q, goal),
              Round(stabs, lo, hi, ntype, q))
  {
    var m := Found(stabs, lo, hi, ntype, q);
    hide Unbroken;
    if m >= q.l {
      assert Match(stabs, lo, hi, ntype, m);
      if q.addr == stabs[m].value == goal + 1 { OneFurther(stabs, lo, hi, ntype, address, goal, q.left, m); }
    }
  }

  lemma OneFurther(stabs: seq<Stab>, lo: int, hi: int, ntype: int, address: nat, goal: nat, i: int, m: int)
    requires Unbroken(stabs, lo, hi, ntype, address, goal) && Match(stabs, lo, hi, ntype, i) && stabs[i].value == goal
    requires Match(stabs, lo, hi, ntype, m) && stabs[m].value == goal + 1
    ensures Unbroken(stabs, lo, hi, ntype, address, goal + 1)
  {
    assert Has(stabs, lo, hi, ntype, goal + 1) && Has(stabs, lo, hi, ntype, goal);
    forall w: nat | address <= w <= goal + 1
      ensures Has(stabs, lo, hi, ntype, w)
    {
      assert w <= goal || w == goal + 1;
    }
  }

  lemma {:induction false} RoundsNarrow(stabs: seq<Stab>, lo: int, hi: int, ntype: int, address: nat, goal: nat,
                                        q: Bounds) returns (a: nat)
    requires Ordered(stabs, lo, hi, ntype) && Within(stabs, lo, hi, q)
             && Narrowed(stabs, lo, hi, ntype, address, goal, q)
    ensures Narrowed(stabs, lo, hi, ntype, address, a, Rounds(stabs, lo, hi, ntype, q))
    decreases q.right - q.l + 1, Hit(stabs, lo, hi, ntype, q)
  {
    a := goal;
    hide Ordered, Narrowed, Found, Hit, GoalAfter, Round;
    if q.l <= q.right {
      Progress(stabs, lo, hi, ntype, q);
      RoundNarrows(stabs, lo, hi, ntype, address, goal, q);
      a := RoundsNarrow(stabs, lo, hi, ntype, address, GoalAfter(stabs, lo, hi, ntype, q, goal),
        Round(stabs, lo, hi, ntype, q));
    }
  }

  // any_matches tells whether there is an entry of the type in the range searched.
  lemma {:induction false} ProbesAreMatches(stabs: seq<Stab>, lo: int, hi: int, ntype: int, q: Bounds)
    requires Within(stabs, lo, hi, q)
    ensures Probes(stabs, lo, hi, ntype, q) ==> SomeMatch(stabs, lo, hi, ntype)
    ensures !Probes(stabs, lo, hi, ntype, q) ==>
              && Rounds(stabs, lo, hi, ntype, q) == q.(l := q.right + 1)
              && (NoneBefore(stabs, lo, hi, ntype, q.l) ==> NoneBefore(stabs, lo, hi, ntype, q.right + 1))
    decreases q.right - q.l + 1, Hit(stabs, lo, hi, ntype, q)
  {
    if q.l <= q.right {
      var m := Found(stabs, lo, hi, ntype, q);
      if m >= q.l {
        assert Match(stabs, lo, hi, ntype, m);
      } else {
        Progress(stabs, lo, hi, ntype, q);
        ProbesAreMatches(stabs, lo, hi, ntype, Round(stabs, lo, hi, ntype, q));
      }
    }
  }

  // What the loop has narrowed down is the bracket.
  lemma Bracketed(stabs: seq<Stab>, lo: int, hi: int, ntype: int, address: nat, goal: nat, q: Bounds)
    requires Ordered(stabs, lo, hi, ntype) && Within(stabs, lo, hi, q) && q.l == q.right + 1
    requires Narrowed(stabs, lo, hi, ntype, address, goal, q) && SomeMatch(stabs, lo, hi, ntype)
    ensures Brackets(stabs, lo, hi, ntype, goal, Rightmost(stabs, q.left, q.right, ntype), q.right)
  {
    var left := Rightmost(stabs, q.left, q.right, ntype);
    var i :| Match(stabs, lo, hi, ntype, i);
    if q.left <= q.right && left > q.left { assert Match(stabs, lo, hi, ntype, left); }
  }

  /** stab_binsearch, for any table and range: on an ordered table it brackets the address asked
      for, or, when the entries go on address by address from there, one of the addresses they
      go on to. */
  lemma AnswerBrackets(stabs: seq<Stab>, lo: int, hi: int, ntype: int, address: nat) returns (a: nat)
    requires 0 <= lo && hi < |stabs| && address < WORD && Ordered(stabs, lo, hi, ntype)
    ensures Unbroken(stabs, lo, hi, ntype, address, a)
    ensures Brackets(stabs, lo, hi, ntype, a, Answer(stabs, lo, hi, ntype, address).0,
              Answer(stabs, lo, hi, ntype, address).1)
  {
    a := address;
    if lo <= hi {
      var q := Bounds(lo, hi, lo, address);
      assert NoneBefore(stabs, lo, hi, ntype, lo) && Narrowed(stabs, lo, hi, ntype, address, address, q);
      ProbesAreMatches(stabs, lo, hi, ntype, q);
      if Probes(stabs, lo, hi, ntype, q) {
        a := RoundsNarrow(stabs, lo, hi, ntype, address, address, q);
        Bracketed(stabs, lo, hi, ntype, address, a, Rounds(stabs, lo, hi, ntype, q));
      }
    }
  }

  // ---------- the code

  // the inner loop: back to the last entry of the type
  method FindType(stabs: seq<Stab>, l: int, middle: int, ntype: int) returns (m: int)
    requires 0 <= l <= middle < |stabs|
    ensures m == Probe(stabs, l, middle, ntype)
  {
    m := middle;
    while m >= l && stabs[m].ntype != ntype
      invariant l - 1 <= m <= middle
      invariant Probe(stabs, l, m, ntype) == Probe(stabs, l, middle, ntype)
    {
      m := m - 1;
    }
  }

  // the last loop: the rightmost region that contains the address
  method FindRightmost(stabs: seq<Stab>, left: int, right: int, ntype: int) returns (l: int)
    requires 0 <= left && right < |stabs|
    ensures l == Rightmost(stabs, left, right, ntype)
  {
    l := right;
    while l > left && stabs[l].ntype != ntype
      invariant l <= right && Rightmost(stabs, left, l, ntype) == Rightmost(stabs, left, right, ntype)
    {
      l := l - 1;
    }
  }

  lemma OneRound(stabs: seq<Stab>, lo: int, hi: int, ntype: int, q: Bounds)
    requires Within(stabs, lo, hi, q) && q.l <= q.right
    ensures Within(stabs, lo, hi, Round(stabs, lo, hi, ntype, q))
    ensures Rounds(stabs, lo, hi, ntype, q) == Rounds(stabs, lo, hi, ntype, Round(stabs, lo, hi, ntype, q))
    ensures Probes(stabs, lo, hi, ntype, q)
              == (Found(stabs, lo, hi, ntype, q) >= q.l || Probes(stabs, lo, hi, ntype, Round(stabs, lo, hi, ntype, q)))
  {
    Progress(stabs, lo, hi, ntype, q);
  }

  // the body of the search loop
  method SearchRound(stabs: seq<Stab>, lo: int, hi: int, ntype: int, q: Bounds) returns (q': Bounds, any: bool)
    requires Within(stabs, lo, hi, q) && q.l <= q.right
    ensures q' == Round(stabs, lo, hi, ntype, q) && any == (Found(stabs, lo, hi, ntype, q) >= q.l)
  {
    var true_m := Middle(q.l, q.right);
    var m := FindType(stabs, q.l, true_m, ntype);
    if m < q.l { return q.(l := true_m + 1), false; }
    any := true;
    if stabs[m].value < q.addr {
      q' := q.(left := m, l := true_m + 1);
    } else if stabs[m].value > q.addr {
      q' := q.(right := m - 1);
    } else {
      q' := q.(left := m, l := m, addr := Next(q.addr));
    }
  }

  // the search loop
  method Search(stabs: seq<Stab>, lo: int, hi: int, ntype: int, address: nat) returns (q: Bounds, any: bool)
    requires Within(stabs, lo, hi, Bounds(lo, hi, lo, address))
    ensures q == Rounds(stabs, lo, hi, ntype, Bounds(lo, hi, lo, address))
    ensures any == Probes(stabs, lo, hi, ntype, Bounds(lo, hi, lo, address))
  {
    q, any := Bounds(lo, hi, lo, address), false;
    ghost var end, probes := Rounds(stabs, lo, hi, ntype, q), Probes(stabs, lo, hi, ntype, q);
    while q.l <= q.right
      invariant Within(stabs, lo, hi, q) && Rounds(stabs, lo, hi, ntype, q) == end
      invariant (any || Probes(stabs, lo, hi, ntype, q)) == probes
      decreases q.right - q.l + 1, Hit(stabs, lo, hi, ntype, q)
    {
      hide *;
      OneRound(stabs, lo, hi, ntype, q);
      Progress(stabs, lo, hi, ntype, q);
      var found;
      q, found := SearchRound(stabs, lo, hi, ntype, q);
      any := any || found;
    }
  }

  /** stab_binsearch itself. That it terminates for every input is not plain from the code, since
      an exact match only advances the address: see Progress. */
  method StabBinsearch(stabs: seq<Stab>, lo: int, hi: int, ntype: int, address: nat) returns (left: int, right: int)
    requires 0 <= lo && hi < |stabs| && address < WORD
    ensures (left, right) == Answer(stabs, lo, hi, ntype, address)
    ensures Ordered(stabs, lo, hi, ntype) ==>
              exists a: nat ::
                Unbroken(stabs, lo, hi, ntype, address, a) && Brackets(stabs, lo, hi, ntype, a, left, right)
  {
    if Ordered(stabs, lo, hi, ntype) { var a := AnswerBrackets(stabs, lo, hi, ntype, address); }
    if lo > hi { return lo, lo - 1; }
    hide Ordered, Unbroken, Brackets, Rounds, Probes;
    var q, any := Search(stabs, lo, hi, ntype, address);
    if !any { return q.left, q.left - 1; }
    left := FindRightmost(stabs, q.left, q.right, ntype);
    right := q.right;
  }

  // ---------- what the answers mean

  /** There is only one bracket of an address. */
  lemma OneBracket(stabs: seq<Stab>, lo: int, hi: int, ntype: int, a: nat, left: int, right: int, left': int,
                   right': int)
    requires Brackets(stabs, lo, hi, ntype, a, left, right) && Brackets(stabs, lo, hi, ntype, a, left', right')
    ensures left == left' && right == right'
  {
    assert Match(stabs, lo, hi, ntype, right + 1) ==> !(right' >= right + 1 > left');
    assert Match(stabs, lo, hi, ntype, right' + 1) ==> !(right >= right' + 1 > left);
  }

  /** The answer is that for the address asked for unless the table has entries both for it and
      for its successor. */
  lemma AnswerIsExact(stabs: seq<Stab>, lo: int, hi: int, ntype: int, address: nat)
    requires 0 <= lo && hi < |stabs| && address < WORD && Ordered(stabs, lo, hi, ntype)
    requires !(Has(stabs, lo, hi, ntype, address) && Has(stabs, lo, hi, ntype, address + 1))
    ensures Brackets(stabs, lo, hi, ntype, address, Answer(stabs, lo, hi, ntype, address).0,
              Answer(stabs, lo, hi, ntype, address).1)
  {
    hide Answer;
    var a := AnswerBrackets(stabs, lo, hi, ntype, address);
    UnbrokenStops(stabs, lo, hi, ntype, address, a);
  }

  lemma UnbrokenStops(stabs: seq<Stab>, lo: int, hi: int, ntype: int, address: nat, a: nat)
    requires Unbroken(stabs, lo, hi, ntype, address, a)
    ensures a == address || (Has(stabs, lo, hi, ntype, address) && Has(stabs, lo, hi, ntype, address + 1))
  {}

  // Entries i and j of the type, with none of it in between, for consecutive addresses.
  ghost predicate Consecutive(stabs: seq<Stab>, i: int, j: int, ntype: int, address: nat) {
    && 0 <= i < j < |stabs| && stabs[i] == Stab(ntype, address) && stabs[j] == Stab(ntype, address + 1)
    && address + 2 < WORD
    && forall k :: i < k < j ==> stabs[k].ntype != ntype
  }

  // From the entry for the address on, the search closes in on the one for its successor.
  lemma {:induction false} ClosesIn(stabs: seq<Stab>, i: int, j: int, ntype: int, address: nat, l: int)
    requires Consecutive(stabs, i, j, ntype, address) && i < l <= j
    ensures Rounds(stabs, i, j, ntype, Bounds(i, j, l, address + 1)) == Bounds(j, j, j + 1, address + 2)
    decreases j - l
  {
    var q, middle := Bounds(i, j, l, address + 1), Middle(l, j);
    if l < j {
      assert Round(stabs, i, j, ntype, q) == Bounds(i, j, middle + 1, address + 1);
      ClosesIn(stabs, i, j, ntype, address, middle + 1);
    } else {
      var q1, q2 := Bounds(j, j, j, address + 2), Bounds(j, j, j + 1, address + 2);
      assert Round(stabs, i, j, ntype, q) == q1 && Round(stabs, i, j, ntype, q1) == q2;
      hide Round, Found, Consecutive, Rounds;
      OneRound(stabs, i, j, ntype, q);
      OneRound(stabs, i, j, ntype, q1);
      AtEnd(stabs, i, j, ntype, q2);
    }
  }

  lemma AtEnd(stabs: seq<Stab>, lo: int, hi: int, ntype: int, q: Bounds)
    requires Within(stabs, lo, hi, q) && q.l > q.right
    ensures Rounds(stabs, lo, hi, ntype, q) == q
  {}

  lemma SuccessorFound(stabs: seq<Stab>, i: int, j: int, ntype: int, address: nat)
    requires Consecutive(stabs, i, j, ntype, address)
    ensures Answer(stabs, i, j, ntype, address) == (j, j)
  {
    hide Round, Found, Consecutive, Rounds, Probes;
    var q0, q1 := Bounds(i, j, i, address), Bounds(i, j, i, address + 1);
    FirstRounds(stabs, i, j, ntype, address);
    ClosesIn(stabs, i, j, ntype, address, Middle(i, j) + 1);
    OneRound(stabs, i, j, ntype, q0);
    OneRound(stabs, i, j, ntype, q1);
  }

  lemma FirstRounds(stabs: seq<Stab>, i: int, j: int, ntype: int, address: nat)
    requires Consecutive(stabs, i, j, ntype, address)
    ensures 0 <= i <= Middle(i, j) < j < |stabs|
    ensures Found(stabs, i, j, ntype, Bounds(i, j, i, address)) == i
    ensures Round(stabs, i, j, ntype, Bounds(i, j, i, address)) == Bounds(i, j, i, address + 1)
    ensures Round(stabs, i, j, ntype, Bounds(i, j, i, address + 1)) == Bounds(i, j, Middle(i, j) + 1, address + 1)
  {}

  /** A table answers right for an address on all of its ranges exactly if it does not have
      entries both for the address and for its successor. */
  lemma ExactOnEveryRange(stabs: seq<Stab>, ntype: int, address: nat)
    requires address < WORD && Ordered(stabs, 0, |stabs| - 1, ntype)
    ensures (forall lo, hi :: 0 <= lo <= hi < |stabs| ==>
               Brackets(stabs, lo, hi, ntype, address, Answer(stabs, lo, hi, ntype, address).0,
                 Answer(stabs, lo, hi, ntype, address).1))
            <==> !(Has(stabs, 0, |stabs| - 1, ntype, address) && Has(stabs, 0, |stabs| - 1, ntype, address + 1))
  {
    hide Answer, Brackets;
    var n := |stabs| - 1;
    if Has(stabs, 0, n, ntype, address) && Has(stabs, 0, n, ntype, address + 1) {
      var i :| Match(stabs, 0, n, ntype, i) && stabs[i].value == address;
      var j :| Match(stabs, 0, n, ntype, j) && stabs[j].value == address + 1;
      NoneBetween(stabs, ntype, i, j);
      SuccessorFound(stabs, i, j, ntype, address);
      NotTheBracket(stabs, i, j, ntype, address);
    } else {
      forall lo, hi | 0 <= lo <= hi < |stabs|
        ensures Brackets(stabs, lo, hi, ntype, address, Answer(stabs, lo, hi, ntype, address).0,
                  Answer(stabs, lo, hi, ntype, address).1)
      {
        Narrower(stabs, lo, hi, ntype, address);
        AnswerIsExact(stabs, lo, hi, ntype, address);
      }
    }
  }

  lemma NoneBetween(stabs: seq<Stab>, ntype: int, i: int, j: int)
    requires Ordered(stabs, 0, |stabs| - 1, ntype)
    requires Match(stabs, 0, |stabs| - 1, ntype, i) && Match(stabs, 0, |stabs| - 1, ntype, j)
             && stabs[j].value == stabs[i].value + 1
    ensures Consecutive(stabs, i, j, ntype, stabs[i].value)
  {
    forall k | i < k < j ensures stabs[k].ntype != ntype {
      assert Match(stabs, 0, |stabs| - 1, ntype, k) <==> stabs[k].ntype == ntype;
    }
  }

  lemma NotTheBracket(stabs: seq<Stab>, i: int, j: int, ntype: int, address: nat)
    requires Consecutive(stabs, i, j, ntype, address)
    ensures !Brackets(stabs, i, j, ntype, address, j, j)
  {
    assert Match(stabs, i, j, ntype, i) && Match(stabs, i, j, ntype, j);
  }

  lemma Narrower(stabs: seq<Stab>, lo: int, hi: int, ntype: int, address: nat)
    requires Ordered(stabs, 0, |stabs| - 1, ntype) && 0 <= lo <= hi < |stabs|
    ensures Ordered(stabs, lo, hi, ntype)
    ensures Has(stabs, lo, hi, ntype, address) ==> Has(stabs, 0, |stabs| - 1, ntype, address)
    ensures Has(stabs, lo, hi, ntype, address + 1) ==> Has(stabs, 0, |stabs| - 1, ntype, address + 1)
  {
    assert forall i :: Match(stabs, lo, hi, ntype, i) ==> Match(stabs, 0, |stabs| - 1, ntype, i);
  }

  /** The comment on stab_binsearch says that left > right means that no entry contains the
      address. It comes out so exactly when there is no entry of the type at all: an address
      below the first entry gets a range as well, the one before that entry. */
  lemma EmptyRange(stabs: seq<Stab>, lo: int, hi: int, ntype: int, a: nat, left: int, right: int)
    requires Brackets(stabs, lo, hi, ntype, a, left, right)
    ensures left > right <==> !SomeMatch(stabs, lo, hi, ntype)
  {}

  /** With entries for 100 and for 101, asking for 100 answers with the entry for 101. */
  lemma SuccessorTakesOver(stabs: seq<Stab>)
    requires stabs == [Stab(36, 100), Stab(36, 101)]
    ensures Ordered(stabs, 0, 1, 36) && Answer(stabs, 0, 1, 36, 100) == (1, 1) && !Brackets(stabs, 0, 1, 36, 100, 1, 1)
  {
    hide Answer;
    SuccessorFound(stabs, 0, 1, 36, 100);
    NotTheBracket(stabs, 0, 1, 36, 100);
  }
}
