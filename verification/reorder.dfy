/**
  The reorder buffer.  Its history is the map of the first item taken for each sequence
  number; everything else, the head, the window and what was delivered, is a function of
  that map, which is why the order of arrivals does not matter.
 */
module Reorder {
  import opened Wrappers
  import opened Bytes
  import opened Framing

  const MAX: U64Value := TWO_64 - 1

  datatype Accept<T> = Deliver(items: seq<T>) | Duplicate | Buffered | Overflow(item: T)

  /** The first number from `n` on that was not taken; the head saturates at u64::MAX. */
  function Head<T>(taken: map<U64Value, T>, n: U64Value): (h: U64Value)
    ensures n <= h && (h < MAX ==> h !in taken) && forall k: U64Value | n <= k < h :: k in taken
    decreases MAX - n
  {
    if n in taken && n < MAX then Head(taken, n + 1) else n
  }

  lemma {:induction false} HeadIs<T>(taken: map<U64Value, T>, n: U64Value, h: U64Value)
    requires n <= h && (h < MAX ==> h !in taken) && forall k: U64Value | n <= k < h :: k in taken
    ensures Head(taken, n) == h
    decreases h - n
  {
    if n < h {
      HeadIs(taken, n + 1, h);
    }
  }

  /** The items numbered a, a + 1, ... up to but not including b. */
  function Items<T>(taken: map<U64Value, T>, a: U64Value, b: U64Value): seq<T>
    requires a <= b && forall k: U64Value | a <= k < b :: k in taken
  {
    seq(b - a, i requires 0 <= i < b - a => taken[a + i])
  }

  /** Every number from the start to the last one there is has been taken. */
  predicate Full<T>(taken: map<U64Value, T>, start: U64Value) {
    Head(taken, start) in taken
  }

  /** The items up to the head, and the last one there is once the head has reached it. */
  function All<T>(taken: map<U64Value, T>, start: U64Value): seq<T> {
    var h := Head(taken, start);
    Items(taken, start, h) + (if h in taken then [taken[h]] else [])
  }

  /** What one offer does to the history. */
  function Offer<T>(start: U64Value, capacity: nat, taken: map<U64Value, T>, seqno: U64Value, item: T)
    : map<U64Value, T>
  {
    if Known(start, taken, seqno) || Ahead(start, capacity, taken, seqno) then taken else taken[seqno := item]
  }

  predicate Known<T>(start: U64Value, taken: map<U64Value, T>, seqno: U64Value) {
    seqno < Head(taken, start) || seqno in taken
  }

  predicate Ahead<T>(start: U64Value, capacity: nat, taken: map<U64Value, T>, seqno: U64Value) {
    seqno - Head(taken, start) > capacity
  }

  lemma {:induction false} WindowSize(keys: set<U64Value>, low: nat, size: nat)
    requires forall k | k in keys :: low < k <= low + size
    ensures |keys| <= size
    decreases size
  {
    if size > 0 {
      var rest := set k | k in keys && k < low + size;
      WindowSize(rest, low, size - 1);
      if low + size < TWO_64 && low + size in keys {
        assert keys == rest + {low + size};
      } else {
        assert keys == rest;
      }
    } else {
      assert forall k | k in keys :: k in {};
      assert keys == {};
    }
  }

  lemma FirstItem<T>(f: map<U64Value, T>, head: U64Value, item: T)
    requires head in f && f[head] == item
    ensures head < MAX ==> Items(f, head, head + 1) == [item]
  {
  }

  /** The part of the history from `n` on. */
  ghost function From<T>(f: map<U64Value, T>, n: U64Value): map<U64Value, T> {
    map k | k in f && k >= n :: f[k]
  }

  /** Remove the contiguous run that starts at `n`; it ends before a gap or with the last number there is. */
  method TakeRun<T>(pending: map<U64Value, T>, n: U64Value, ghost f: map<U64Value, T>)
    returns (out: seq<T>, next: U64Value, left: map<U64Value, T>)
    requires pending == From(f, n)
    ensures n <= next && Contiguous(f, n, next) && (next < MAX ==> next !in f)
    ensures out == Items(f, n, next) + (if next in f then [f[next]] else [])
    ensures left == After(f, next)
  {
    hide Items, From, After;
    out, next, left := [], n, pending;
    ghost var last := false;
    NoItems(f, n);
    while next in left
      invariant n <= next && Contiguous(f, n, next)
      invariant !last ==> out == Items(f, n, next) && left == From(f, next)
      invariant last ==> next == MAX && MAX in f && left == map[] && out == Items(f, n, MAX) + [f[MAX]]
      decreases |left|
    {
      FromNext(f, next);
      NextItem(f, n, next);
      out := out + [left[next]];
      left := left - {next};
      last := next == MAX;
      next := SaturatingInc(next);
    }
    FromMissing(f, next);
    AfterHead(f, next);
  }

  lemma FromNext<T>(f: map<U64Value, T>, n: U64Value)
    requires n in From(f, n)
    ensures n in f && From(f, n)[n] == f[n] && |From(f, n) - {n}| < |From(f, n)|
    ensures From(f, n) - {n} == if n == MAX then map[] else From(f, n + 1)
  {
    var was, left := From(f, n), From(f, n) - {n};
    assert was.Keys == left.Keys + {n};
    assert |left.Keys| == |left| && |was.Keys| == |was|;
    if n == MAX {
      assert left.Keys == {};
    } else {
      assert left.Keys == From(f, n + 1).Keys;
    }
  }

  lemma FromMissing<T>(f: map<U64Value, T>, n: U64Value)
    ensures n in From(f, n) <==> n in f
  {
  }

  lemma BehindHead<T>(taken: map<U64Value, T>, head: U64Value, item: T)
    ensures After(taken, head) == From(if head == MAX then map[] else taken[head := item], SaturatingInc(head))
  {
  }

  /** The part of the history beyond `n`. */
  ghost function After<T>(f: map<U64Value, T>, n: U64Value): map<U64Value, T> {
    map k | k in f && k > n :: f[k]
  }

  lemma AfterHead<T>(f: map<U64Value, T>, next: U64Value)
    ensures next !in f ==> From(f, next) == After(f, next)
    ensures After(f, MAX) == map[]
  {
  }

  lemma NoItems<T>(f: map<U64Value, T>, n: U64Value)
    ensures Items(f, n, n) == []
  {
  }

  lemma ItemsJoin<T>(f: map<U64Value, T>, a: U64Value, b: U64Value, c: U64Value)
    requires a <= b <= c && Contiguous(f, a, c)
    ensures Items(f, a, c) == Items(f, a, b) + Items(f, b, c)
  {
  }

  lemma NextItem<T>(f: map<U64Value, T>, a: U64Value, b: U64Value)
    requires a <= b && Contiguous(f, a, b) && b in f
    ensures b < MAX ==> Items(f, a, b + 1) == Items(f, a, b) + [f[b]]
  {
  }

  /** Taking the item at the head moves the head over the run behind it. */
  lemma HeadMoves<T>(taken: map<U64Value, T>, start: U64Value, head: U64Value, item: T, next: U64Value)
    requires start <= head < next && head == Head(taken, start) && head !in taken
    requires Contiguous(taken[head := item], head, next) && (next < MAX ==> next !in taken)
    ensures var f := taken[head := item];
      && Head(f, start) == next
      && All(f, start) == All(taken, start)
         + ([item] + (Items(f, head + 1, next) + (if next in f then [f[next]] else [])))
  {
    hide Head;
    var f := taken[head := item];
    HeadIs(f, start, next);
    ItemsJoin(f, start, head, next);
    ItemsJoin(f, head, head + 1, next);
    FirstItem(f, head, item);
    assert Contiguous(taken, start, head) by { HeadContiguous(taken, start); }
    assert Items(f, start, head) == Items(taken, start, head);
  }

  lemma HeadContiguous<T>(taken: map<U64Value, T>, start: U64Value)
    ensures Contiguous(taken, start, Head(taken, start))
  {
  }

  /**
    At the last number there is the head stays: the first item completes the history, and later ones
    change nothing.
   */
  lemma HeadStays<T>(taken: map<U64Value, T>, start: U64Value, item: T)
    requires Head(taken, start) == MAX && MAX !in taken
    ensures var f := taken[MAX := item]; Head(f, start) == MAX && All(f, start) == All(taken, start) + [item]
  {
    hide Head;
    var f := taken[MAX := item];
    HeadContiguous(taken, start);
    HeadIs(f, start, MAX);
    assert Items(f, start, MAX) == Items(taken, start, MAX);
  }

  class ReorderBuffer<T> {
    var start: U64Value
    var next: U64Value
    var pending: map<U64Value, T>
    const capacity: nat
    /** The first item taken for each number, and everything delivered, since the last reset. */
    ghost var taken: map<U64Value, T>
    ghost var delivered: seq<T>
    /** What was delivered once more under the number u64::MAX. */
    ghost var again: seq<T>

    ghost predicate Valid()
      reads this
    {
      && start <= next == Head(taken, start) && pending == After(taken, next)
      && delivered == All(taken, start) + again && (!Full(taken, start) ==> again == [])
      && forall k | k in taken :: start <= k <= next + capacity
    }

    constructor (start: U64Value, capacity: nat)
      ensures Valid() && this.start == start && this.capacity == capacity
      ensures taken == map[] && delivered == [] && again == []
    {
      this.start, next, pending, this.capacity := start, start, map[], capacity;
      taken, delivered, again := map[], [], [];
    }

    method Reset(start: U64Value)
      modifies this
      ensures Valid() && this.start == start && taken == map[] && delivered == [] && again == []
    {
      this.start, next, pending := start, start, map[];
      taken, delivered, again := map[], [], [];
    }

    /**
      The number of the last item delivered; but once the item numbered u64::MAX is
      delivered the answer stays one below it, or none if that was the first.
     */
    method Ack() returns (r: Option<U64Value>)
      requires Valid()
      ensures !Full(taken, start) ==> if delivered == [] then r.None? else r == Some(start + |delivered| - 1)
      ensures Full(taken, start) ==> r == if start == MAX then None else Some(MAX - 1)
    {
      r := if next > start then Some(next - 1) else None;
    }

    /** At most `capacity` items are held, all of them within the window. */
    lemma WindowBound()
      requires Valid()
      ensures |pending| <= capacity
      ensures forall k | k in pending :: next < k <= next + capacity
    {
      WindowSize(pending.Keys, next, capacity);
    }

    /** Deliver the item at the head, then drain the run behind it. */
    method Drain(item: T) returns (out: seq<T>)
      requires Valid()
      modifies this`next, this`pending, this`taken, this`delivered, this`again
      ensures Valid()
      ensures taken == if Full(old(taken), start) then old(taken) else old(taken)[old(next) := item]
      ensures again == if Full(old(taken), start) then old(again) + [item] else old(again)
      ensures delivered == old(delivered) + out
    {
      hide Head, Items, From, After, All;
      ghost var f, head := taken[next := item], next;
      BehindHead(taken, head, item);
      AfterHead(f, MAX);
      AfterHead(taken, MAX);
      ghost var behind := if head == MAX then map[] else f;
      var rest;
      rest, next, pending := TakeRun(pending, SaturatingInc(next), behind);
      out := [item] + rest;
      if head == MAX {
        NoItems(behind, MAX);
        AfterHead(behind, MAX);
        assert out == [item];
        if MAX !in taken {
          HeadStays(taken, start, item);
          taken := f;
        } else {
          again := again + [item];
        }
      } else {
        HeadIsGap(taken, start);
        HeadMoves(taken, start, head, item, next);
        taken := f;
      }
      delivered := delivered + out;
    }

    /**
      Offer one item.  The answer says exactly what happened to the history, and what is
      delivered is exactly what the history gained, in order.  An item offered under
      u64::MAX once that number was delivered is delivered again.
     */
    method Accept(seqno: U64Value, item: T) returns (r: Accept<T>)
      requires Valid()
      modifies this`next, this`pending, this`taken, this`delivered, this`again
      ensures Valid()
      ensures taken == Offer(start, capacity, old(taken), seqno, item)
      ensures again == if Repeats(start, old(taken), seqno) then old(again) + [item] else old(again)
      ensures delivered == old(delivered) + (if r.Deliver? then r.items else [])
      ensures r == Duplicate <==> Known(start, old(taken), seqno) && !Repeats(start, old(taken), seqno)
      ensures r.Overflow? <==> !Known(start, old(taken), seqno) && Ahead(start, capacity, old(taken), seqno)
      ensures r.Overflow? ==> r.item == item
      ensures r.Deliver? <==> seqno == old(next)
      ensures r == Duplicate <==> seqno < old(next) || (seqno in old(pending) && seqno != old(next))
      ensures r.Overflow? <==> old(next) + capacity < seqno && seqno !in old(pending)
      ensures r == Buffered <==> old(next) < seqno <= old(next) + capacity && seqno !in old(pending)
      ensures r == Buffered ==> pending == old(pending)[seqno := item] && next == old(next)
    {
      hide Head, Items, All;
      HeadIsGap(taken, start);
      if seqno < next || seqno in pending {
        return Duplicate;
      }
      if seqno == next {
        var out := Drain(item);
        return Deliver(out);
      }
      if seqno - next > capacity {
        return Overflow(item);
      }
      BeyondHead(taken, start, seqno, item);
      pending := pending[seqno := item];
      taken := taken[seqno := item];
      r := Buffered;
    }
  }

  /** An offer of the last number there is, after that number was delivered. */
  predicate Repeats<T>(start: U64Value, taken: map<U64Value, T>, seqno: U64Value) {
    seqno == MAX && Full(taken, start)
  }

  lemma HeadIsGap<T>(taken: map<U64Value, T>, start: U64Value)
    ensures Head(taken, start) < MAX ==> Head(taken, start) !in taken
    ensures start <= Head(taken, start)
  {
  }

  lemma BeyondHead<T>(taken: map<U64Value, T>, start: U64Value, seqno: U64Value, item: T)
    requires seqno > Head(taken, start)
    ensures Head(taken[seqno := item], start) == Head(taken, start)
            && All(taken[seqno := item], start) == All(taken, start)
    ensures After(taken[seqno := item], Head(taken, start)) == After(taken, Head(taken, start))[seqno := item]
  {
    HeadIs(taken[seqno := item], start, Head(taken, start));
    assert Items(taken[seqno := item], start, Head(taken, start)) == Items(taken, start, Head(taken, start));
  }

  function SaturatingInc(n: U64Value): U64Value {
    if n == MAX then MAX else n + 1
  }

  ghost predicate Contiguous<T>(taken: map<U64Value, T>, a: U64Value, b: U64Value) {
    forall k: U64Value | a <= k < b :: k in taken
  }

  // --- Whole runs ---

  datatype Arrival<T> = Arrival(seqno: U64Value, item: T)

  /** The history after a run of offers. */
  function Taken<T>(start: U64Value, capacity: nat, arrivals: seq<Arrival<T>>): map<U64Value, T> {
    if arrivals == [] then map[]
    else
      var last := arrivals[|arrivals| - 1];
      Offer(start, capacity, Taken(start, capacity, arrivals[..|arrivals| - 1]), last.seqno, last.item)
  }

  /** What a run delivers again: the items offered under u64::MAX once that number was delivered. */
  function Again<T>(start: U64Value, capacity: nat, arrivals: seq<Arrival<T>>): seq<T> {
    if arrivals == [] then []
    else
      var before, last := arrivals[..|arrivals| - 1], arrivals[|arrivals| - 1];
      Again(start, capacity, before)
      + (if Repeats(start, Taken(start, capacity, before), last.seqno) then [last.item] else [])
  }

  lemma NothingTaken<T>(start: U64Value, capacity: nat)
    ensures Taken<T>(start, capacity, []) == map[] && Again<T>(start, capacity, []) == []
  {
  }

  lemma TakenNext<T>(start: U64Value, capacity: nat, before: seq<Arrival<T>>, a: Arrival<T>)
    ensures Taken(start, capacity, before + [a])
            == Offer(start, capacity, Taken(start, capacity, before), a.seqno, a.item)
    ensures Again(start, capacity, before + [a])
            == Again(start, capacity, before)
               + (if Repeats(start, Taken(start, capacity, before), a.seqno) then [a.item] else [])
  {
    hide Offer, Repeats;
    assert (before + [a])[..|before|] == before;
  }

  /** A whole run of a new buffer: the concatenated deliveries are the history's items in order, then the repeats. */
  method AcceptAll<T>(start: U64Value, capacity: nat, arrivals: seq<Arrival<T>>)
    returns (b: ReorderBuffer<T>, out: seq<T>)
    ensures b.Valid() && b.start == start && b.capacity == capacity && b.taken == Taken(start, capacity, arrivals)
    ensures out == b.delivered == All(Taken(start, capacity, arrivals), start) + Again(start, capacity, arrivals)
  {
    hide All, Offer, Repeats, Taken, Again, Known, Ahead, Head;
    b := new ReorderBuffer(start, capacity);
    NothingTaken<T>(start, capacity);
    assert arrivals[..0] == [];
    out := [];
    for n := 0 to |arrivals|
      invariant fresh(b) && b.Valid() && b.start == start && b.capacity == capacity && out == b.delivered
      invariant b.taken == Taken(start, capacity, arrivals[..n]) && b.again == Again(start, capacity, arrivals[..n])
    {
      TakenNext(start, capacity, arrivals[..n], arrivals[n]);
      assert arrivals[..n + 1] == arrivals[..n] + [arrivals[n]];
      var r := b.Accept(arrivals[n].seqno, arrivals[n].item);
      if r.Deliver? {
        out := out + r.items;
      }
    }
    assert arrivals[..|arrivals|] == arrivals;
  }

  ghost predicate OverflowedAt<T>(start: U64Value, capacity: nat, arrivals: seq<Arrival<T>>, i: nat)
    requires i < |arrivals|
  {
    var before := Taken(start, capacity, arrivals[..i]);
    !Known(start, before, arrivals[i].seqno) && Ahead(start, capacity, before, arrivals[i].seqno)
  }

  ghost predicate OverflowFree<T>(start: U64Value, capacity: nat, arrivals: seq<Arrival<T>>) {
    forall i | 0 <= i < |arrivals| :: !OverflowedAt(start, capacity, arrivals, i)
  }

  /** The i-th arrival is the first with its number that did not overflow. */
  ghost predicate FirstKept<T>(start: U64Value, capacity: nat, arrivals: seq<Arrival<T>>, i: nat)
    requires i < |arrivals|
  {
    && start <= arrivals[i].seqno && !OverflowedAt(start, capacity, arrivals, i)
    && forall j | 0 <= j < i && arrivals[j].seqno == arrivals[i].seqno :: OverflowedAt(start, capacity, arrivals, j)
  }

  lemma PrefixOverflow<T>(start: U64Value, capacity: nat, arrivals: seq<Arrival<T>>, n: nat, i: nat)
    requires i < n <= |arrivals|
    ensures OverflowedAt(start, capacity, arrivals[..n], i) == OverflowedAt(start, capacity, arrivals, i)
  {
    assert arrivals[..n][..i] == arrivals[..i];
  }

  /** A number that was offered and did not overflow is known from then on. */
  lemma {:induction false} KeptIsTaken<T>(start: U64Value, capacity: nat, arrivals: seq<Arrival<T>>, i: nat)
    requires i < |arrivals| && start <= arrivals[i].seqno && !OverflowedAt(start, capacity, arrivals, i)
    ensures arrivals[i].seqno in Taken(start, capacity, arrivals)
    decreases |arrivals|
  {
    hide Head;
    var n := |arrivals| - 1;
    if i < n {
      PrefixOverflow(start, capacity, arrivals, n, i);
      KeptIsTaken(start, capacity, arrivals[..n], i);
    } else {
      BelowHead(Taken(start, capacity, arrivals[..n]), start, arrivals[i].seqno);
    }
  }

  lemma BelowHead<T>(taken: map<U64Value, T>, start: U64Value, k: U64Value)
    ensures start <= k < Head(taken, start) ==> k in taken
  {
  }

  /** What is held for a number is the item of its first arrival that did not overflow. */
  lemma {:induction false} TakenIsFirst<T>(start: U64Value, capacity: nat, arrivals: seq<Arrival<T>>, k: U64Value)
    requires k in Taken(start, capacity, arrivals)
    ensures exists i | 0 <= i < |arrivals| && arrivals[i] == Arrival(k, Taken(start, capacity, arrivals)[k]) ::
              FirstKept(start, capacity, arrivals, i)
    decreases |arrivals|
  {
    hide Head, OverflowedAt;
    var n := |arrivals| - 1;
    var before := Taken(start, capacity, arrivals[..n]);
    if k in before {
      TakenIsFirst(start, capacity, arrivals[..n], k);
      var i :| 0 <= i < n && arrivals[..n][i] == Arrival(k, before[k]) && FirstKept(start, capacity, arrivals[..n], i);
      forall j | 0 <= j <= i
        ensures OverflowedAt(start, capacity, arrivals[..n], j) == OverflowedAt(start, capacity, arrivals, j)
      {
        PrefixOverflow(start, capacity, arrivals, n, j);
      }
      assert arrivals[i] == Arrival(k, Taken(start, capacity, arrivals)[k]) && FirstKept(start, capacity, arrivals, i);
    } else {
      NewIsFirst(start, capacity, arrivals, k);
    }
  }

  lemma NewIsFirst<T>(start: U64Value, capacity: nat, arrivals: seq<Arrival<T>>, k: U64Value)
    requires arrivals != [] && k in Taken(start, capacity, arrivals)
    requires k !in Taken(start, capacity, arrivals[..|arrivals| - 1])
    ensures arrivals[|arrivals| - 1] == Arrival(k, Taken(start, capacity, arrivals)[k])
    ensures FirstKept(start, capacity, arrivals, |arrivals| - 1)
  {
    hide Head;
    var n := |arrivals| - 1;
    var before := Taken(start, capacity, arrivals[..n]);
    StartsLow(before, start);
    forall j | 0 <= j < n && arrivals[j].seqno == k
      ensures OverflowedAt(start, capacity, arrivals, j)
    {
      if !OverflowedAt(start, capacity, arrivals, j) {
        PrefixOverflow(start, capacity, arrivals, n, j);
        KeptIsTaken(start, capacity, arrivals[..n], j);
      }
    }
  }

  lemma StartsLow<T>(taken: map<U64Value, T>, start: U64Value)
    ensures start <= Head(taken, start)
  {
  }

  /**
    What the history holds up to its head is for each number the item of the first arrival
    that did not overflow, in number order.
   */
  lemma DeliveredIsFirst<T>(start: U64Value, capacity: nat, arrivals: seq<Arrival<T>>, n: nat)
    requires n < |All(Taken(start, capacity, arrivals), start)|
    ensures start + n <= MAX
    ensures exists i | 0 <= i < |arrivals| && FirstKept(start, capacity, arrivals, i)
            && arrivals[i].seqno == start + n ::
              arrivals[i].item == All(Taken(start, capacity, arrivals), start)[n]
  {
    hide Taken, FirstKept;
    var taken := Taken(start, capacity, arrivals);
    TakenIsFirst(start, capacity, arrivals, start + n);
    var i :| && 0 <= i < |arrivals| && arrivals[i] == Arrival(start + n, taken[start + n])
             && FirstKept(start, capacity, arrivals, i);
    assert arrivals[i].item == All(taken, start)[n];
  }

  /** The last number there is arrives at most once. */
  ghost predicate LastOnce<T>(arrivals: seq<Arrival<T>>) {
    forall i, j | 0 <= i < j < |arrivals| :: arrivals[i].seqno != MAX || arrivals[j].seqno != MAX
  }

  /** Nothing is delivered again if the number u64::MAX arrives at most once. */
  lemma {:induction false} NoneAgain<T>(start: U64Value, capacity: nat, arrivals: seq<Arrival<T>>)
    requires LastOnce(arrivals)
    ensures Again(start, capacity, arrivals) == []
  {
    hide Head, FirstKept;
    if arrivals != [] {
      var n := |arrivals| - 1;
      NoneAgain(start, capacity, arrivals[..n]);
      var taken := Taken(start, capacity, arrivals[..n]);
      if Repeats(start, taken, arrivals[n].seqno) {
        FullHasLast(taken, start);
        TakenIsFirst(start, capacity, arrivals[..n], MAX);
      }
    }
  }

  lemma FullHasLast<T>(taken: map<U64Value, T>, start: U64Value)
    requires Full(taken, start)
    ensures MAX in taken
  {
  }

  /**
    A run of the buffer in which u64::MAX arrives at most once delivers, for each number
    from the start to the head, exactly the item of its first arrival that did not overflow.
   */
  method RunDeliversFirst<T>(start: U64Value, capacity: nat, arrivals: seq<Arrival<T>>) returns (out: seq<T>)
    requires LastOnce(arrivals)
    ensures start + |out| <= TWO_64
    ensures forall n | 0 <= n < |out| ::
              exists i | 0 <= i < |arrivals| && FirstKept(start, capacity, arrivals, i)
                && arrivals[i].seqno == start + n ::
                arrivals[i].item == out[n]
  {
    hide Taken, FirstKept, All;
    var b;
    b, out := AcceptAll(start, capacity, arrivals);
    NoneAgain(start, capacity, arrivals);
    assert out == All(Taken(start, capacity, arrivals), start);
    forall n | 0 <= n < |out|
      ensures start + n <= MAX
      ensures exists i | 0 <= i < |arrivals| && FirstKept(start, capacity, arrivals, i)
              && arrivals[i].seqno == start + n ::
                arrivals[i].item == out[n]
    {
      DeliveredIsFirst(start, capacity, arrivals, n);
    }
    if |out| > 0 {
      DeliveredIsFirst(start, capacity, arrivals, |out| - 1);
    }
  }

  /**
    The boundary: a buffer that starts at the last number delivers it as often as it is offered, and
    acknowledges nothing.
   */
  method TwiceAtTheEnd<T>(capacity: nat, x: T, y: T)
    returns (first: Accept<T>, second: Accept<T>, ack: Option<U64Value>)
    ensures first == Deliver([x]) && second == Deliver([y]) && ack == None
  {
    var b := new ReorderBuffer(MAX, capacity);
    first := b.Accept(MAX, x);
    assert b.taken == map[MAX := x] && b.delivered == [x];
    second := b.Accept(MAX, y);
    assert b.delivered == [x] + second.items == [x] + [y] && b.delivered[1..] == second.items == [y];
    ack := b.Ack();
  }

  /**
    Two overflow-free runs that offer the same items, in any order and with any
    duplicates, end with the same history, so they deliver the same sequence.
   */
  lemma OrderIndependent<T>(start: U64Value, c1: nat, a: seq<Arrival<T>>, c2: nat, b: seq<Arrival<T>>)
    requires OverflowFree(start, c1, a) && OverflowFree(start, c2, b)
    requires forall x :: x in a <==> x in b
    requires forall x, y | x in a && y in a && x.seqno == y.seqno :: x == y
    ensures Taken(start, c1, a) == Taken(start, c2, b)
  {
    hide Taken, OverflowedAt;
    forall k | k in Taken(start, c1, a)
      ensures k in Taken(start, c2, b) && Taken(start, c2, b)[k] == Taken(start, c1, a)[k]
    {
      SameItem(start, c1, a, c2, b, k);
    }
    forall k | k in Taken(start, c2, b)
      ensures k in Taken(start, c1, a)
    {
      SameItem(start, c2, b, c1, a, k);
    }
  }

  lemma SameItem<T>(start: U64Value, c1: nat, a: seq<Arrival<T>>, c2: nat, b: seq<Arrival<T>>, k: U64Value)
    requires OverflowFree(start, c2, b) && k in Taken(start, c1, a)
    requires forall x :: x in a <==> x in b
    requires forall x, y | x in a && y in a && x.seqno == y.seqno :: x == y
    ensures k in Taken(start, c2, b) && Taken(start, c2, b)[k] == Taken(start, c1, a)[k]
  {
    hide Taken, OverflowedAt;
    TakenIsFirst(start, c1, a, k);
    var i :| 0 <= i < |a| && a[i] == Arrival(k, Taken(start, c1, a)[k]) && FirstKept(start, c1, a, i);
    assert a[i] in b;
    var j :| 0 <= j < |b| && b[j] == a[i];
    KeptIsTaken(start, c2, b, j);
    TakenIsFirst(start, c2, b, k);
    var m :| 0 <= m < |b| && b[m] == Arrival(k, Taken(start, c2, b)[k]);
    assert b[m] in a && a[i] in a;
  }

  /**
    Two runs of the buffer that overflow nowhere and are offered the same items, in any
    order and with any duplicates, deliver the same sequence if and only if they deliver
    u64::MAX again equally often.
   */
  method SameDeliveries<T(==)>(start: U64Value, c1: nat, a: seq<Arrival<T>>, c2: nat, b: seq<Arrival<T>>)
    returns (out1: seq<T>, out2: seq<T>)
    requires OverflowFree(start, c1, a) && OverflowFree(start, c2, b)
    requires forall x :: x in a <==> x in b
    requires forall x, y | x in a && y in a && x.seqno == y.seqno :: x == y
    ensures out1 == out2 <==> |Again(start, c1, a)| == |Again(start, c2, b)|
    ensures LastOnce(a) && LastOnce(b) ==> out1 == out2
  {
    hide Taken, All, Again, OverflowFree;
    var b1, b2;
    b1, out1 := AcceptAll(start, c1, a);
    b2, out2 := AcceptAll(start, c2, b);
    OrderIndependent(start, c1, a, c2, b);
    SameAgain(start, c1, a, c2, b);
    if LastOnce(a) && LastOnce(b) {
      NoneAgain(start, c1, a);
      NoneAgain(start, c2, b);
    }
  }

  /** What is delivered again was offered under u64::MAX. */
  lemma {:induction false} AgainIsLast<T>(start: U64Value, capacity: nat, arrivals: seq<Arrival<T>>, n: nat)
    requires n < |Again(start, capacity, arrivals)|
    ensures Arrival(MAX, Again(start, capacity, arrivals)[n]) in arrivals
  {
    hide Taken;
    var before, last := arrivals[..|arrivals| - 1], arrivals[|arrivals| - 1];
    if n < |Again(start, capacity, before)| {
      AgainIsLast(start, capacity, before, n);
      assert Arrival(MAX, Again(start, capacity, before)[n]) in before;
    } else {
      assert last == Arrival(MAX, last.item);
    }
  }

  lemma SameAgain<T>(start: U64Value, c1: nat, a: seq<Arrival<T>>, c2: nat, b: seq<Arrival<T>>)
    requires forall x :: x in a <==> x in b
    requires forall x, y | x in a && y in a && x.seqno == y.seqno :: x == y
    ensures |Again(start, c1, a)| == |Again(start, c2, b)| ==> Again(start, c1, a) == Again(start, c2, b)
  {
    hide Again;
    if |Again(start, c1, a)| == |Again(start, c2, b)| {
      forall n | 0 <= n < |Again(start, c1, a)|
        ensures Again(start, c1, a)[n] == Again(start, c2, b)[n]
      {
        AgainIsLast(start, c1, a, n);
        AgainIsLast(start, c2, b, n);
        assert Arrival(MAX, Again(start, c2, b)[n]) in a;
      }
    }
  }

  /** Nothing overflows while every number stays within the capacity of the start. */
  lemma InWindow<T>(start: U64Value, capacity: nat, arrivals: seq<Arrival<T>>)
    requires forall i | 0 <= i < |arrivals| :: arrivals[i].seqno <= start + capacity
    ensures OverflowFree(start, capacity, arrivals)
  {
    forall i | 0 <= i < |arrivals|
      ensures !OverflowedAt(start, capacity, arrivals, i)
    {
      StartsLow(Taken(start, capacity, arrivals[..i]), start);
    }
  }

  ghost predicate Offered<T>(arrivals: seq<Arrival<T>>, k: U64Value) {
    exists i :: 0 <= i < |arrivals| && arrivals[i].seqno == k
  }

  /** The item of the first arrival with a number. */
  ghost predicate FirstOffered<T>(arrivals: seq<Arrival<T>>, k: nat, item: T) {
    exists i :: 0 <= i < |arrivals| && arrivals[i].seqno == k && arrivals[i].item == item
                && forall j | 0 <= j < i :: arrivals[j].seqno != k
  }

  /** A history that holds the first `n` numbers from the start delivers at least those. */
  lemma LongEnough<T>(taken: map<U64Value, T>, start: U64Value, n: nat)
    requires start + n <= TWO_64 && forall k: U64Value | start <= k < start + n :: k in taken
    ensures |All(taken, start)| >= n
  {
    var h := Head(taken, start);
    if h < start + n {
      assert h in taken;
    }
  }

  /**
    Nothing is lost: if the first `n` numbers all arrive, in any order and among any
    duplicates, and none of the arrivals is further from the start than the capacity, the
    buffer delivers those numbers first and in order, each as it first arrived.
   */
  method DeliversAll<T>(start: U64Value, capacity: nat, arrivals: seq<Arrival<T>>, n: nat) returns (out: seq<T>)
    requires start + n <= TWO_64 && forall k: U64Value | start <= k < start + n :: Offered(arrivals, k)
    requires forall i | 0 <= i < |arrivals| :: arrivals[i].seqno <= start + capacity
    ensures |out| >= n
    ensures forall k | 0 <= k < n :: FirstOffered(arrivals, start + k, out[k])
  {
    hide Taken, OverflowedAt, All, Again;
    var b;
    b, out := AcceptAll(start, capacity, arrivals);
    InWindow(start, capacity, arrivals);
    ghost var taken := Taken(start, capacity, arrivals);
    forall k: U64Value | start <= k < start + n
      ensures k in taken
    {
      assert Offered(arrivals, k);
      var i :| 0 <= i < |arrivals| && arrivals[i].seqno == k;
      KeptIsTaken(start, capacity, arrivals, i);
    }
    LongEnough(taken, start, n);
    forall k | 0 <= k < n
      ensures FirstOffered(arrivals, start + k, out[k])
    {
      DeliveredIsFirst(start, capacity, arrivals, k);
    }
  }
}
