/** The priority heap of common/heap.c: sift operations on sequences, and the heap object that does them in place. */
module Heap {
  // ----- orders

  /** `less` is a strict weak order: asymmetric, and its negation is transitive. */
  ghost predicate StrictWeak<T(!new)>(less: (T, T) -> bool) {
    && (forall a, b :: less(a, b) ==> !less(b, a))
    && (forall a, b, c :: less(a, c) ==> less(a, b) || less(b, c))
  }

  lemma NotLess<T(!new)>(less: (T, T) -> bool, a: T, b: T, c: T)
    requires StrictWeak(less) && !less(a, b) && !less(b, c)
    ensures !less(a, c)
  {
  }

  // ----- heaps as sequences; position 0 is not used

  /** HEAPCONDITION at `k`. */
  ghost predicate Condition<T>(less: (T, T) -> bool, h: seq<T>, k: nat)
    requires 1 <= k < |h|
  {
    k == 1 || !less(h[k], h[k / 2])
  }

  ghost predicate Ordered<T>(less: (T, T) -> bool, h: seq<T>) {
    forall k :: 1 <= k < |h| ==> Condition(less, h, k)
  }

  /** The condition holds wherever position `i` is not involved, and across `i` from its parent to its children. */
  ghost predicate OrderedBut<T>(less: (T, T) -> bool, h: seq<T>, i: nat)
    requires 1 <= i < |h|
  {
    && (forall k :: 1 <= k < |h| && k != i && k / 2 != i ==> Condition(less, h, k))
    && (i > 1 ==> forall k :: 1 <= k < |h| && k / 2 == i ==> !less(h[k], h[i / 2]))
  }

  /** `e` may stand above the children of `i`. */
  ghost predicate AboveChildren<T>(less: (T, T) -> bool, h: seq<T>, i: nat, e: T) {
    forall k :: 1 <= k < |h| && k / 2 == i ==> !less(h[k], e)
  }

  /** `e` may stand below the parent of `i`. */
  ghost predicate BelowParent<T>(less: (T, T) -> bool, h: seq<T>, i: nat, e: T)
    requires 1 <= i < |h|
  {
    i == 1 || !less(e, h[i / 2])
  }

  /** float_up: `e` goes up from position `i` for as long as it is less than the parent. */
  function Float<T>(less: (T, T) -> bool, h: seq<T>, i: nat, e: T): (r: seq<T>)
    requires 1 <= i < |h|
    ensures |r| == |h| && r[0] == h[0]
    decreases i
  {
    if i > 1 && less(e, h[i / 2]) then Float(less, h[i := h[i / 2]], i / 2, e) else h[i := e]
  }

  /** The lesser of the children of `i`, the left one if there is only one or they tie. */
  function LesserChild<T>(less: (T, T) -> bool, h: seq<T>, i: nat): (j: nat)
    requires 1 <= i <= (|h| - 1) / 2
    ensures 1 <= j < |h| && j / 2 == i && (j == 2 * i || j == 2 * i + 1)
  {
    if 2 * i + 1 < |h| && less(h[2 * i + 1], h[2 * i]) then 2 * i + 1 else 2 * i
  }

  /** sink_down: `e` goes down from position `i` until it is less than the lesser child. */
  function Sink<T>(less: (T, T) -> bool, h: seq<T>, i: nat, e: T): (r: seq<T>)
    requires 1 <= i < |h|
    ensures |r| == |h| && r[0] == h[0]
    decreases |h| - i
  {
    if i > (|h| - 1) / 2 then h[i := e]
    else
      var j := LesserChild(less, h, i);
      if less(e, h[j]) then h[i := e] else Sink(less, h[i := h[j]], j, e)
  }

  lemma {:induction false} FloatOrders<T(!new)>(less: (T, T) -> bool, h: seq<T>, i: nat, e: T)
    requires StrictWeak(less) && 1 <= i < |h| && OrderedBut(less, h, i) && AboveChildren(less, h, i, e)
    ensures Ordered(less, Float(less, h, i, e))
    decreases i
  {
    if i > 1 && less(e, h[i / 2]) {
      var p := i / 2;
      var g := h[i := h[p]];
      assert Condition(less, h, p);
      forall k | 1 <= k < |g| && k / 2 == p ensures !less(g[k], e) && (p > 1 ==> !less(g[k], g[p / 2])) {
        if k != i {
          assert Condition(less, h, k);
        }
        assert !less(g[k], h[p]);
      }
      forall k | 1 <= k < |g| && k != p && k / 2 != p ensures Condition(less, g, k) {
        if k / 2 != i { assert Condition(less, h, k); }
      }
      FloatOrders(less, g, p, e);
    } else {
      var g := h[i := e];
      forall k | 1 <= k < |g| ensures Condition(less, g, k) {
        if k != i && k / 2 != i { assert Condition(less, h, k); }
      }
    }
  }

  lemma {:induction false} SinkOrders<T(!new)>(less: (T, T) -> bool, h: seq<T>, i: nat, e: T)
    requires StrictWeak(less) && 1 <= i < |h| && OrderedBut(less, h, i) && BelowParent(less, h, i, e)
    ensures Ordered(less, Sink(less, h, i, e))
    decreases |h| - i
  {
    if i > (|h| - 1) / 2 {
      SettledOrders(less, h, i, e);
    } else {
      var j := LesserChild(less, h, i);
      LesserChildIsLeast(less, h, i);
      if less(e, h[j]) {
        SettledOrders(less, h, i, e);
      } else {
        SinkStep(less, h, i, e);
        SinkOrders(less, h[i := h[j]], j, e);
      }
    }
  }

  lemma LesserChildIsLeast<T(!new)>(less: (T, T) -> bool, h: seq<T>, i: nat)
    requires StrictWeak(less) && 1 <= i <= (|h| - 1) / 2
    ensures forall k :: 1 <= k < |h| && k / 2 == i ==> !less(h[k], h[LesserChild(less, h, i)])
  {
  }

  /** Putting `e` where neither the parent nor a child objects gives a heap. */
  lemma SettledOrders<T(!new)>(less: (T, T) -> bool, h: seq<T>, i: nat, e: T)
    requires StrictWeak(less) && 1 <= i < |h| && OrderedBut(less, h, i) && BelowParent(less, h, i, e)
    requires i <= (|h| - 1) / 2 ==> less(e, h[LesserChild(less, h, i)])
    ensures Ordered(less, h[i := e])
  {
    var g := h[i := e];
    if i <= (|h| - 1) / 2 { LesserChildIsLeast(less, h, i); }
    forall k | 1 <= k < |g| ensures Condition(less, g, k) {
      if k != i && k / 2 != i {
        assert Condition(less, h, k);
      } else if k != i {
        NotLess(less, h[k], h[LesserChild(less, h, i)], e);
      }
    }
  }

  lemma SinkStep<T(!new)>(less: (T, T) -> bool, h: seq<T>, i: nat, e: T)
    requires StrictWeak(less) && 1 <= i <= (|h| - 1) / 2 && OrderedBut(less, h, i)
    requires !less(e, h[LesserChild(less, h, i)])
    ensures var j := LesserChild(less, h, i);
            OrderedBut(less, h[i := h[j]], j) && BelowParent(less, h[i := h[j]], j, e)
  {
    var j := LesserChild(less, h, i);
    LesserChildIsLeast(less, h, i);
    var g := h[i := h[j]];
    forall k | 1 <= k < |g| && k != j && k / 2 != j ensures Condition(less, g, k) {
      if k != i && k / 2 != i { assert Condition(less, h, k); }
    }
    forall k | 1 <= k < |g| && k / 2 == j ensures !less(g[k], g[j / 2]) {
      assert Condition(less, h, k);
    }
  }

  lemma {:induction false} FloatPermutes<T>(less: (T, T) -> bool, h: seq<T>, i: nat, e: T)
    requires 1 <= i < |h|
    ensures multiset(Float(less, h, i, e)) == multiset(h[i := e])
    decreases i
  {
    if i > 1 && less(e, h[i / 2]) {
      FloatPermutes(less, h[i := h[i / 2]], i / 2, e);
    }
  }

  lemma {:induction false} SinkPermutes<T>(less: (T, T) -> bool, h: seq<T>, i: nat, e: T)
    requires 1 <= i < |h|
    ensures multiset(Sink(less, h, i, e)) == multiset(h[i := e])
    decreases |h| - i
  {
    if i <= (|h| - 1) / 2 {
      var j := LesserChild(less, h, i);
      if !less(e, h[j]) { SinkPermutes(less, h[i := h[j]], j, e); }
    }
  }

  /** The element at position 1 has no other before it. */
  lemma {:induction false} FirstIsLeast<T(!new)>(less: (T, T) -> bool, h: seq<T>, k: nat)
    requires StrictWeak(less) && Ordered(less, h) && 1 <= k < |h|
    ensures !less(h[k], h[1])
  {
    if k > 1 {
      FirstIsLeast(less, h, k / 2);
      assert Condition(less, h, k);
      NotLess(less, h[k], h[k / 2], h[1]);
    }
  }

  // ----- what is stored

  /** The elements of a heap, without what is in position 0. */
  ghost function Inside<T>(h: seq<T>): multiset<T> {
    if h == [] then multiset{} else multiset(h[1..])
  }

  lemma InsideOnly<T>(g: seq<T>, h: seq<T>)
    requires g != [] && h != [] && g[0] == h[0] && multiset(g) == multiset(h)
    ensures Inside(g) == Inside(h)
  {
    assert g == [g[0]] + g[1..] && h == [h[0]] + h[1..];
    assert multiset(g[1..]) == multiset(g) - multiset{g[0]};
    assert multiset(h[1..]) == multiset(h) - multiset{h[0]};
  }

  /** `g` is `h` with one more position, whatever is in it. */
  ghost predicate Grown<T>(h: seq<T>, g: seq<T>) {
    if h == [] then |g| == 2 else |g| == |h| + 1 && g[..|h|] == h
  }

  lemma GrowOpens<T(!new)>(less: (T, T) -> bool, h: seq<T>, g: seq<T>, index: map<T, nat>, e: T)
    requires Ordered(less, h) && Grown(h, g)
    ensures var n := |g| - 1; OrderedBut(less, g, n) && AboveChildren(less, g, n, e)
    ensures var n := |g| - 1; Indexed(h, index) && e !in Inside(h) ==> IndexedBut(g, index, n) && NotElsewhere(g, n, e)
  {
    var n := |g| - 1;
    forall k | 1 <= k < n ensures k < |h| && g[k] == h[k] && h[k] in Inside(h) && Condition(less, g, k) {
      assert g[..|h|][k] == h[k];
      assert h[1..][k - 1] == h[k];
      assert Condition(less, h, k);
      assert g[..|h|][k / 2] == h[k / 2];
    }
  }

  lemma GrowAdds<T>(h: seq<T>, g: seq<T>, n: nat, e: T)
    requires Grown(h, g) && n == |g| - 1
    ensures Inside(g[n := e]) == Inside(h) + multiset{e}
  {
    assert g[n := e][1..] == (if h == [] then [] else h[1..]) + [e];
  }

  lemma FloatReplaces<T>(less: (T, T) -> bool, h: seq<T>, i: nat, e: T)
    requires 1 <= i < |h|
    ensures Inside(Float(less, h, i, e)) == Inside(h[i := e])
  {
    FloatPermutes(less, h, i, e);
    InsideOnly(Float(less, h, i, e), h[i := e]);
  }

  lemma SinkReplaces<T>(less: (T, T) -> bool, h: seq<T>, i: nat, e: T)
    requires 1 <= i < |h|
    ensures Inside(Sink(less, h, i, e)) == Inside(h[i := e])
  {
    SinkPermutes(less, h, i, e);
    InsideOnly(Sink(less, h, i, e), h[i := e]);
  }

  lemma CutRemoves<T>(h: seq<T>, n: nat)
    requires n == |h| - 1 >= 1
    ensures Inside(h[..n]) == Inside(h) - multiset{h[n]}
  {
    assert h[1..] == h[1..n] + [h[n]];
    assert h[..n][1..] == h[1..n];
  }

  /** Moving the last element to position `i` and cutting it off takes away the element at `i`. */
  lemma MoveLastRemoves<T>(h: seq<T>, n: nat, i: nat)
    requires 1 <= i < n == |h| - 1
    ensures Inside(h[..n][i := h[n]]) == Inside(h) - multiset{h[i]}
  {
    assert h[1..] == h[1..n] + [h[n]];
    assert h[..n][i := h[n]][1..] == h[1..n][i - 1 := h[n]];
    assert h[1..n][i - 1] == h[i];
  }

  /** Cutting off the last position keeps the order and the indices. */
  lemma Shrinks<T>(less: (T, T) -> bool, h: seq<T>, index: map<T, nat>)
    requires |h| >= 2 && Ordered(less, h)
    ensures var g := h[..|h| - 1];
            && Ordered(less, g)
            && (Indexed(h, index) ==> Indexed(g, index) && NotElsewhere(g, 0, h[|h| - 1]))
  {
    var g := h[..|h| - 1];
    forall k | 1 <= k < |g| ensures Condition(less, g, k) { assert Condition(less, h, k); }
  }

  // ----- the element that changes its priority

  /** The order changes from `was` to `less` for the element `x` alone, and `x` has moved ahead in it. */
  ghost predicate MovedAhead<T(!new)>(was: (T, T) -> bool, less: (T, T) -> bool, x: T) {
    && (forall a, b :: a != x && b != x ==> less(a, b) == was(a, b))
    && (forall a :: (was(x, a) ==> less(x, a)) && (less(a, x) ==> was(a, x)))
  }

  ghost predicate Distinct<T>(h: seq<T>) {
    forall k, m :: 1 <= k < m < |h| ==> h[k] != h[m]
  }

  /** Every other condition survives the change of one element's priority. */
  lemma ChangeOpens<T(!new)>(was: (T, T) -> bool, less: (T, T) -> bool, h: seq<T>, i: nat)
    requires StrictWeak(was) && Ordered(was, h) && Distinct(h) && 1 <= i < |h|
    requires forall a, b :: a != h[i] && b != h[i] ==> less(a, b) == was(a, b)
    ensures OrderedBut(less, h, i)
  {
    forall k | 1 <= k < |h| && k != i && k / 2 != i ensures Condition(less, h, k) {
      assert Condition(was, h, k);
    }
    if i > 1 {
      forall k | 1 <= k < |h| && k / 2 == i ensures !less(h[k], h[i / 2]) {
        assert Condition(was, h, k) && Condition(was, h, i);
        NotLess(was, h[k], h[i], h[i / 2]);
      }
    }
  }

  /** An element that has moved ahead leaves what isc_heap_increased needs. */
  lemma MovedAheadFloats<T(!new)>(was: (T, T) -> bool, less: (T, T) -> bool, h: seq<T>, i: nat)
    requires StrictWeak(was) && Ordered(was, h) && Distinct(h) && 1 <= i < |h| && MovedAhead(was, less, h[i])
    ensures OrderedBut(less, h, i) && AboveChildren(less, h, i, h[i])
  {
    ChangeOpens(was, less, h, i);
    forall k | 1 <= k < |h| && k / 2 == i ensures !less(h[k], h[i]) {
      assert Condition(was, h, k);
    }
  }

  /** An element that has fallen behind leaves what isc_heap_decreased needs. */
  lemma FallenBehindSinks<T(!new)>(was: (T, T) -> bool, less: (T, T) -> bool, h: seq<T>, i: nat)
    requires StrictWeak(was) && Ordered(was, h) && Distinct(h) && 1 <= i < |h| && MovedAhead(less, was, h[i])
    ensures OrderedBut(less, h, i) && BelowParent(less, h, i, h[i])
  {
    ChangeOpens(was, less, h, i);
    assert Condition(was, h, i);
  }

  /** Replacing one element opens the heap at its position only. */
  lemma ReplaceOpens<T(!new)>(less: (T, T) -> bool, h: seq<T>, i: nat, e: T)
    requires StrictWeak(less) && Ordered(less, h) && 1 <= i < |h|
    ensures OrderedBut(less, h[i := e], i)
    ensures less(e, h[i]) ==> AboveChildren(less, h[i := e], i, e)
    ensures !less(e, h[i]) ==> BelowParent(less, h[i := e], i, e)
  {
    var g := h[i := e];
    assert Condition(less, h, i);
    forall k | 1 <= k < |g| && k != i && k / 2 != i ensures Condition(less, g, k) {
      assert Condition(less, h, k);
    }
    forall k | 1 <= k < |g| && k / 2 == i
      ensures (i > 1 ==> !less(g[k], g[i / 2])) && (less(e, h[i]) ==> !less(g[k], e))
    {
      assert Condition(less, h, k);
    }
  }

  // ----- back-indices

  /** The recorded index of every element but the one at `i` is its position. */
  ghost predicate IndexedBut<T>(h: seq<T>, index: map<T, nat>, i: nat) {
    forall k :: 1 <= k < |h| && k != i ==> h[k] in index && index[h[k]] == k
  }

  ghost predicate Indexed<T>(h: seq<T>, index: map<T, nat>) {
    IndexedBut(h, index, 0)
  }

  ghost predicate NotElsewhere<T>(h: seq<T>, i: nat, e: T) {
    forall k :: 1 <= k < |h| && k != i ==> h[k] != e
  }

  /** Moving the element at `p` into the hole at `i`, and recording it there, makes `p` the hole. */
  lemma HoleMoves<T>(h: seq<T>, index: map<T, nat>, i: nat, p: nat, e: T)
    requires 1 <= i < |h| && 1 <= p < |h| && i != p && IndexedBut(h, index, i) && NotElsewhere(h, i, e)
    ensures IndexedBut(h[i := h[p]], index[h[p] := i], p) && NotElsewhere(h[i := h[p]], p, e)
  {
  }

  lemma HoleFills<T>(h: seq<T>, index: map<T, nat>, i: nat, e: T)
    requires 1 <= i < |h| && IndexedBut(h, index, i) && NotElsewhere(h, i, e)
    ensures Indexed(h[i := e], index[e := i])
  {
  }

  /** Back-indices are exact only if no element is stored twice. */
  lemma IndexedDistinct<T>(h: seq<T>, index: map<T, nat>)
    requires Indexed(h, index)
    ensures Distinct(h)
  {
  }

  // ----- the heap object

  datatype Outcome = Stored | NoMemory | OutOfBounds

  class PriorityHeap<T(!new, ==, 0)> {
    const increment: nat
    const hasIndex: bool
    var less: (T, T) -> bool
    var slots: array<T>
    var size: nat
    var last: nat
    /** What the index callback has recorded. */
    var index: map<T, nat>

    /** The used part of the array, with the unused position 0; empty before the first allocation. */
    ghost function View(): seq<T>
      requires slots.Length == size && (last < size || size == 0)
      reads this, slots
    {
      if size == 0 then [] else slots[..last + 1]
    }

    ghost predicate Valid()
      reads this, slots
    {
      && slots.Length == size && (if size == 0 then last == 0 else last < size) && increment >= 1
      && (increment == 1 ==> size == 0)
      && StrictWeak(less) && Ordered(less, View()) && (hasIndex ==> Indexed(View(), index))
    }

    /** The stored elements. */
    ghost function Elements(): multiset<T>
      requires Valid()
      reads this, slots
    {
      Inside(View())
    }

    constructor (less: (T, T) -> bool, hasIndex: bool, sizeIncrement: nat)
      requires StrictWeak(less)
      ensures Valid() && fresh(slots) && Elements() == multiset{}
      ensures this.less == less && this.hasIndex == hasIndex
      ensures increment == if sizeIncrement == 0 then 1024 else sizeIncrement
    {
      this.less, this.hasIndex := less, hasIndex;
      increment := if sizeIncrement == 0 then 1024 else sizeIncrement;
      slots := new T[0];
      size, last, index := 0, 0, map[];
    }

    /** resize: a larger array with the old contents. */
    method Resize(memory: bool) returns (ok: bool)
      requires slots.Length == size
      modifies this`slots, this`size
      ensures ok == memory
      ensures ok ==>
          fresh(slots) && slots.Length == size == old(size) + increment && slots[..old(size)] == old(slots[..])
      ensures !ok ==> slots == old(slots) && size == old(size)
    {
      if !memory { return false; }
      var bigger := new T[size + increment];
      for i := 0 to size
        invariant fresh(bigger) && bigger.Length == size + increment && slots.Length == size
        invariant bigger[..i] == slots[..i]
        invariant slots == old(slots) && size == old(size) && slots[..] == old(slots[..])
      {
        bigger[i] := slots[i];
      }
      slots, size := bigger, size + increment;
      return true;
    }

    /** A store into the array, followed by the index callback if there is one. */
    method Store(i: nat, elt: T)
      requires 1 <= i <= last < size == slots.Length
      modifies slots, this`index
      ensures View() == old(View())[i := elt]
      ensures index == if hasIndex then old(index)[elt := i] else old(index)
    {
      slots[i] := elt;
      if hasIndex {
        index := index[elt := i];
      }
    }

    /** Every element but the one at the hole `i` is where the callback was told, and `elt` is none of them. */
    ghost predicate Tracking(i: nat, elt: T)
      requires slots.Length == size && (last < size || size == 0)
      reads this, slots
    {
      hasIndex ==> IndexedBut(View(), index, i) && NotElsewhere(View(), i, elt)
    }

    /** The hole at `i` is filled from `p`, which becomes the hole. */
    method Shift(i: nat, p: nat, ghost elt: T)
      requires 1 <= i <= last < size == slots.Length && 1 <= p <= last && i != p && Tracking(i, elt)
      modifies slots, this`index
      ensures View() == old(View())[i := old(View())[p]] && Tracking(p, elt)
    {
      if hasIndex { HoleMoves(View(), index, i, p, elt); }
      Store(i, slots[p]);
    }

    /** `elt` is put into the hole. */
    method Fill(i: nat, elt: T)
      requires 1 <= i <= last < size == slots.Length && Tracking(i, elt)
      modifies slots, this`index
      ensures View() == old(View())[i := elt] && (hasIndex ==> Indexed(View(), index))
    {
      if hasIndex { HoleFills(View(), index, i, elt); }
      Store(i, elt);
    }

    /** The loop of float_up and the store after it. */
    method FloatLoop(start: nat, elt: T) returns (i: nat)
      requires 1 <= start <= last < size == slots.Length && Tracking(start, elt)
      modifies slots, this`index
      ensures 1 <= i <= last && View() == Float(less, old(View()), start, elt) && (hasIndex ==> Indexed(View(), index))
    {
      i := start;
      var p := start / 2;
      while i > 1 && less(elt, slots[p])
        invariant 1 <= i <= last && p == i / 2 && Tracking(i, elt)
        invariant Float(less, View(), i, elt) == Float(less, old(View()), start, elt)
        decreases i
      {
        Shift(i, p, elt);
        i := p;
        p := i / 2;
      }
      Fill(i, elt);
    }

    method FloatUp(start: nat, elt: T)
      requires 1 <= start <= last < size == slots.Length && Tracking(start, elt)
      requires StrictWeak(less) && OrderedBut(less, View(), start) && AboveChildren(less, View(), start, elt)
      modifies slots, this`index
      ensures Ordered(less, View()) && Inside(View()) == Inside(old(View())[start := elt])
      ensures hasIndex ==> Indexed(View(), index)
    {
      FloatOrders(less, View(), start, elt);
      FloatReplaces(less, View(), start, elt);
      var i := FloatLoop(start, elt);
      assert Condition(less, View(), i);
    }

    /** The smaller of the at most two children. */
    method PickChild(i: nat) returns (j: nat)
      requires 1 <= i <= last / 2 && last < size == slots.Length
      ensures j == LesserChild(less, View(), i)
    {
      j := 2 * i;
      if j < last && less(slots[j + 1], slots[j]) {
        j := j + 1;
      }
    }

    /** The loop of sink_down and the store after it. */
    method SinkLoop(start: nat, elt: T) returns (i: nat)
      requires 1 <= start <= last < size == slots.Length && Tracking(start, elt)
      modifies slots, this`index
      ensures 1 <= i <= last && View() == Sink(less, old(View()), start, elt) && (hasIndex ==> Indexed(View(), index))
    {
      i := start;
      while i <= last / 2
        invariant 1 <= i <= last && Tracking(i, elt)
        invariant Sink(less, View(), i, elt) == Sink(less, old(View()), start, elt)
        decreases last - i
      {
        var j := PickChild(i);
        if less(elt, slots[j]) {
          break;
        }
        Shift(i, j, elt);
        i := j;
      }
      assert View()[i := elt] == Sink(less, old(View()), start, elt);
      Fill(i, elt);
    }

    method SinkDown(start: nat, elt: T)
      requires 1 <= start <= last < size == slots.Length && Tracking(start, elt)
      requires StrictWeak(less) && OrderedBut(less, View(), start) && BelowParent(less, View(), start, elt)
      modifies slots, this`index
      ensures Ordered(less, View()) && Inside(View()) == Inside(old(View())[start := elt])
      ensures hasIndex ==> Indexed(View(), index)
    {
      SinkOrders(less, View(), start, elt);
      SinkReplaces(less, View(), start, elt);
      var i := SinkLoop(start, elt);
      assert Condition(less, View(), i);
    }

    /**
     * isc_heap_insert. With a size increment of 1 the first store would be past the array; without memory
     * the element is not stored, and `last` stays incremented.
     */
    method Insert(elt: T, memory: bool) returns (outcome: Outcome)
      requires Valid() && (hasIndex ==> elt !in Elements())
      modifies this`last, this`slots, this`size, this`index, slots
      ensures outcome == if old(last) + 1 >= old(size) && !memory then NoMemory
                         else if increment == 1 then OutOfBounds else Stored
      ensures slots == old(slots) || fresh(slots)
      ensures outcome == Stored ==> Valid() && Elements() == old(Elements()) + multiset{elt}
      ensures outcome == NoMemory ==>
          slots == old(slots) && slots[..] == old(slots[..]) && size == old(size) && last == old(last) + 1
    {
      ghost var h := View();
      last := last + 1;
      if last >= size {
        var ok := Resize(memory);
        if !ok { return NoMemory; }
      }
      if last >= size { return OutOfBounds; }
      assert Grown(h, View()) by { assert h != [] ==> View()[..|h|] == h; }
      AddLast(h, elt);
      return Stored;
    }

    /** `elt` is put into the new last position and floats up from there. */
    method AddLast(ghost h: seq<T>, elt: T)
      requires 1 <= last < size == slots.Length && increment > 1 && Grown(h, View())
      requires StrictWeak(less) && Ordered(less, h) && (hasIndex ==> Indexed(h, index) && elt !in Inside(h))
      modifies slots, this`index
      ensures Valid() && Inside(View()) == Inside(h) + multiset{elt}
    {
      ghost var g := View();
      GrowOpens(less, h, g, index, elt);
      FloatUp(last, elt);
      GrowAdds(h, g, last, elt);
    }

    /** isc_heap_delete. */
    method Delete(i: nat)
      requires Valid() && 1 <= i <= last
      modifies this`last, this`index, slots
      ensures Valid() && Elements() == old(Elements()) - multiset{old(slots[i])}
    {
      ghost var h, n := View(), last;
      if i == last {
        DropLast();
        CutRemoves(h, n);
      } else {
        var elt := slots[last];
        DropLast();
        Replace(i, elt);
        MoveLastRemoves(h, n, i);
      }
    }

    method DropLast()
      requires Valid() && last >= 1
      modifies this`last
      ensures Valid() && last == old(last) - 1 && View() == old(View()[..last])
      ensures hasIndex ==> NotElsewhere(View(), 0, slots[old(last)])
    {
      ghost var h := View();
      Shrinks(less, h, index);
      last := last - 1;
      assert View() == h[..|h| - 1];
    }

    /** An element from elsewhere takes the place of the one at `i`; `ahead` says which way it may have to go. */
    method PutAt(i: nat, elt: T) returns (ahead: bool)
      requires Valid() && 1 <= i <= last && (hasIndex ==> NotElsewhere(View(), 0, elt))
      modifies slots
      ensures View() == old(View())[i := elt] && OrderedBut(less, View(), i) && Tracking(i, elt)
      ensures if ahead then AboveChildren(less, View(), i, elt) else BelowParent(less, View(), i, elt)
    {
      ghost var h := View();
      ReplaceOpens(less, h, i, elt);
      ahead := less(elt, slots[i]);
      slots[i] := elt;
      assert View() == h[i := elt];
    }

    /** The rest of isc_heap_delete, when the removed element was not the last. */
    method Replace(i: nat, elt: T)
      requires Valid() && 1 <= i <= last && (hasIndex ==> NotElsewhere(View(), 0, elt))
      modifies this`index, slots
      ensures Valid() && Inside(View()) == Inside(old(View())[i := elt])
    {
      ghost var h := View();
      var ahead := PutAt(i, elt);
      assert h[i := elt][i := elt] == h[i := elt];
      if ahead {
        FloatUp(i, slots[i]);
      } else {
        SinkDown(i, slots[i]);
      }
    }

    /** isc_heap_increased: `compare` is the order now that the element at `i` has moved ahead in it. */
    method Increased(compare: (T, T) -> bool, i: nat)
      requires Valid() && 1 <= i <= last && (hasIndex || Distinct(View()))
      requires StrictWeak(compare) && MovedAhead(less, compare, slots[i])
      modifies this`less, this`index, slots
      ensures Valid() && less == compare && Elements() == old(Elements())
    {
      if hasIndex { IndexedDistinct(View(), index); }
      MovedAheadFloats(less, compare, View(), i);
      Refloat(compare, i);
    }

    method Refloat(compare: (T, T) -> bool, i: nat)
      requires Valid() && 1 <= i <= last && StrictWeak(compare)
      requires OrderedBut(compare, View(), i) && AboveChildren(compare, View(), i, slots[i])
      modifies this`less, this`index, slots
      ensures Valid() && less == compare && Elements() == old(Elements())
    {
      less := compare;
      assert View()[i := slots[i]] == View();
      FloatUp(i, slots[i]);
    }

    /** isc_heap_decreased: `compare` is the order now that the element at `i` has fallen behind in it. */
    method Decreased(compare: (T, T) -> bool, i: nat)
      requires Valid() && 1 <= i <= last && (hasIndex || Distinct(View()))
      requires StrictWeak(compare) && MovedAhead(compare, less, slots[i])
      modifies this`less, this`index, slots
      ensures Valid() && less == compare && Elements() == old(Elements())
    {
      if hasIndex { IndexedDistinct(View(), index); }
      FallenBehindSinks(less, compare, View(), i);
      Resink(compare, i);
    }

    method Resink(compare: (T, T) -> bool, i: nat)
      requires Valid() && 1 <= i <= last && StrictWeak(compare)
      requires OrderedBut(compare, View(), i) && BelowParent(compare, View(), i, slots[i])
      modifies this`less, this`index, slots
      ensures Valid() && less == compare && Elements() == old(Elements())
    {
      less := compare;
      assert View()[i := slots[i]] == View();
      SinkDown(i, slots[i]);
    }

    /** isc_heap_element, for the first position: nothing that is stored comes before it. */
    method First() returns (elt: T)
      requires Valid() && last >= 1
      ensures elt in Elements() && forall x :: x in Elements() ==> !less(x, elt)
    {
      elt := slots[1];
      ghost var h := View();
      assert h[1..][0] == elt;
      forall k | 1 <= k < |h| ensures !less(h[k], elt) { FirstIsLeast(less, h, k); }
      assert forall k :: 0 <= k < |h[1..]| ==> h[1..][k] == h[k + 1];
    }
  }
}
