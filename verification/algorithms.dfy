/**
 The allocation-free generic algorithms the builder relies on, over sequences.
 A C++ array or `(pointer, count)` range is a `seq<T>`; an in-place
 algorithm returns the updated sequence; the value-initialised element `T{}`
 is passed in as `blank`; callables are pure functions.
 */
module AvrAlgorithms {

  function Min(a: nat, b: nat): nat
  {
    if a < b then a else b
  }

  // ---------------------------------------------------------------- iteration

  /**
   `for_each_indexed(buffer, n, func)` with a stateful callable: `func` is
   applied to `(state, a[i], i)` for `i = 0, 1, ..., |a| - 1`, threading the
   state. Iteration starts at index `from`.
   */
  function ForEachIndexedFrom<T, S>(a: seq<T>, from: nat, acc: S, f: (S, T, nat) -> S): S
    decreases |a| - from
  {
    if from >= |a| then acc else ForEachIndexedFrom(a, from + 1, f(acc, a[from], from), f)
  }

  /** The whole loop: no call on an empty range; otherwise the last call is on the last element, with its index. */
  function ForEachIndexed<T, S>(a: seq<T>, acc: S, f: (S, T, nat) -> S): (r: S)
    ensures |a| == 0 ==> r == acc
    ensures |a| > 0 ==> r == f(ForEachIndexed(a[..|a| - 1], acc, f), a[|a| - 1], |a| - 1)
    decreases |a|
  {
    if |a| > 0 then
      ForEachIndexedSnoc(a[..|a| - 1], a[|a| - 1], 0, acc, f);
      assert a[..|a| - 1] + [a[|a| - 1]] == a;
      ForEachIndexedFrom(a, 0, acc, f)
    else
      ForEachIndexedFrom(a, 0, acc, f)
  }

  /** Indices are visited in increasing order, each once: the last element is visited last. */
  lemma {:induction false} ForEachIndexedSnoc<T, S>(a: seq<T>, x: T, from: nat, acc: S, f: (S, T, nat) -> S)
    requires from <= |a|
    ensures ForEachIndexedFrom(a + [x], from, acc, f) == f(ForEachIndexedFrom(a, from, acc, f), x, |a|)
    decreases |a| - from
  {
    if from < |a| {
      assert (a + [x])[from] == a[from];
      ForEachIndexedSnoc(a, x, from + 1, f(acc, a[from], from), f);
    } else {
      assert (a + [x])[from] == x;
    }
  }

  /** `for_index_n(n, func)`: `func` is applied to `(state, i)` for `i = from .. n - 1`. */
  function ForIndexNFrom<S>(n: nat, from: nat, acc: S, f: (S, nat) -> S): S
    decreases n - from
  {
    if from >= n then acc else ForIndexNFrom(n, from + 1, f(acc, from), f)
  }

  /** The whole loop: no call for `n == 0`; otherwise the last call is for index `n - 1`. */
  function ForIndexN<S>(n: nat, acc: S, f: (S, nat) -> S): (r: S)
    ensures n == 0 ==> r == acc
    ensures n > 0 ==> r == f(ForIndexN(n - 1, acc, f), n - 1)
    decreases n
  {
    if n > 0 then
      ForIndexNSnoc(n - 1, 0, acc, f);
      ForIndexNFrom(n, 0, acc, f)
    else
      ForIndexNFrom(n, 0, acc, f)
  }

  /** Indices are visited in increasing order, each once: index `n` comes last in a loop up to `n + 1`. */
  lemma {:induction false} ForIndexNSnoc<S>(n: nat, from: nat, acc: S, f: (S, nat) -> S)
    requires from <= n
    ensures ForIndexNFrom(n + 1, from, acc, f) == f(ForIndexNFrom(n, from, acc, f), n)
    decreases n - from
  {
    if from < n {
      ForIndexNSnoc(n, from + 1, f(acc, from), f);
    }
  }

  /** A `for_each_indexed` whose callable ignores the element is a `for_index_n` over the length. */
  lemma {:induction false} ForEachIndexedIgnoresElements<T, S>(a: seq<T>, from: nat, acc: S, f: (S, T, nat) -> S, g: (S, nat) -> S)
    requires from <= |a|
    requires forall s, x, i :: f(s, x, i) == g(s, i)
    ensures ForEachIndexedFrom(a, from, acc, f) == ForIndexNFrom(|a|, from, acc, g)
    decreases |a| - from
  {
    if from < |a| {
      ForEachIndexedIgnoresElements(a, from + 1, f(acc, a[from], from), f, g);
    }
  }

  /** `for_each_until(buffer, length, func)`: true iff `func` holds of every element. */
  method ForEachUntil<T>(a: seq<T>, f: T -> bool) returns (all: bool)
    ensures all <==> forall i :: 0 <= i < |a| ==> f(a[i])
  {
    var i := 0;
    while i < |a|
      invariant 0 <= i <= |a|
      invariant forall j :: 0 <= j < i ==> f(a[j])
    {
      if !f(a[i]) {
        return false;
      }
      i := i + 1;
    }
    return true;
  }

  /** `any_of(begin, count, p)`: true iff some element, with its index, satisfies `p`. */
  method AnyOf<T>(a: seq<T>, count: nat, p: (T, nat) -> bool) returns (found: bool)
    requires count <= |a|
    ensures found <==> exists i :: 0 <= i < count && p(a[i], i)
  {
    var i := 0;
    while i < count
      invariant 0 <= i <= count
      invariant forall j :: 0 <= j < i ==> !p(a[j], j)
    {
      if p(a[i], i) {
        return true;
      }
      i := i + 1;
    }
    return false;
  }

  // ---------------------------------------------------------------- search and count

  /** `find_impl(begin, end, value)`: position of the first match, or `|a|` (the `end` iterator). */
  function Find<T(==)>(a: seq<T>, value: T): (i: nat)
    ensures i <= |a|
    ensures i < |a| ==> a[i] == value
    ensures forall j :: 0 <= j < i ==> a[j] != value
    ensures i == |a| <==> value !in a
  {
    if |a| == 0 then 0
    else if a[0] == value then 0
    else 1 + Find(a[1..], value)
  }

  /** `find_if_impl(begin, end, pred)`: position of the first element satisfying `pred`, or `|a|`. */
  function FindIf<T>(a: seq<T>, pred: T -> bool): (i: nat)
    ensures i <= |a|
    ensures i < |a| ==> pred(a[i])
    ensures forall j :: 0 <= j < i ==> !pred(a[j])
  {
    if |a| == 0 then 0
    else if pred(a[0]) then 0
    else 1 + FindIf(a[1..], pred)
  }

  /** `count_impl(begin, end, value)`: number of elements equal to `value`. */
  function Count<T(==)>(a: seq<T>, value: T): (n: nat)
    ensures n <= |a|
    ensures n == multiset(a)[value]
  {
    if |a| == 0 then 0
    else
      assert a == [a[0]] + a[1..];
      (if a[0] == value then 1 else 0) + Count(a[1..], value)
  }

  /** Elements not satisfying `pred`, in their original order. */
  function Rejected<T>(a: seq<T>, pred: T -> bool): seq<T>
  {
    if |a| == 0 then []
    else if pred(a[|a| - 1]) then Rejected(a[..|a| - 1], pred)
    else Rejected(a[..|a| - 1], pred) + [a[|a| - 1]]
  }

  /** `count_if_impl(begin, end, pred)`: number of elements satisfying `pred`. */
  function CountIf<T>(a: seq<T>, pred: T -> bool): (n: nat)
    ensures n <= |a|
    ensures n == 0 <==> forall j :: 0 <= j < |a| ==> !pred(a[j])
    ensures n == |a| <==> forall j :: 0 <= j < |a| ==> pred(a[j])
  {
    if |a| == 0 then 0
    else (if pred(a[0]) then 1 else 0) + CountIf(a[1..], pred)
  }

  /** Every element is either counted by `count_if` or kept by `remove_if`. */
  lemma {:induction false} CountIfPlusRejected<T>(a: seq<T>, pred: T -> bool)
    ensures CountIf(a, pred) + |Rejected(a, pred)| == |a|
    ensures forall x :: x in Rejected(a, pred) ==> !pred(x)
    decreases |a|
  {
    if |a| > 0 {
      var last := a[|a| - 1];
      var init := a[..|a| - 1];
      CountIfPlusRejected(init, pred);
      CountIfSnoc(init, last, pred);
      assert init + [last] == a;
    }
  }

  lemma {:induction false} CountIfSnoc<T>(a: seq<T>, x: T, pred: T -> bool)
    ensures CountIf(a + [x], pred) == CountIf(a, pred) + (if pred(x) then 1 else 0)
    decreases |a|
  {
    if |a| == 0 {
      assert (a + [x])[1..] == [];
    } else {
      assert (a + [x])[1..] == a[1..] + [x];
      CountIfSnoc(a[1..], x, pred);
    }
  }

  // ---------------------------------------------------------------- copy

  /**
   `copy_array(src, count, dest[N])`: copy `min(count, N)` elements, then
   reset the remainder of `dest` to `blank`.
   */
  method CopyArray<T>(src: seq<T>, count: nat, dest: seq<T>, blank: T) returns (out: seq<T>)
    requires Min(count, |dest|) <= |src|
    ensures |out| == |dest|
    ensures forall i :: 0 <= i < Min(count, |dest|) ==> out[i] == src[i]
    ensures forall i :: Min(count, |dest|) <= i < |out| ==> out[i] == blank
  {
    var toCount := if count > |dest| then |dest| else count;
    out := dest;
    var i := 0;
    while i < toCount
      invariant 0 <= i <= toCount
      invariant |out| == |dest|
      invariant forall j :: 0 <= j < i ==> out[j] == src[j]
    {
      out := out[i := src[i]];
      i := i + 1;
    }
    i := toCount;
    while i < |dest|
      invariant toCount <= i <= |dest|
      invariant |out| == |dest|
      invariant forall j :: 0 <= j < toCount ==> out[j] == src[j]
      invariant forall j :: toCount <= j < i ==> out[j] == blank
    {
      out := out[i := blank];
      i := i + 1;
    }
  }

  /**
   `copy_impl(begin, end, dest, max_count)`: copy while neither the source
   range nor `maxCount` is exhausted; returns the number written (the offset
   of the returned output iterator) and the destination.
   */
  method CopyImpl<T>(src: seq<T>, dest: seq<T>, maxCount: nat) returns (written: nat, out: seq<T>)
    requires Min(|src|, maxCount) <= |dest|
    ensures written == Min(|src|, maxCount)
    ensures |out| == |dest|
    ensures out[..written] == src[..written]
    ensures out[written..] == dest[written..]
  {
    out := dest;
    written := 0;
    while written < |src| && written < maxCount
      invariant written <= |src| && written <= maxCount
      invariant |out| == |dest|
      invariant forall j :: 0 <= j < written ==> out[j] == src[j]
      invariant forall j :: written <= j < |out| ==> out[j] == dest[j]
    {
      out := out[written := src[written]];
      written := written + 1;
    }
  }

  /**
   `copy(begin, end, dest, dest_size)`: truncate the source range to
   `dest_size`, copy it, and return how many elements were copied.
   */
  method Copy<T>(src: seq<T>, dest: seq<T>, destSize: nat) returns (copied: nat, out: seq<T>)
    requires Min(|src|, destSize) <= |dest|
    ensures copied == Min(|src|, destSize)
    ensures |out| == |dest|
    ensures out[..copied] == src[..copied]
    ensures out[copied..] == dest[copied..]
  {
    var end := |src|;
    if end > destSize {
      end := destSize;
    }
    copied := if end < destSize then end else destSize;
    var written;
    written, out := CopyImpl(src[..end], dest, copied);
  }

  // ---------------------------------------------------------------- removal

  /**
   `remove_if_impl(begin, end, pred)`: compact the elements not satisfying
   `pred` to the front, stably; returns the new logical end. Slots from the
   returned position on keep their old contents.
   */
  method RemoveIf<T>(a: seq<T>, pred: T -> bool) returns (w: nat, out: seq<T>)
    ensures w <= |a| && |out| == |a|
    ensures out[..w] == Rejected(a, pred)
    ensures out[w..] == a[w..]
  {
    out := a;
    w := 0;
    var i := 0;
    while i < |a|
      invariant w <= i <= |a|
      invariant |out| == |a|
      invariant out[..w] == Rejected(a[..i], pred)
      invariant out[w..] == a[w..]
    {
      assert a[..i + 1][..i] == a[..i];
      if !pred(a[i]) {
        out := out[w := a[i]];
        assert out[..w + 1] == out[..w] + [a[i]];
        w := w + 1;
      }
      i := i + 1;
    }
    assert a[..|a|] == a;
  }

  /**
   `erase_value(begin, count, value)`: swap-erase the first occurrence of
   `value` among the first `count` elements — it takes the last element's
   place, the last slot becomes `blank` and `count` drops by one.
   */
  method EraseValue<T(==)>(a: seq<T>, count: nat, value: T, blank: T) returns (erased: bool, out: seq<T>, newCount: nat)
    requires count <= |a|
    ensures erased <==> value in a[..count]
    ensures !erased ==> out == a && newCount == count
    ensures erased ==> newCount == count - 1 && |out| == |a|
    ensures erased ==> var i := Find(a[..count], value);
      && out[..i] == a[..i]
      && (i < newCount ==> out[i] == a[newCount] && out[i + 1..newCount] == a[i + 1..newCount])
      && out[newCount] == blank
      && out[count..] == a[count..]
    ensures erased ==> multiset(out[..newCount]) == multiset(a[..count]) - multiset{value}
  {
    var i := 0;
    while i < count
      invariant 0 <= i <= count
      invariant forall j :: 0 <= j < i ==> a[j] != value
    {
      if a[i] == value {
        out := a[i := a[count - 1]];
        out := out[count - 1 := blank];
        newCount := count - 1;
        assert a[..count][i] == value;
        assert Find(a[..count], value) == i;
        SwapEraseMultiset(a, count, i, value, out);
        return true, out, newCount;
      }
      i := i + 1;
    }
    assert forall j :: 0 <= j < count ==> a[..count][j] != value;
    return false, a, count;
  }

  lemma SwapEraseMultiset<T>(a: seq<T>, count: nat, i: nat, value: T, out: seq<T>)
    requires i < count <= |a| && a[i] == value
    requires |out| == |a|
    requires out[..i] == a[..i]
    requires i < count - 1 ==> out[i] == a[count - 1] && out[i + 1..count - 1] == a[i + 1..count - 1]
    ensures multiset(out[..count - 1]) == multiset(a[..count]) - multiset{value}
  {
    if i < count - 1 {
      assert a[..count] == a[..i] + [value] + a[i + 1..count - 1] + [a[count - 1]];
      assert out[..count - 1] == a[..i] + [a[count - 1]] + a[i + 1..count - 1];
    } else {
      assert a[..count] == a[..i] + [value];
      assert out[..count - 1] == a[..i];
    }
  }

  // ---------------------------------------------------------------- apply

  /**
   `apply_within_range(arr, start, end, f)`: an invalid range (`start >= N`,
   `end > N` or `start >= end`) is ignored; otherwise `f` updates exactly the
   elements at indices `start .. end - 1`.
   */
  method ApplyWithinRange<T>(arr: seq<T>, start: nat, end: nat, f: T -> T) returns (out: seq<T>)
    ensures |out| == |arr|
    ensures (start >= |arr| || end > |arr| || start >= end) ==> out == arr
    ensures forall i :: 0 <= i < |arr| ==>
      out[i] == if start < end <= |arr| && start <= i < end then f(arr[i]) else arr[i]
  {
    if start >= |arr| || end > |arr| || start >= end {
      return arr;
    }
    out := arr;
    var i := start;
    while i < end
      invariant start <= i <= end
      invariant |out| == |arr|
      invariant forall j :: 0 <= j < |arr| ==>
        out[j] == if start <= j < i then f(arr[j]) else arr[j]
    {
      out := out[i := f(arr[i])];
      i := i + 1;
    }
  }
}
