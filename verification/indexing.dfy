/**
 How a number typed at the menu becomes a position in the task list.

 The menu subtracts one from the number, and the list operations then apply
 Python's sequence indexing: an index `i` on a list of length `n` is accepted
 exactly when `-n <= i < n`, and a negative index counts from the end.
 */
module Indexing {
  import opened Wrappers

  /** The range of CPython's `Py_ssize_t` on a 64-bit platform. */
  const SsizeMin: int := -0x8000_0000_0000_0000
  const SsizeMax: int := 0x7FFF_FFFF_FFFF_FFFF

  /**
   Whether an index converts to a C `Py_ssize_t`. `list.pop` converts its
   argument this way and raises `OverflowError` when it does not fit.
   */
  predicate FitsSsize(index: int) {
    SsizeMin <= index <= SsizeMax
  }

  /**
   Resolves a Python list index against a list of length `n`: a negative
   index is first shifted by `n`, and whatever is still outside `[0, n)` is
   the `IndexError` case.
   */
  function Resolve(index: int, n: nat): (k: Option<nat>)
    ensures k.Some? <==> -(n as int) <= index < n
    ensures k.Some? ==> k.value < n && k.value == index % n
  {
    var i := if index < 0 then index + n else index;
    if 0 <= i < n then Some(i) else None
  }

  /**
   The menu's conversion of a 1-based task number into a list index. On a
   list of length `n` the index is accepted exactly for typed numbers in
   `[1 - n, n]`, and a number in `[1, n]` reaches the task listed with it.
   */
  function MenuIndex(number: int): (index: int)
    ensures forall n: nat :: Resolve(index, n).Some? <==> 1 - n <= number <= n
    ensures forall n: nat :: 1 <= number <= n ==> Resolve(index, n) == Some(number - 1)
  {
    number - 1
  }

  /**
   Which task a typed number reaches: numbers `1..n` reach the task shown
   with that number, `0` reaches the last task, numbers down to `1 - n`
   count back from the end, and everything else is rejected.
   */
  lemma MenuNumberTargets(number: int, n: nat)
    ensures Resolve(MenuIndex(number), n).Some? <==> 1 - n <= number <= n
    ensures 1 <= number <= n ==> Resolve(MenuIndex(number), n) == Some(number - 1)
    ensures number <= 0 && 1 - n <= number ==> Resolve(MenuIndex(number), n) == Some(n + number - 1)
    ensures number == 0 && n > 0 ==> Resolve(MenuIndex(number), n) == Some(n - 1)
  {
  }
}
