/** The memoising Fibonacci solver against the recursive one. */
module Fibonacci {

  import opened Wrappers

  /** `SimpleFibonacciSolver.solve` */
  function Simple(index: int): int {
    if index <= 1 then index else Simple(index - 1) + Simple(index - 2)
  }

  lemma SimpleStep(index: int)
    ensures Simple(index) == if index <= 1 then index else Simple(index - 1) + Simple(index - 2)
  {
  }

  class FastFibonacciSolver {
    var memo: map<int, int>
    var lastComputedIndex: int

    /** The memo holds exactly the values up to the last computed index. */
    ghost predicate Valid() reads this {
      && lastComputedIndex >= 1
      && (forall i :: i in memo <==> 0 <= i <= lastComputedIndex)
      && (forall i :: i in memo ==> memo[i] == Simple(i))
    }

    constructor ()
      ensures Valid() && lastComputedIndex == 1
    {
      memo := map[0 := 0, 1 := 1];
      lastComputedIndex := 1;
    }

    /** The value at `index`; none stands for the NegativeIndexError. */
    method Solve(index: int) returns (value: Option<int>)
      requires Valid()
      modifies this
      ensures Valid()
      ensures value == if index < 0 then None else Some(Simple(index))
      ensures lastComputedIndex == if index > old(lastComputedIndex) then index else old(lastComputedIndex)
      ensures forall i :: i in old(memo) ==> i in memo && memo[i] == old(memo[i])
    {
      hide Simple;
      if index < 0 {
        return None;
      }
      if index in memo {
        return Some(memo[index]);
      }
      var a := memo[lastComputedIndex - 1];
      var b := memo[lastComputedIndex];
      for i := lastComputedIndex + 1 to index + 1
        invariant lastComputedIndex == old(lastComputedIndex)
        invariant a == Simple(i - 2) && b == Simple(i - 1)
        invariant forall j :: j in memo <==> 0 <= j < i
        invariant forall j :: j in memo ==> memo[j] == Simple(j)
      {
        SimpleStep(i);
        var nextValue := a + b;
        a := b;
        b := nextValue;
        memo := memo[i := nextValue];
      }
      lastComputedIndex := index;
      return Some(memo[index]);
    }
  }
}
