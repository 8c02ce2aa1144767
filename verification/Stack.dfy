/** The operand stack of one call frame. */
module Stacks {
  import opened Numbers

  /** The n-th item from the top of a stack. */
  function BackOf(data: seq<Word>, n: nat): Word
    requires n < |data|
  {
    data[|data| - n - 1]
  }

  class Stack {
    var data: seq<Word>

    constructor ()
      ensures data == []
    {
      data := [];
    }

    method Push(w: Word)
      modifies this
      ensures data == old(data) + [w]
    {
      data := data + [w];
    }

    method Pop() returns (w: Word)
      requires |data| >= 1
      modifies this
      ensures w == old(data)[|old(data)| - 1] && data == old(data)[..|old(data)| - 1]
    {
      w := data[|data| - 1];
      data := data[..|data| - 1];
    }

    /** Overwrites the top item, as instructions do through the pointer that peek returns. */
    method SetTop(w: Word)
      requires |data| >= 1
      modifies this
      ensures data == old(data)[..|old(data)| - 1] + [w]
    {
      data := data[|data| - 1 := w];
    }

    /** Exchanges the top item with the n-th counted from the top, itself being the first. */
    method Swap(n: nat)
      requires 2 <= n <= |data|
      modifies this
      ensures |data| == |old(data)|
      ensures data[|data| - 1] == old(data)[|data| - n] && data[|data| - n] == old(data)[|data| - 1]
      ensures forall i :: 0 <= i < |data| && i != |data| - 1 && i != |data| - n ==> data[i] == old(data)[i]
    {
      data := data[|data| - n := data[|data| - 1]][|data| - 1 := data[|data| - n]];
    }

    method Dup(n: nat)
      requires 1 <= n <= |data|
      modifies this
      ensures data == old(data) + [old(data)[|old(data)| - n]]
    {
      data := data + [data[|data| - n]];
    }

    function Back(n: nat): Word
      requires n < |data|
      reads this
    {
      BackOf(data, n)
    }
  }
}
