/** The mutable stack under every loop of the calculator (stackx.Stack). */
module Stackx {

  /** The last element of a nonempty stack content. */
  function Top<T>(items: seq<T>): T
    requires items != []
  {
    items[|items| - 1]
  }

  /** Everything under the last element. */
  function Below<T>(items: seq<T>): seq<T>
    requires items != []
  {
    items[..|items| - 1]
  }

  /** What SafePeek and SafePop return: the top, or the zero value of an empty stack. */
  function TopOr<T>(items: seq<T>, zero: T): T {
    if items == [] then zero else Top(items)
  }

  function BelowOrEmpty<T>(items: seq<T>): seq<T> {
    if items == [] then [] else Below(items)
  }

  class Stack<T> {
    var items: seq<T>
    const zero: T  // Go's zero value of T, returned when the stack is empty

    constructor (zero: T)
      ensures items == [] && this.zero == zero
    {
      this.items := [];
      this.zero := zero;
    }

    method Push(item: T)
      modifies this`items
      ensures items == old(items) + [item]
    {
      items := items + [item];
    }

    method Pop() returns (item: T, ok: bool)
      modifies this`items
      ensures ok <==> old(items) != []
      ensures ok ==> items + [item] == old(items)
      ensures !ok ==> items == [] && item == zero
    {
      if |items| == 0 {
        return zero, false;
      }
      item, ok := items[|items| - 1], true;
      items := items[..|items| - 1];
    }

    method SafePop() returns (item: T)
      modifies this`items
      ensures item == TopOr(old(items), zero)
      ensures items == BelowOrEmpty(old(items))
    {
      var ok;
      item, ok := Pop();
    }

    function SafePeek(): T
      reads this
    {
      TopOr(items, zero)
    }

    function Size(): nat
      reads this
    {
      |items|
    }
  }
}
