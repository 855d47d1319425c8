/** A stack in an array that grows downward, with the words that move what it holds; for cells and for their types. */
module CellStacks {

  class Stack<T(0)> {
    const cells: array<T>
    var sp: int              // the free place below the top

    ghost predicate Valid()
      reads this
    {
      -1 <= sp < cells.Length
    }

    /** Top first. */
    ghost function Contents(): (c: seq<T>)
      reads this, cells
      requires Valid()
      ensures |c| == cells.Length - sp - 1
    {
      cells[sp + 1..]
    }

    constructor (size: nat, c: seq<T>, filler: T)
      requires |c| <= size
      ensures Valid() && fresh(cells) && cells.Length == size && Contents() == c
    {
      cells, sp := new T[size](i => if 0 <= i - (size - |c|) < |c| then c[i - (size - |c|)] else filler),
        size - |c| - 1;
    }

    function Depth(): nat
      reads this
      requires Valid()
    {
      cells.Length - sp - 1
    }

    function Get(i: nat): (v: T)
      reads this, cells
      requires Valid() && i < |Contents()|
      ensures v == Contents()[i]
    {
      cells[sp + 1 + i]
    }

    method Set(i: nat, v: T)
      requires Valid() && i < |Contents()|
      modifies cells
      ensures Valid() && Contents() == old(Contents())[i := v]
    {
      cells[sp + 1 + i] := v;
    }

    method Push(v: T)
      requires Valid() && sp >= 0
      modifies this, cells
      ensures Valid() && sp == old(sp) - 1 && Contents() == [v] + old(Contents())
    {
      cells[sp] := v;
      sp := sp - 1;
    }

    method Drop(n: nat)
      requires Valid() && n <= |Contents()|
      modifies `sp
      ensures Valid() && sp == old(sp) + n && Contents() == old(Contents())[n..]
    {
      sp := sp + n;
    }

    // ----- words -----

    method Swap()
      requires Valid() && |Contents()| >= 2
      modifies cells
      ensures Valid() && Contents() == old([Contents()[1], Contents()[0]] + Contents()[2..])
    {
      var (b, a) := (Get(0), Get(1));
      Set(1, b);
      Set(0, a);
    }

    method Over()
      requires Valid() && |Contents()| >= 2 && sp >= 0
      modifies this, cells
      ensures Valid() && Contents() == old([Contents()[1]] + Contents())
    {
      Push(Get(1));
    }

    method Rot()
      requires Valid() && |Contents()| >= 3
      modifies cells
      ensures Valid() && Contents() == old([Contents()[2], Contents()[0], Contents()[1]] + Contents()[3..])
    {
      var (a, c) := (Get(2), Get(0));
      Set(0, a);
      var b := Get(1);
      Set(1, c);
      Set(2, b);
    }

    method Nip()
      requires Valid() && |Contents()| >= 2
      modifies this, cells
      ensures Valid() && Contents() == old([Contents()[0]] + Contents()[2..])
    {
      Swap();
      Drop(1);
    }

    method Tuck()
      requires Valid() && |Contents()| >= 2 && sp >= 0
      modifies this, cells
      ensures Valid() && Contents() == old([Contents()[0], Contents()[1], Contents()[0]] + Contents()[2..])
    {
      Swap();
      Over();
    }

    method TwoDup()
      requires Valid() && |Contents()| >= 2 && sp >= 1
      modifies this, cells
      ensures Valid() && Contents() == old([Contents()[0], Contents()[1]] + Contents())
    {
      var (b, a) := (Get(0), Get(1));
      Push(a);
      Push(b);
    }

    /** The top is replaced by the outcome of a word of two operands. */
    method Combine(v: T)
      requires Valid() && |Contents()| >= 2
      modifies this, cells
      ensures Valid() && Contents() == [v] + old(Contents()[2..])
    {
      Drop(1);
      Set(0, v);
    }
  }
}
