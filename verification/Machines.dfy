/**
 * The virtual machine's stacks as arrays that grow downward, with a signal that may
 * come between any two accesses to them.
 */
module Machines {
  import opened Cells

  /** How far the signal handler moves the stack pointers away. */
  const OFFSET: int := 16

  /** What is not the data stack: return stack, instruction pointer and entry level. */
  datatype Rest = Rest(rp: int, cells: seq<Cell>, ip: Cell, entry: int)

  class Machine {
    const stack: array<Cell>
    const rstack: array<Cell>
    var sp: int      // the free cell below the top of the data stack
    var rp: int      // the same for the return stack
    var ip: Cell
    var entry: int

    ghost predicate Valid()
      reads this
    {
      && stack != rstack
      && OFFSET <= sp < stack.Length
      && OFFSET <= rp < rstack.Length
    }

    /** Empty stacks with room for size cells each, besides those that are kept free. */
    constructor (size: nat)
      ensures Valid() && fresh(stack) && fresh(rstack) && Contents() == []
    {
      stack := new Cell[OFFSET + size + 1];
      rstack := new Cell[OFFSET + size + 1];
      sp, rp := OFFSET + size, OFFSET + size;
      ip, entry := 0, OFFSET + size;
    }

    /** The data stack, top first. */
    ghost function Contents(): (c: seq<Cell>)
      reads `sp, stack
      requires OFFSET <= sp < stack.Length
      ensures |c| == stack.Length - sp - 1
    {
      stack[sp + 1..]
    }

    /** The cells that a signal leaves alone: the data stack and the 16 cells beyond it. */
    ghost function Guarded(): (g: seq<Cell>)
      reads `sp, stack
      requires OFFSET <= sp < stack.Length
      ensures |g| == |Contents()| + OFFSET && g[OFFSET..] == Contents()
    {
      stack[sp + 1 - OFFSET..]
    }

    ghost function Others(): Rest
      reads `rp, `ip, `entry, rstack
      requires OFFSET <= rp < rstack.Length
    {
      Rest(rp, rstack[rp + 1 - OFFSET..], ip, entry)
    }

    /** There are n cells on the data stack. */
    ghost predicate Holds(n: nat)
      reads this, stack
    {
      Valid() && |Contents()| >= n
    }

    /** Nothing has changed but the top n cells of the data stack, and the farthest k of the guarded cells. */
    twostate predicate Rewrites(n: nat, k: nat := 0)
      reads this, stack, rstack
      requires k <= OFFSET && old(Holds(n))
    {
      && Valid() && sp == old(sp) && Others() == old(Others())
      && Guarded()[k..OFFSET] == old(Guarded()[k..OFFSET])
      && Contents()[n..] == old(Contents()[n..])
    }

    // ----- signals -----

    /** A word ( n -- ) that handles a signal: it overwrites what it was given and anything beyond. */
    method Handler()
      requires stack != rstack && -1 <= sp < stack.Length - 1 && 0 <= rp < rstack.Length
      modifies this, stack, rstack
      ensures stack[old(sp) + 2..] == old(stack[sp + 2..])
      ensures rstack[old(rp) + 1..] == old(rstack[rp + 1..])
    {
      ghost var (s, r) := (stack[sp + 2..], rstack[rp + 1..]);
      var (top, rtop) := (sp, rp);
      for i := 0 to top + 2
        invariant stack[top + 2..] == s && rstack[rtop + 1..] == r
      {
        stack[i] := *;
      }
      for i := 0 to rtop + 1
        invariant stack[top + 2..] == s && rstack[rtop + 1..] == r
      {
        rstack[i] := *;
      }
      sp, rp, ip, entry := *, *, *, *;
    }

    /** The machine is entered anew to run the handler; it saves the instruction pointer and the entry level. */
    method Enter()
      requires stack != rstack && -1 <= sp < stack.Length - 1 && 0 <= rp < rstack.Length
      modifies this, stack, rstack
      ensures stack[old(sp) + 2..] == old(stack[sp + 2..])
      ensures rstack[old(rp) + 1..] == old(rstack[rp + 1..])
      ensures ip == old(ip) && entry == old(entry)
    {
      var (savedIp, savedEntry) := (ip, entry);
      entry := rp;
      Handler();
      ip, entry := savedIp, savedEntry;
    }

    /** A signal may come; its handler runs 16 cells beyond both stacks. */
    method Signal()
      requires Valid()
      modifies this, stack, rstack
      ensures Valid() && sp == old(sp) && Guarded() == old(Guarded()) && Others() == old(Others())
    {
      if * {
        var (savedSp, savedRp) := (sp, rp);
        sp, rp := sp - OFFSET, rp - OFFSET;
        var signum: Cell := *;
        stack[sp] := signum;
        sp := sp - 1;
        Enter();
        sp, rp := savedSp, savedRp;
      }
    }

    // ----- accesses -----

    /** Reads the cell at index i. */
    method Load(i: int) returns (v: Cell)
      requires Valid() && sp - OFFSET < i < stack.Length
      modifies this, stack, rstack
      ensures Valid() && sp == old(sp) && Guarded() == old(Guarded()) && Others() == old(Others())
      ensures v == Guarded()[i - sp - 1 + OFFSET]
    {
      Signal();
      v := stack[i];
      Signal();
    }

    /** Writes the cell at index i. */
    method Put(i: int, v: Cell)
      requires Valid() && sp - OFFSET < i < stack.Length
      modifies this, stack, rstack
      ensures Valid() && sp == old(sp) && Others() == old(Others())
      ensures Guarded() == old(Guarded())[i - sp - 1 + OFFSET := v]
    {
      Signal();
      stack[i] := v;
      ghost var g := Guarded();
      Signal();
    }

    /** The stack pointer k cells up: cells are popped. */
    method Raise(k: nat)
      requires Valid() && sp + k < stack.Length
      modifies this, stack, rstack
      ensures Valid() && sp == old(sp) + k && Others() == old(Others())
      ensures Guarded() == old(Guarded())[k..]
    {
      Signal();
      ghost var g := Guarded();
      sp := sp + k;
      assert Guarded() == g[k..];
      Signal();
    }

    /** The stack pointer k cells down: cells beyond the stack become part of it. */
    method Lower(k: nat)
      requires Valid() && sp - k >= OFFSET
      modifies this, stack, rstack
      ensures Valid() && sp == old(sp) - k && Others() == old(Others())
      ensures Guarded()[k..] == old(Guarded())
    {
      Signal();
      ghost var g := Guarded();
      sp := sp - k;
      assert Guarded()[k..] == g;
      Signal();
    }

    // ----- the return stack -----

    /** The return stack, top first. */
    ghost function Saved(): (c: seq<Cell>)
      reads `rp, rstack
      requires OFFSET <= rp < rstack.Length
      ensures |c| == rstack.Length - rp - 1
    {
      rstack[rp + 1..]
    }

    /** The cells of the return stack that a signal leaves alone. */
    ghost function GuardedSaved(): (g: seq<Cell>)
      reads `rp, `ip, `entry, rstack
      requires OFFSET <= rp < rstack.Length
      ensures |g| == |Saved()| + OFFSET && g[OFFSET..] == Saved() && g == Others().cells && rp == Others().rp
    {
      rstack[rp + 1 - OFFSET..]
    }

    method LoadSaved(i: int) returns (v: Cell)
      requires Valid() && rp - OFFSET < i < rstack.Length
      modifies this, stack, rstack
      ensures Valid() && sp == old(sp) && Guarded() == old(Guarded()) && Others() == old(Others())
      ensures v == GuardedSaved()[i - rp - 1 + OFFSET]
    {
      Signal();
      v := rstack[i];
      ghost var g := GuardedSaved();
      Signal();
    }

    method PutSaved(i: int, v: Cell)
      requires Valid() && rp - OFFSET < i < rstack.Length
      modifies this, stack, rstack
      ensures Valid() && sp == old(sp) && Guarded() == old(Guarded())
      ensures Others() == old(Others()).(cells := old(GuardedSaved()[i - rp - 1 + OFFSET := v]))
    {
      Signal();
      rstack[i] := v;
      assert GuardedSaved() == old(GuardedSaved())[i - rp - 1 + OFFSET := v];
      Signal();
    }

    /** A signal, for what it leaves alone on the return stack. */
    method KeepSaved()
      requires Valid()
      modifies this, stack, rstack
      ensures Valid() && sp == old(sp) && Guarded() == old(Guarded()) && Others() == old(Others())
      ensures rp == old(rp) && GuardedSaved() == old(GuardedSaved())
    {
      ghost var g := GuardedSaved();
      Signal();
    }

    /** The return stack's pointer alone. */
    method SetRp(to: int)
      requires Valid() && OFFSET <= to < rstack.Length
      modifies `rp
      ensures Valid() && rp == to && sp == old(sp) && Guarded() == old(Guarded())
      ensures Others() == old(Others()).(rp := to, cells := GuardedSaved())
      ensures to >= old(rp) ==> GuardedSaved() == old(GuardedSaved())[to - old(rp)..]
      ensures to <= old(rp) ==> GuardedSaved()[old(rp) - to..] == old(GuardedSaved())
    {
      rp := to;
    }

    method RaiseRp(k: nat)
      requires Valid() && rp + k < rstack.Length
      modifies this, stack, rstack
      ensures Valid() && sp == old(sp) && Guarded() == old(Guarded())
      ensures Others() == old(Others()).(rp := old(rp) + k, cells := GuardedSaved())
      ensures GuardedSaved() == old(GuardedSaved())[k..]
    {
      hide Guarded, GuardedSaved, Saved, Contents;
      KeepSaved();
      SetRp(rp + k);
      KeepSaved();
    }

    method LowerRp(k: nat)
      requires Valid() && rp - k >= OFFSET
      modifies this, stack, rstack
      ensures Valid() && sp == old(sp) && Guarded() == old(Guarded())
      ensures Others() == old(Others()).(rp := old(rp) - k, cells := GuardedSaved())
      ensures GuardedSaved()[k..] == old(GuardedSaved())
    {
      hide Guarded, GuardedSaved, Saved, Contents;
      KeepSaved();
      SetRp(rp - k);
      KeepSaved();
    }
  }
}
