/** Words that move cells about, with signals between their accesses. */
module StackWords {
  import opened Cells
  import opened Machines

  /** DUP ( a -- a a ) */
  method Dup(m: Machine)
    requires m.Holds(1) && m.sp > OFFSET
    modifies m, m.stack, m.rstack
    ensures m.Valid() && m.Others() == old(m.Others()) && m.Contents() == old([m.Contents()[0]] + m.Contents())
  {
    hide Machine.Guarded, Machine.Contents, Machine.Others;
    ghost var g := m.Guarded();
    var ecx := m.Load(m.sp + 1);
    m.Put(m.sp, ecx);
    m.Lower(1);
    Pushed(g, ecx, m.Guarded());
  }

  lemma Pushed(g: seq<Cell>, v: Cell, e: seq<Cell>)
    requires |g| >= OFFSET && |e| == |g| + 1 && e[1..] == g[OFFSET - 1 := v]
    ensures e[OFFSET..] == [v] + g[OFFSET..]
  {
    assert e[OFFSET..] == e[1..][OFFSET - 1..];
  }

  /** OVER ( a b -- a b a ) */
  method Over(m: Machine)
    requires m.Holds(2) && m.sp > OFFSET
    modifies m, m.stack, m.rstack
    ensures m.Valid() && m.Others() == old(m.Others()) && m.Contents() == old([m.Contents()[1]] + m.Contents())
  {
    hide Machine.Guarded, Machine.Contents, Machine.Others;
    ghost var g := m.Guarded();
    var ecx := m.Load(m.sp + 2);
    m.Put(m.sp, ecx);
    m.Lower(1);
    Pushed(g, ecx, m.Guarded());
  }

  /** SWAP ( a b -- b a ) */
  method Swap(m: Machine)
    requires m.Holds(2)
    modifies m, m.stack, m.rstack
    ensures m.Rewrites(2) && m.Contents()[..2] == old([m.Contents()[1], m.Contents()[0]])
  {
    hide Machine.Guarded, Machine.Contents, Machine.Others;
    ghost var g := m.Guarded();
    var ecx := m.Load(m.sp + 1);
    var edx := m.Load(m.sp + 2);
    m.Put(m.sp + 2, ecx);
    m.Put(m.sp + 1, edx);
    Swapped(g, m.Guarded());
  }

  lemma Swapped(g: seq<Cell>, e: seq<Cell>)
    requires |g| >= OFFSET + 2 && e == g[OFFSET + 1 := g[OFFSET]][OFFSET := g[OFFSET + 1]]
    ensures e[..OFFSET] == g[..OFFSET] && e[OFFSET..][2..] == g[OFFSET..][2..]
    ensures e[OFFSET..][..2] == [g[OFFSET..][1], g[OFFSET..][0]]
  {
  }

  /** ROT ( a b c -- b c a ) */
  method Rot(m: Machine)
    requires m.Holds(3)
    modifies m, m.stack, m.rstack
    ensures m.Rewrites(3) && m.Contents()[..3] == old([m.Contents()[2], m.Contents()[0], m.Contents()[1]])
  {
    hide Machine.Guarded, Machine.Contents, Machine.Others;
    ghost var g := m.Guarded();
    var ecx := m.Load(m.sp + 3);
    var edx := m.Load(m.sp + 1);
    m.Put(m.sp + 1, ecx);
    ecx := m.Load(m.sp + 2);
    m.Put(m.sp + 2, edx);
    m.Put(m.sp + 3, ecx);
    Rotated(g, m.Guarded());
  }

  lemma Rotated(g: seq<Cell>, e: seq<Cell>)
    requires |g| >= OFFSET + 3 && e == g[OFFSET := g[OFFSET + 2]][OFFSET + 1 := g[OFFSET]][OFFSET + 2 := g[OFFSET + 1]]
    ensures e[..OFFSET] == g[..OFFSET] && e[OFFSET..][3..] == g[OFFSET..][3..]
    ensures e[OFFSET..][..3] == [g[OFFSET..][2], g[OFFSET..][0], g[OFFSET..][1]]
  {
  }

  /** 2DUP ( a b -- a b a b ): writes two cells beyond the stack before it moves the pointer. */
  method TwoDup(m: Machine)
    requires m.Holds(2) && m.sp > OFFSET + 1
    modifies m, m.stack, m.rstack
    ensures m.Valid() && m.Others() == old(m.Others()) && m.Contents() == old(m.Contents()[..2] + m.Contents())
  {
    hide Machine.Guarded, Machine.Contents, Machine.Others;
    ghost var g := m.Guarded();
    var edx := m.Load(m.sp + 1);
    var eax := m.Load(m.sp + 2);
    m.Put(m.sp, eax);
    m.Put(m.sp - 1, edx);
    m.Lower(2);
    PushedTwo(g, m.Guarded());
  }

  lemma PushedTwo(g: seq<Cell>, e: seq<Cell>)
    requires |g| >= OFFSET + 2 && |e| == |g| + 2 && e[2..] == g[OFFSET - 1 := g[OFFSET + 1]][OFFSET - 2 := g[OFFSET]]
    ensures e[OFFSET..] == g[OFFSET..][..2] + g[OFFSET..]
  {
    assert e[OFFSET..] == e[2..][OFFSET - 2..];
  }

  /** 2SWAP ( a b c d -- c d a b ) */
  method TwoSwap(m: Machine)
    requires m.Holds(4)
    modifies m, m.stack, m.rstack
    ensures m.Rewrites(4)
    ensures m.Contents()[..4] == old(m.Contents()[2..4] + m.Contents()[..2])
  {
    hide Machine.Guarded, Machine.Contents, Machine.Others;
    ghost var g := m.Guarded();
    var edx := m.Load(m.sp + 1);
    var eax := m.Load(m.sp + 2);
    var x := m.Load(m.sp + 3);
    m.Put(m.sp + 3, edx);
    var y := m.Load(m.sp + 4);
    m.Put(m.sp + 4, eax);
    m.Put(m.sp + 2, y);
    m.Put(m.sp + 1, x);
    SwappedTwo(g, m.Guarded());
  }

  lemma SwappedTwo(g: seq<Cell>, e: seq<Cell>)
    requires |g| >= OFFSET + 4
    requires e == g[OFFSET + 2 := g[OFFSET]][OFFSET + 3 := g[OFFSET + 1]]
                  [OFFSET + 1 := g[OFFSET + 3]][OFFSET := g[OFFSET + 2]]
    ensures e[..OFFSET] == g[..OFFSET] && e[OFFSET..][4..] == g[OFFSET..][4..]
    ensures e[OFFSET..][..4] == g[OFFSET..][2..4] + g[OFFSET..][..2]
  {
  }

  /** >R ( a -- ) (R: -- a) */
  method ToR(m: Machine)
    requires m.Holds(1) && m.rp > OFFSET
    modifies m, m.stack, m.rstack
    ensures m.Valid() && m.ip == old(m.ip) && m.entry == old(m.entry)
    ensures m.Contents() == old(m.Contents()[1..]) && m.Saved() == old([m.Contents()[0]] + m.Saved())
  {
    hide Machine.Guarded, Machine.Contents, Machine.GuardedSaved, Machine.Saved;
    ghost var g := m.GuardedSaved();
    var ecx := m.Load(m.sp + 1);
    m.PutSaved(m.rp, ecx);
    m.LowerRp(1);
    Pushed(g, ecx, m.GuardedSaved());
    ghost var h := m.GuardedSaved();
    m.Raise(1);
    assert m.GuardedSaved() == h;
  }

  /** R> ( -- a ) (R: a -- ): moves the return stack's pointer before it reads. */
  method FromR(m: Machine)
    requires m.Valid() && m.sp > OFFSET && |m.Saved()| >= 1
    modifies m, m.stack, m.rstack
    ensures m.Valid() && m.ip == old(m.ip) && m.entry == old(m.entry)
    ensures m.Contents() == old([m.Saved()[0]] + m.Contents()) && m.Saved() == old(m.Saved()[1..])
  {
    hide Machine.Guarded, Machine.Contents, Machine.GuardedSaved, Machine.Saved;
    ghost var (g, r) := (m.Guarded(), m.GuardedSaved());
    m.RaiseRp(1);
    var ecx := m.LoadSaved(m.rp);
    m.Put(m.sp, ecx);
    m.Lower(1);
    Pushed(g, ecx, m.Guarded());
    assert m.GuardedSaved() == r[1..];
  }
}
