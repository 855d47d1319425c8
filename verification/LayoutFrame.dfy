/**
 * Which bytes of a statement's code are still to be written (the operands of its
 * LEAVEs and RECURSEs), and that writing them changes nothing of the layout.
 */
module LayoutFrame {
  import opened Cells
  import opened ByteCode
  import opened Structured

  /**
   * i is in an operand of s at p that is resolved later: a RECURSE, or (if outer) a
   * LEAVE of the loop around s.
   */
  predicate OpenByte(s: Stmt, p: nat, i: nat, outer: bool)
    ensures OpenByte(s, p, i, outer) ==> p <= i < p + Size(s)
    decreases s
  {
    hide Size, ChainSize;
    SizeOf(s);
    match s
    case Seq(a, b) => OpenByte(a, p, i, outer) || OpenByte(b, p + Size(a), i, outer)
    case SelfCall => p + 1 <= i < p + 5
    case LeaveLoop => outer && p + 2 <= i < p + 6
    case IfThen(a) => OpenByte(a, p + 5, i, outer)
    case IfThenElse(a, b) => OpenByte(a, p + 5, i, outer) || OpenByte(b, p + 5 + Size(a) + 5, i, outer)
    case BeginUntil(a) => OpenByte(a, p, i, outer)
    case BeginAgain(a) => OpenByte(a, p, i, outer)
    case BeginWhile(a, b) => OpenByte(a, p, i, outer) || OpenByte(b, p + Size(a) + 5, i, outer)
    case DoLoop(query, a, _) => OpenByte(a, p + DoSize(query), i, false)
    case CaseOf(ch) => ChainOpenByte(ch, p, i, outer, false)
    case _ => false
  }

  /** The same for a chain; if own, with the ENDOFs of the chain itself. */
  predicate ChainOpenByte(ch: Chain, p: nat, i: nat, outer: bool, own: bool)
    ensures ChainOpenByte(ch, p, i, outer, own) ==> p <= i < p + ChainSize(ch)
    decreases ch
  {
    hide Size, ChainSize;
    ChainSizeOf(ch);
    match ch
    case Default(a) => OpenByte(a, p, i, outer)
    case OfClause(t, a, rest) =>
      var n := p + Size(t) + 8 + Size(a);
      || OpenByte(t, p, i, outer) || OpenByte(a, p + Size(t) + 8, i, outer)
      || (own && n + 1 <= i < n + 5) || ChainOpenByte(rest, n + 5, i, outer, own)
  }

  /** One step of OpenByte, for proofs in which it is hidden. */
  lemma OpenOf(s: Stmt, p: nat, i: nat, outer: bool)
    ensures OpenByte(s, p, i, outer) <==> (
              match s
              case Seq(a, b) => OpenByte(a, p, i, outer) || OpenByte(b, p + Size(a), i, outer)
              case SelfCall => p + 1 <= i < p + 5
              case LeaveLoop => outer && p + 2 <= i < p + 6
              case IfThen(a) => OpenByte(a, p + 5, i, outer)
              case IfThenElse(a, b) => OpenByte(a, p + 5, i, outer) || OpenByte(b, p + 5 + Size(a) + 5, i, outer)
              case BeginUntil(a) => OpenByte(a, p, i, outer)
              case BeginAgain(a) => OpenByte(a, p, i, outer)
              case BeginWhile(a, b) => OpenByte(a, p, i, outer) || OpenByte(b, p + Size(a) + 5, i, outer)
              case DoLoop(query, a, _) => OpenByte(a, p + DoSize(query), i, false)
              case CaseOf(ch) => ChainOpenByte(ch, p, i, outer, false)
              case _ => false)
  {
    hide Size, ChainSize;
  }

  lemma ChainOpenOf(ch: Chain, p: nat, i: nat, outer: bool, own: bool)
    ensures ChainOpenByte(ch, p, i, outer, own) <==> (
              match ch
              case Default(a) => OpenByte(a, p, i, outer)
              case OfClause(t, a, rest) =>
                var n := p + Size(t) + 8 + Size(a);
                || OpenByte(t, p, i, outer) || OpenByte(a, p + Size(t) + 8, i, outer)
                || (own && n + 1 <= i < n + 5) || ChainOpenByte(rest, n + 5, i, outer, own))
  {
    hide Size, ChainSize;
  }

  /** The jump with operand h lies inside [lo, hi). */
  predicate JumpInside(h: nat, lo: nat, hi: nat) {
    lo < h && h + 4 <= hi
  }

  /** A LEAVE's operand is open as seen from around the statement, and apart from every RECURSE. */
  lemma {:induction false} LeaveOpen(s: Stmt, p: nat, h: nat)
    requires h in Leaves(s, p)
    ensures JumpInside(h, p, p + Size(s))
    ensures forall i: nat | h <= i < h + 4 :: OpenByte(s, p, i, true)
    ensures forall i: nat | h - 1 <= i < h + 4 :: !OpenByte(s, p, i, false)
    decreases s
  {
    hide Size, ChainSize;
    SizeOf(s);
    match s
    case Seq(a, b) => if h in Leaves(a, p) { LeaveOpen(a, p, h); } else { LeaveOpen(b, p + Size(a), h); }
    case IfThen(a) => LeaveOpen(a, p + 5, h);
    case IfThenElse(a, b) =>
      if h in Leaves(a, p + 5) { LeaveOpen(a, p + 5, h); } else { LeaveOpen(b, p + 5 + Size(a) + 5, h); }
    case BeginUntil(a) => LeaveOpen(a, p, h);
    case BeginAgain(a) => LeaveOpen(a, p, h);
    case BeginWhile(a, b) =>
      if h in Leaves(a, p) { LeaveOpen(a, p, h); } else { LeaveOpen(b, p + Size(a) + 5, h); }
    case CaseOf(ch) => ChainLeaveOpen(ch, p, h);
    case _ =>
  }

  lemma {:induction false} ChainLeaveOpen(ch: Chain, p: nat, h: nat)
    requires h in ChainLeaves(ch, p)
    ensures JumpInside(h, p, p + ChainSize(ch))
    ensures forall i: nat | h <= i < h + 4 :: ChainOpenByte(ch, p, i, true, false)
    ensures forall i: nat | h - 1 <= i < h + 4 :: !ChainOpenByte(ch, p, i, false, false)
    decreases ch
  {
    hide Size, ChainSize;
    ChainSizeOf(ch);
    match ch
    case Default(a) => LeaveOpen(a, p, h);
    case OfClause(t, a, rest) =>
      var m := p + Size(t) + 8;
      if h in Leaves(t, p) { LeaveOpen(t, p, h); }
      else if h in Leaves(a, m) { LeaveOpen(a, m, h); }
      else { ChainLeaveOpen(rest, m + Size(a) + 5, h); }
  }

  /** A RECURSE's operand is open. */
  lemma {:induction false} RecOpen(s: Stmt, p: nat, h: nat)
    requires h in Recs(s, p)
    ensures JumpInside(h, p, p + Size(s))
    ensures forall i: nat | h <= i < h + 4 :: OpenByte(s, p, i, false)
    decreases s
  {
    hide Size, ChainSize;
    SizeOf(s);
    match s
    case Seq(a, b) => if h in Recs(a, p) { RecOpen(a, p, h); } else { RecOpen(b, p + Size(a), h); }
    case IfThen(a) => RecOpen(a, p + 5, h);
    case IfThenElse(a, b) =>
      if h in Recs(a, p + 5) { RecOpen(a, p + 5, h); } else { RecOpen(b, p + 5 + Size(a) + 5, h); }
    case BeginUntil(a) => RecOpen(a, p, h);
    case BeginAgain(a) => RecOpen(a, p, h);
    case BeginWhile(a, b) =>
      if h in Recs(a, p) { RecOpen(a, p, h); } else { RecOpen(b, p + Size(a) + 5, h); }
    case DoLoop(query, a, _) => RecOpen(a, p + DoSize(query), h);
    case CaseOf(ch) => ChainRecOpen(ch, p, h);
    case _ =>
  }

  lemma {:induction false} ChainRecOpen(ch: Chain, p: nat, h: nat)
    requires h in ChainRecs(ch, p)
    ensures JumpInside(h, p, p + ChainSize(ch))
    ensures forall i: nat | h <= i < h + 4 :: ChainOpenByte(ch, p, i, false, false)
    decreases ch
  {
    hide Size, ChainSize;
    ChainSizeOf(ch);
    match ch
    case Default(a) => RecOpen(a, p, h);
    case OfClause(t, a, rest) =>
      var m := p + Size(t) + 8;
      if h in Recs(t, p) { RecOpen(t, p, h); }
      else if h in Recs(a, m) { RecOpen(a, m, h); }
      else { ChainRecOpen(rest, m + Size(a) + 5, h); }
  }

  /** The operand of an ENDOF, as seen while its ENDCASE is still to come. */
  lemma {:induction false} EndOfOpen(ch: Chain, p: nat, h: nat)
    requires h in EndOfs(ch, p)
    ensures forall i: nat | h <= i < h + 4 :: ChainOpenByte(ch, p, i, true, true)
    decreases ch
  {
    match ch
    case OfClause(t, a, rest) =>
      var n := p + Size(t) + 8 + Size(a);
      if h != n + 1 { EndOfOpen(rest, n + 5, h); }
    case _ =>
  }

  /** The jump of an ENDOF is no LEAVE and no RECURSE. */
  lemma {:induction false} EndOfClosed(ch: Chain, p: nat, h: nat, outer: bool)
    requires h in EndOfs(ch, p)
    ensures JumpInside(h, p, p + ChainSize(ch))
    ensures forall i: nat | h - 1 <= i < h + 4 :: !ChainOpenByte(ch, p, i, outer, false)
    decreases ch
  {
    hide Size, ChainSize;
    ChainSizeOf(ch);
    match ch
    case OfClause(t, a, rest) =>
      var n := p + Size(t) + 8 + Size(a);
      if h != n + 1 { EndOfClosed(rest, n + 5, h, outer); }
    case _ =>
  }

  // ----- writing open bytes -----

  /** Two codes agree on [lo, hi). */
  predicate Same(code: seq<Byte>, code': seq<Byte>, lo: int, hi: int) {
    |code| <= |code'| && forall i: nat | lo <= i < hi && i < |code| :: code'[i] == code[i]
  }

  /** Two codes agree on the bytes of s at p that are not open. */
  ghost predicate SameClosed(code: seq<Byte>, code': seq<Byte>, s: Stmt, p: nat, outer: bool) {
    && |code| <= |code'|
    && forall i: nat | p <= i < p + Size(s) && i < |code| :: OpenByte(s, p, i, outer) || code'[i] == code[i]
  }

  ghost predicate ChainSameClosed(code: seq<Byte>, code': seq<Byte>, ch: Chain, p: nat, outer: bool, own: bool) {
    && |code| <= |code'|
    && forall i: nat | p <= i < p + ChainSize(ch) && i < |code| ::
         ChainOpenByte(ch, p, i, outer, own) || code'[i] == code[i]
  }

  lemma CellSame(code: seq<Byte>, code': seq<Byte>, p: nat, op: Byte, n: Cell)
    requires Same(code, code', p, p + 5) && CellAt(code, p, op, n)
    ensures CellAt(code', p, op, n)
  {
    assert code'[p + 1..p + 5] == code[p + 1..p + 5];
  }

  lemma AllToSame(code: seq<Byte>, code': seq<Byte>, hs: seq<nat>, t: nat)
    requires AllTo(code, hs, t) && forall h: nat | h in hs :: Same(code, code', h - 1, h + 4)
    ensures AllTo(code', hs, t)
  {
    forall h: nat | h in hs ensures h >= 1 && JumpAt(code', h - 1, OP_JMP, t) {
      CellSame(code, code', h - 1, OP_JMP, Wrap(t - (h - 1)));
    }
  }

  // the parts of a statement that may be looked at one by one

  /** A part of a statement, if what is open of the whole there is open of the part. */
  lemma PartClosed(code: seq<Byte>, code': seq<Byte>, s: Stmt, p: nat, outer: bool, a: Stmt, q: nat)
    requires SameClosed(code, code', s, p, outer) && p <= q && q + Size(a) <= p + Size(s)
    requires forall i: nat | q <= i < q + Size(a) && OpenByte(s, p, i, outer) :: OpenByte(a, q, i, outer)
    ensures SameClosed(code, code', a, q, outer)
  {
    hide OpenByte, Size;
  }

  /** Bytes of a statement of which none is open. */
  lemma PieceSame(code: seq<Byte>, code': seq<Byte>, s: Stmt, p: nat, outer: bool, lo: nat, hi: nat)
    requires SameClosed(code, code', s, p, outer) && p <= lo && hi <= p + Size(s)
    requires forall i: nat | lo <= i < hi :: !OpenByte(s, p, i, outer)
    ensures Same(code, code', lo, hi)
  {
    hide OpenByte, Size;
  }

  lemma SplitSeq(code: seq<Byte>, code': seq<Byte>, a: Stmt, b: Stmt, p: nat, outer: bool)
    requires SameClosed(code, code', Seq(a, b), p, outer)
    ensures SameClosed(code, code', a, p, outer) && SameClosed(code, code', b, p + Size(a), outer)
  {
    hide OpenByte, ChainOpenByte, Size, ChainSize, SameClosed;
    var (s, q) := (Seq(a, b), p + Size(a));
    SizeOf(s);
    forall i: nat | p <= i < p + Size(a) && OpenByte(s, p, i, outer) ensures OpenByte(a, p, i, outer) {
      OpenOf(s, p, i, outer);
    }
    forall i: nat | q <= i < q + Size(b) && OpenByte(s, p, i, outer) ensures OpenByte(b, q, i, outer) {
      OpenOf(s, p, i, outer);
    }
    PartClosed(code, code', s, p, outer, a, p);
    PartClosed(code, code', s, p, outer, b, q);
  }

  lemma SplitIf(code: seq<Byte>, code': seq<Byte>, a: Stmt, p: nat, outer: bool)
    requires SameClosed(code, code', IfThen(a), p, outer)
    ensures Same(code, code', p, p + 5) && SameClosed(code, code', a, p + 5, outer)
  {
    hide OpenByte, ChainOpenByte, Size, ChainSize;
    SizeOf(IfThen(a));
    forall i: nat ensures OpenByte(IfThen(a), p, i, outer) <==> OpenByte(a, p + 5, i, outer) {
      OpenOf(IfThen(a), p, i, outer);
    }
  }

  lemma SplitIfElse(code: seq<Byte>, code': seq<Byte>, a: Stmt, b: Stmt, p: nat, outer: bool)
    requires SameClosed(code, code', IfThenElse(a, b), p, outer)
    ensures var m := p + 5 + Size(a);
            && Same(code, code', p, p + 5) && SameClosed(code, code', a, p + 5, outer)
            && Same(code, code', m, m + 5) && SameClosed(code, code', b, m + 5, outer)
  {
    hide OpenByte, ChainOpenByte, Size, ChainSize, SameClosed, Same;
    var (s, m) := (IfThenElse(a, b), p + 5 + Size(a));
    SizeOf(s);
    forall i: nat | p + 5 <= i < m && OpenByte(s, p, i, outer) ensures OpenByte(a, p + 5, i, outer) {
      OpenOf(s, p, i, outer);
    }
    forall i: nat | m + 5 <= i < m + 5 + Size(b) && OpenByte(s, p, i, outer) ensures OpenByte(b, m + 5, i, outer) {
      OpenOf(s, p, i, outer);
    }
    forall i: nat | p <= i < p + 5 || m <= i < m + 5 ensures !OpenByte(s, p, i, outer) {
      OpenOf(s, p, i, outer);
    }
    PartClosed(code, code', s, p, outer, a, p + 5);
    PartClosed(code, code', s, p, outer, b, m + 5);
    PieceSame(code, code', s, p, outer, p, p + 5);
    PieceSame(code, code', s, p, outer, m, m + 5);
  }

  lemma SplitBack(code: seq<Byte>, code': seq<Byte>, s: Stmt, a: Stmt, p: nat, outer: bool)
    requires s == BeginUntil(a) || s == BeginAgain(a)
    requires SameClosed(code, code', s, p, outer)
    ensures SameClosed(code, code', a, p, outer) && Same(code, code', p + Size(a), p + Size(a) + 5)
  {
    hide OpenByte, ChainOpenByte, Size, ChainSize;
    SizeOf(s);
    forall i: nat ensures OpenByte(s, p, i, outer) <==> OpenByte(a, p, i, outer) {
      OpenOf(s, p, i, outer);
    }
  }

  lemma SplitWhile(code: seq<Byte>, code': seq<Byte>, a: Stmt, b: Stmt, p: nat, outer: bool)
    requires SameClosed(code, code', BeginWhile(a, b), p, outer)
    ensures var m := p + Size(a);
            && SameClosed(code, code', a, p, outer) && Same(code, code', m, m + 5)
            && SameClosed(code, code', b, m + 5, outer) && Same(code, code', m + 5 + Size(b), m + 5 + Size(b) + 5)
  {
    hide OpenByte, ChainOpenByte, Size, ChainSize, SameClosed, Same;
    var (s, m) := (BeginWhile(a, b), p + Size(a));
    var n := m + 5 + Size(b);
    SizeOf(s);
    forall i: nat | p <= i < m && OpenByte(s, p, i, outer) ensures OpenByte(a, p, i, outer) {
      OpenOf(s, p, i, outer);
    }
    forall i: nat | m + 5 <= i < n && OpenByte(s, p, i, outer) ensures OpenByte(b, m + 5, i, outer) {
      OpenOf(s, p, i, outer);
    }
    forall i: nat | m <= i < m + 5 || n <= i < n + 5 ensures !OpenByte(s, p, i, outer) {
      OpenOf(s, p, i, outer);
    }
    PartClosed(code, code', s, p, outer, a, p);
    PartClosed(code, code', s, p, outer, b, m + 5);
    PieceSame(code, code', s, p, outer, m, m + 5);
    PieceSame(code, code', s, p, outer, n, n + 5);
  }

  lemma SplitDo(code: seq<Byte>, code': seq<Byte>, query: bool, a: Stmt, plus: bool, p: nat, outer: bool)
    requires SameClosed(code, code', DoLoop(query, a, plus), p, outer)
    ensures var m := p + DoSize(query);
            && Same(code, code', p, m) && SameClosed(code, code', a, m, false)
            && Same(code, code', m + Size(a), m + Size(a) + 1)
  {
    hide OpenByte, Size;
    SizeOf(DoLoop(query, a, plus));
    forall i: nat ensures OpenByte(DoLoop(query, a, plus), p, i, outer) <==> OpenByte(a, p + DoSize(query), i, false) {
      OpenOf(DoLoop(query, a, plus), p, i, outer);
    }
  }

  lemma LeavesSame(code: seq<Byte>, code': seq<Byte>, a: Stmt, m: nat)
    requires SameClosed(code, code', a, m, false)
    ensures forall h: nat | h in Leaves(a, m) :: Same(code, code', h - 1, h + 4)
  {
    forall h: nat | h in Leaves(a, m) ensures Same(code, code', h - 1, h + 4) {
      LeaveOpen(a, m, h);
    }
  }

  lemma SplitCase(code: seq<Byte>, code': seq<Byte>, ch: Chain, p: nat, outer: bool)
    requires SameClosed(code, code', CaseOf(ch), p, outer)
    ensures ChainSameClosed(code, code', ch, p, outer, false)
  {
    hide OpenByte, ChainOpenByte, Size, ChainSize;
    SizeOf(CaseOf(ch));
    forall i: nat ensures OpenByte(CaseOf(ch), p, i, outer) <==> ChainOpenByte(ch, p, i, outer, false) {
      OpenOf(CaseOf(ch), p, i, outer);
    }
  }

  lemma EndOfsSame(code: seq<Byte>, code': seq<Byte>, ch: Chain, p: nat, outer: bool)
    requires ChainSameClosed(code, code', ch, p, outer, false)
    ensures forall h: nat | h in EndOfs(ch, p) :: Same(code, code', h - 1, h + 4)
  {
    hide ChainOpenByte, ChainSize;
    forall h: nat | h in EndOfs(ch, p) ensures Same(code, code', h - 1, h + 4) {
      EndOfClosed(ch, p, h, outer);
    }
  }

  lemma SplitOf(code: seq<Byte>, code': seq<Byte>, t: Stmt, a: Stmt, rest: Chain, p: nat, outer: bool, own: bool)
    requires ChainSameClosed(code, code', OfClause(t, a, rest), p, outer, own)
    ensures var m := p + Size(t); var n := m + 8 + Size(a);
            && SameClosed(code, code', t, p, outer) && Same(code, code', m, m + 8)
            && SameClosed(code, code', a, m + 8, outer) && Same(code, code', n, n + 1)
            && ChainSameClosed(code, code', rest, n + 5, outer, own)
  {
    hide OpenByte, ChainOpenByte, Size, ChainSize;
    ChainSizeOf(OfClause(t, a, rest));
    forall i: nat ensures ChainOpenByte(OfClause(t, a, rest), p, i, outer, own) <==> (
      OpenByte(t, p, i, outer) || OpenByte(a, p + Size(t) + 8, i, outer)
      || (own && p + Size(t) + 8 + Size(a) + 1 <= i < p + Size(t) + 8 + Size(a) + 5)
      || ChainOpenByte(rest, p + Size(t) + 8 + Size(a) + 5, i, outer, own)) {
      ChainOpenOf(OfClause(t, a, rest), p, i, outer, own);
    }
  }

  lemma SplitDefault(code: seq<Byte>, code': seq<Byte>, a: Stmt, p: nat, outer: bool, own: bool)
    requires ChainSameClosed(code, code', Default(a), p, outer, own)
    ensures SameClosed(code, code', a, p, outer) && Same(code, code', p + Size(a), p + Size(a) + 1)
  {
    hide OpenByte, ChainOpenByte, Size, ChainSize;
    ChainSizeOf(Default(a));
    forall i: nat ensures ChainOpenByte(Default(a), p, i, outer, own) <==> OpenByte(a, p, i, outer) {
      ChainOpenOf(Default(a), p, i, outer, own);
    }
  }

  /** Writing open operands keeps the layout. */
  lemma {:induction false} LayoutSame(env: seq<Cell>, code: seq<Byte>, code': seq<Byte>, s: Stmt, p: nat, outer: bool)
    requires Layout(env, code, s, p) && SameClosed(code, code', s, p, outer)
    ensures Layout(env, code', s, p)
    decreases s
  {
    LayoutOf(env, code, s, p);
    LayoutOf(env, code', s, p);
    hide Layout, SameClosed, Same, Size, ChainSize, JumpAt, AllTo, QueryLayout, DoLayout;
    match s
    case Seq(a, b) =>
      SplitSeq(code, code', a, b, p, outer);
      LayoutSame(env, code, code', a, p, outer);
      LayoutSame(env, code, code', b, p + Size(a), outer);
    case IfThen(a) =>
      SplitIf(code, code', a, p, outer);
      JumpSame(code, code', p, OP_JZ, p + 5 + Size(a));
      LayoutSame(env, code, code', a, p + 5, outer);
    case IfThenElse(a, b) => IfElseSame(env, code, code', a, b, p, outer);
    case BeginUntil(a) =>
      SplitBack(code, code', s, a, p, outer);
      JumpSame(code, code', p + Size(a), OP_JZ, p);
      LayoutSame(env, code, code', a, p, outer);
    case BeginAgain(a) =>
      SplitBack(code, code', s, a, p, outer);
      JumpSame(code, code', p + Size(a), OP_JMP, p);
      LayoutSame(env, code, code', a, p, outer);
    case BeginWhile(a, b) => WhileSame(env, code, code', a, b, p, outer);
    case DoLoop(query, a, plus) => LoopSame(env, code, code', query, a, plus, p, outer);
    case CaseOf(ch) =>
      SplitCase(code, code', ch, p, outer);
      ChainLayoutSame(env, code, code', ch, p, outer, false);
      EndOfsSame(code, code', ch, p, outer);
      AllToSame(code, code', EndOfs(ch, p), p + ChainSize(ch));
    case _ => LeafSame(env, code, code', s, p, outer);
  }

  lemma {:induction false} IfElseSame(env: seq<Cell>, code: seq<Byte>, code': seq<Byte>, a: Stmt, b: Stmt, p: nat,
                                      outer: bool)
    requires Layout(env, code, IfThenElse(a, b), p) && SameClosed(code, code', IfThenElse(a, b), p, outer)
    ensures Layout(env, code', IfThenElse(a, b), p)
    decreases IfThenElse(a, b), 0
  {
    LayoutOf(env, code, IfThenElse(a, b), p);
    LayoutOf(env, code', IfThenElse(a, b), p);
    hide Layout, SameClosed, Same, Size, JumpAt, AllTo, QueryLayout, DoLayout;
    SplitIfElse(code, code', a, b, p, outer);
    var m := p + 5 + Size(a);
    JumpSame(code, code', p, OP_JZ, m + 5);
    JumpSame(code, code', m, OP_JMP, m + 5 + Size(b));
    LayoutSame(env, code, code', a, p + 5, outer);
    LayoutSame(env, code, code', b, m + 5, outer);
  }

  lemma {:induction false} WhileSame(env: seq<Cell>, code: seq<Byte>, code': seq<Byte>, a: Stmt, b: Stmt, p: nat,
                                     outer: bool)
    requires Layout(env, code, BeginWhile(a, b), p) && SameClosed(code, code', BeginWhile(a, b), p, outer)
    ensures Layout(env, code', BeginWhile(a, b), p)
    decreases BeginWhile(a, b), 0
  {
    LayoutOf(env, code, BeginWhile(a, b), p);
    LayoutOf(env, code', BeginWhile(a, b), p);
    hide Layout, SameClosed, Same, Size, JumpAt, AllTo, QueryLayout, DoLayout;
    SplitWhile(code, code', a, b, p, outer);
    var m := p + Size(a);
    JumpSame(code, code', m, OP_JZ, m + 5 + Size(b) + 5);
    JumpSame(code, code', m + 5 + Size(b), OP_JMP, p);
    LayoutSame(env, code, code', a, p, outer);
    LayoutSame(env, code, code', b, m + 5, outer);
  }

  lemma {:induction false} LoopSame(env: seq<Cell>, code: seq<Byte>, code': seq<Byte>, query: bool, a: Stmt,
                                    plus: bool, p: nat, outer: bool)
    requires Layout(env, code, DoLoop(query, a, plus), p) && SameClosed(code, code', DoLoop(query, a, plus), p, outer)
    ensures Layout(env, code', DoLoop(query, a, plus), p)
    decreases DoLoop(query, a, plus), 0
  {
    LayoutOf(env, code, DoLoop(query, a, plus), p);
    LayoutOf(env, code', DoLoop(query, a, plus), p);
    hide Layout, SameClosed, Same, Size, JumpAt, AllTo, QueryLayout, DoLayout;
    SplitDo(code, code', query, a, plus, p, outer);
    var m := p + DoSize(query);
    LayoutSame(env, code, code', a, m, false);
    LeavesSame(code, code', a, m);
    AllToSame(code, code', Leaves(a, m), m + Size(a) + 1);
    DoSame(code, code', query, p, m + Size(a) + 1);
    ByteSame(code, code', m + Size(a));
  }

  lemma JumpSame(code: seq<Byte>, code': seq<Byte>, p: nat, op: Byte, t: nat)
    requires Same(code, code', p, p + 5) && JumpAt(code, p, op, t)
    ensures JumpAt(code', p, op, t)
  {
    CellSame(code, code', p, op, Wrap(t - p));
  }

  lemma ByteSame(code: seq<Byte>, code': seq<Byte>, p: nat)
    requires Same(code, code', p, p + 1) && p < |code|
    ensures p < |code'| && code'[p] == code[p]
  {
  }

  lemma DoSame(code: seq<Byte>, code': seq<Byte>, query: bool, p: nat, end: nat)
    requires Same(code, code', p, p + DoSize(query))
    requires (query ==> QueryLayout(code, p, end)) && DoLayout(code, p + DoSize(query) - 3)
    ensures (query ==> QueryLayout(code', p, end)) && DoLayout(code', p + DoSize(query) - 3)
  {
    if query {
      JumpSame(code, code', p + 2, OP_JZ, p + 13);
      JumpSame(code, code', p + 8, OP_JMP, end);
    }
  }

  lemma LeafSame(env: seq<Cell>, code: seq<Byte>, code': seq<Byte>, s: Stmt, p: nat, outer: bool)
    requires Layout(env, code, s, p) && SameClosed(code, code', s, p, outer)
    requires s.Nop? || s.Word? || s.Lit? || s.Call? || s.SelfCall? || s.Return? || s.DropLoop? || s.LeaveLoop?
    ensures Layout(env, code', s, p)
  {
    if s.Lit? || s.Call? {
      assert Same(code, code', p, p + 5);
      CellSame(code, code', p, code[p], Operand(code, p));
    }
  }

  lemma {:induction false} ChainLayoutSame(env: seq<Cell>, code: seq<Byte>, code': seq<Byte>, ch: Chain, p: nat,
                                           outer: bool, own: bool)
    requires ChainLayout(env, code, ch, p) && ChainSameClosed(code, code', ch, p, outer, own)
    ensures ChainLayout(env, code', ch, p)
    decreases ch
  {
    ChainLayoutOf(env, code, ch, p);
    ChainLayoutOf(env, code', ch, p);
    hide Layout, ChainLayout, SameClosed, ChainSameClosed, Same, Size, ChainSize, OfLayout;
    match ch
    case Default(a) =>
      SplitDefault(code, code', a, p, outer, own);
      LayoutSame(env, code, code', a, p, outer);
      ByteSame(code, code', p + Size(a));
    case OfClause(t, a, rest) =>
      SplitOf(code, code', t, a, rest, p, outer, own);
      var m := p + Size(t);
      var n := m + 8 + Size(a);
      LayoutSame(env, code, code', t, p, outer);
      OfSame(code, code', m, n + 5);
      LayoutSame(env, code, code', a, m + 8, outer);
      ByteSame(code, code', n);
      LongerSame(code, code', n);
      ChainLayoutSame(env, code, code', rest, n + 5, outer, own);
  }

  lemma LongerSame(code: seq<Byte>, code': seq<Byte>, n: nat)
    requires Same(code, code', n, n + 1)
    ensures |code| <= |code'|
  {
  }

  lemma OfSame(code: seq<Byte>, code': seq<Byte>, m: nat, next: nat)
    requires Same(code, code', m, m + 8) && OfLayout(code, m, next)
    ensures OfLayout(code', m, next)
  {
    JumpSame(code, code', m + 2, OP_JZ, next);
  }
}
