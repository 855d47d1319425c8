/** CATCH and THROW as they run, on stacks in arrays, against the functions of CatchThrow. */
module ExceptionWords {
  import opened Sequences
  import opened CatchThrow

  class Stacks {
    const data: array<int>
    const saved: array<int>
    var sp: int
    var rp: int
    var handler: int
    ghost var peak: int    // the highest that sp has been

    ghost predicate Good()
      reads this, data, saved
    {
      data != saved && State(data[..], sp, saved[..], rp, handler, peak).Valid()
    }

    /** Empty stacks of size cells, and no CATCH active. */
    constructor (size: nat)
      requires size > 0
      ensures Good() && fresh(data) && fresh(saved)
    {
      data, saved := new int[size], new int[size];
      sp, rp, handler := size - 1, size - 1, 0;
      peak := size - 1;
    }

    ghost function Now(): Valid
      reads this, data, saved
      requires Good()
    {
      State(data[..], sp, saved[..], rp, handler, peak)
    }

    /** The state is r if that is one; otherwise the word has stopped with an error. */
    ghost predicate Is(ok: bool, r: Option<Valid>)
      reads this, data, saved
    {
      Good() && ok == r.Some? && (ok ==> Now() == r.value)
    }

    method PushCell(v: int) returns (ok: bool)
      requires Good()
      modifies this, data
      ensures Is(ok, Push(old(Now()), v))
    {
      if sp < 0 { return false; }
      data[sp] := v;
      sp := sp - 1;
      ok := true;
    }

    method DropCell() returns (ok: bool, v: int)
      requires Good()
      modifies this
      ensures Is(ok, Drop(old(Now()))) && (ok ==> v == data[sp])
    {
      if sp + 1 >= data.Length { return false, 0; }
      sp := sp + 1;
      peak := Max(peak, sp);
      ok, v := true, data[sp];
    }

    method PushSaved(v: int) returns (ok: bool)
      requires Good()
      modifies this, saved
      ensures Is(ok, PushR(old(Now()), v))
    {
      if rp < 0 { return false; }
      saved[rp] := v;
      rp := rp - 1;
      ok := true;
    }

    method DropSaved() returns (ok: bool, v: int)
      requires Good()
      modifies this
      ensures Is(ok, DropR(old(Now()))) && (ok ==> v == saved[rp])
    {
      if rp + 1 >= saved.Length { return false, 0; }
      rp := rp + 1;
      ok, v := true, saved[rp];
    }

    method MoveToSaved() returns (ok: bool)
      requires Good()
      modifies this, saved
      ensures Is(ok, ToR(old(Now())))
    {
      var v;
      ok, v := DropCell();
      if ok { ok := PushSaved(v); }
    }

    method MoveFromSaved() returns (ok: bool)
      requires Good()
      modifies this, data
      ensures Is(ok, FromR(old(Now())))
    {
      var v;
      ok, v := DropSaved();
      if ok { ok := PushCell(v); }
    }

    method SetHandler() returns (ok: bool)
      requires Good()
      modifies this
      ensures Is(ok, HandlerStore(old(Now())))
    {
      var v;
      ok, v := DropCell();
      if ok { handler := v; }
    }

    method SetSp() returns (ok: bool)
      requires Good()
      modifies this
      ensures Is(ok, SpStore(old(Now())))
      ensures ok <==> old(sp) + 1 < data.Length && 1 <= old(data[sp + 1]) <= data.Length
      ensures ok ==> sp == old(data[sp + 1]) - 1
    {
      var v;
      ok, v := DropCell();
      if ok && 0 <= v - 1 < data.Length {
        sp := v - 1;
        peak := Max(peak, sp);
      } else {
        ok := false;
      }
    }

    method SetRp() returns (ok: bool)
      requires Good()
      modifies this
      ensures Is(ok, RpStore(old(Now())))
      ensures ok <==> old(sp) + 1 < data.Length && 1 <= old(data[sp + 1]) <= saved.Length
      ensures ok ==> rp == old(data[sp + 1]) - 1 && sp == old(sp) + 1
    {
      var v;
      ok, v := DropCell();
      if ok && 0 <= v - 1 < saved.Length { rp := v - 1; } else { ok := false; }
    }

    method SwapCells() returns (ok: bool)
      requires Good()
      modifies data
      ensures Is(ok, Swap(old(Now())))
    {
      if sp + 2 >= data.Length { return false; }
      data[sp + 1], data[sp + 2] := data[sp + 2], data[sp + 1];
      ok := true;
    }

    /** CATCH, from its call to the start of what it executes. */
    method BeginCatch(ra: int, own: int) returns (ok: bool)
      requires Good()
      modifies this, data, saved
      ensures Is(ok, EnterCatch(old(Now()), ra, own))
    {
      hide State.Valid, Push, Drop, PushR, ToR, HandlerStore;
      ok := PushSaved(ra);
      if ok { ok := PushCell(sp + 1); }
      if ok { ok := MoveToSaved(); }
      if ok { ok := PushCell(handler); }
      if ok { ok := MoveToSaved(); }
      if ok { ok := PushCell(rp + 1); }
      if ok { ok := SetHandler(); }
      var xt;
      if ok { ok, xt := DropCell(); }
      if ok { ok := PushSaved(own); }
    }

    /** CATCH, after what it executed has returned. */
    method EndCatch() returns (ok: bool)
      requires Good()
      modifies this, data
      ensures Is(ok, LeaveCatch(old(Now())))
    {
      hide State.Valid, Push, DropR, FromR, HandlerStore;
      ok := MoveFromSaved();
      if ok { ok := SetHandler(); }
      var v;
      if ok { ok, v := DropSaved(); }
      if ok { ok := PushCell(0); }
    }

    /** THROW of a code other than 0. */
    method ThrowCode() returns (ok: bool)
      requires Good()
      modifies this, data, saved
      ensures Is(ok, Throw(old(Now())))
    {
      hide State.Valid, Push, Drop, FromR, ToR, Swap, SpStore, RpStore, HandlerStore;
      ok := PushCell(handler);
      if ok { ok := SetRp(); }
      if ok { ok := MoveFromSaved(); }
      if ok { ok := SetHandler(); }
      if ok { ok := MoveFromSaved(); }
      if ok { ok := SwapCells(); }
      if ok { ok := MoveToSaved(); }
      if ok { ok := SetSp(); }
      var xt;
      if ok { ok, xt := DropCell(); }
      if ok { ok := MoveFromSaved(); }
    }
  }
}
