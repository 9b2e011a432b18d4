/** The static buffer that serves malloc and calloc while the real functions are looked up. */
module BootstrapBuffer {
  import opened Options
  import opened Words

  const CAPACITY := 65536

  type Byte = b: int | 0 <= b < 256

  /** A request served: its offset in the buffer and its length. */
  datatype Piece = Piece(offset: nat, length: nat)

  /** Whether the test of the code, with its addition in 64 bits, lets a request through. */
  predicate Admits(index: nat, length: nat) {
    Wrap(index + length) <= CAPACITY
  }

  /** The test is right exactly for the lengths whose sum with the index does not wrap. */
  lemma AdmitsIsExactWithoutWrap(index: nat, length: nat)
    requires index <= CAPACITY && length < WORD
    ensures (Admits(index, length) <==> index + length <= 65536)
            <==> !(index + length >= WORD)
  {
  }

  /** Once anything is served, some request far beyond the capacity is admitted. */
  lemma AdmitsCanWrap(index: nat)
    requires 0 < index <= CAPACITY
    ensures Admits(index, WORD - index) && index + (WORD - index) > CAPACITY
  {
  }

  /** How a zeroed request ends: served at an offset, refused, or storing past the end of the
      buffer, where the meaning of the program ends. */
  datatype Outcome = Served(offset: nat) | Refused | Overrun

  class BootstrapBuffer {
    const buffer: array<Byte>
    var index: nat
    ghost var pieces: seq<Piece>

    /** The pieces lie one behind the other below the index. */
    ghost predicate Valid()
      reads this
    {
      && buffer.Length == CAPACITY && index <= CAPACITY
      && (forall i :: 0 <= i < |pieces| ==> pieces[i].offset + pieces[i].length <= index)
      && forall i, j :: 0 <= i < j < |pieces| ==> pieces[i].offset + pieces[i].length <= pieces[j].offset
    }

    constructor ()
      ensures Valid() && pieces == [] && fresh(buffer)
    {
      buffer := new Byte[CAPACITY](_ => 0);
      index := 0;
      pieces := [];
    }

    /** Serve a request from behind the pieces served so far, or refuse it and change nothing.
        The pieces stay apart if and only if the sum in the test does not wrap. */
    method Malloc(size: nat) returns (p: Option<nat>)
      requires Valid() && size < WORD
      modifies this
      ensures p.Some? <==> Admits(old(index), size)
      ensures p.Some? ==> p.value == old(index)
      ensures if p.Some? then pieces == old(pieces) + [Piece(p.value, size)]
              else pieces == old(pieces) && index == old(index)
      ensures Valid() <==> old(index) + size < WORD
      ensures Valid() ==> (p.Some? <==> old(index) + size <= 65536)
    {
      if Wrap(index + size) <= CAPACITY {
        p := Some(index);
        pieces := pieces + [Piece(index, size)];
        index := Wrap(index + size);
        assert pieces[|pieces| - 1] == Piece(p.value, size);
      } else {
        p := None;
      }
    }

    /** The same for the product in 64 bits. A piece is zeroed and the rest of the buffer keeps
        its contents; the zeroing runs out of the buffer if and only if the test wraps. */
    method Calloc(count: nat, size: nat) returns (outcome: Outcome)
      requires Valid()
      modifies this, buffer
      ensures var total := Wrap(count * size);
              && (outcome.Overrun? <==> old(index) + total >= WORD)
              && (outcome.Served? <==> old(index) + total <= CAPACITY)
              && (outcome.Served? ==> Valid() && pieces == old(pieces) + [Piece(outcome.offset, total)])
              && (outcome.Refused? ==> Valid() && pieces == old(pieces) && index == old(index))
              && (!outcome.Overrun? ==>
                    forall k :: 0 <= k < CAPACITY ==>
                      buffer[k] ==
                      if outcome.Served? && outcome.offset <= k < outcome.offset + total then 0 else old(buffer[k]))
    {
      var total := Wrap(count * size);
      var p := Malloc(total);
      if p.None? {
        return Refused;
      }
      for i := 0 to total
        modifies buffer
        invariant p.value + i <= CAPACITY
        invariant forall k :: 0 <= k < CAPACITY ==>
                    buffer[k] == if p.value <= k < p.value + i then 0 else old(buffer[k])
      {
        if p.value + i == CAPACITY {
          return Overrun;
        }
        buffer[p.value + i] := 0;
      }
      outcome := Served(p.value);
    }
  }
}
