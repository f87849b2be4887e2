/** The fixed block a session reads into: unread bytes sit between two cursors. */
module HeadBuffer {
  import opened Bits
  import opened Frame

  class HeadBuffer {
    const data: array<Byte>
    var r: nat
    var w: nat

    ghost predicate Valid()
      reads this
    {
      r <= w <= data.Length
    }

    /** The unread bytes. */
    function View(): (s: seq<Byte>)
      requires Valid()
      reads this, data
      ensures |s| == w - r
    {
      data[r..w]
    }

    constructor (capacity: nat, initial: seq<Byte>)
      requires |initial| <= capacity
      ensures Valid() && View() == initial && data.Length == capacity && fresh(data)
    {
      data := new Byte[capacity](i requires 0 <= i => if i < |initial| then initial[i] else 0);
      r, w := 0, |initial|;
      new;
      assert data[..|initial|] == initial;
    }

    /** Move the unread bytes to the front of the block. */
    method Compact()
      requires Valid()
      modifies this, data
      ensures Valid() && r == 0 && View() == old(View())
    {
      var n, from := w - r, r;
      ghost var was := data[..];
      for i := 0 to n
        invariant forall k :: 0 <= k < i ==> data[k] == was[from + k]
        invariant forall k :: i <= k < data.Length ==> data[k] == was[k]
      {
        data[i] := data[from + i];
      }
      r, w := 0, n;
    }

    /** A read of `bytes` at the write cursor. */
    method Commit(bytes: seq<Byte>)
      requires Valid() && w + |bytes| <= data.Length
      modifies this`w, data
      ensures Valid() && w == old(w) + |bytes| && View() == old(View()) + bytes
    {
      var at := w;
      ghost var was := data[..];
      for i := 0 to |bytes|
        invariant forall k :: 0 <= k < i ==> data[at + k] == bytes[k]
        invariant forall k :: 0 <= k < at ==> data[k] == was[k]
      {
        data[at + i] := bytes[i];
      }
      w := at + |bytes|;
      assert data[r..at] == was[r..at] && data[at..w] == bytes;
      assert data[r..w] == data[r..at] + data[at..w];
    }

    method Consume(n: nat)
      requires Valid() && r + n <= w
      modifies this`r
      ensures Valid() && View() == old(View())[n..]
    {
      r := r + n;
    }

    /** Unmask the first `n` unread bytes in place and take them. */
    method Take(n: nat, masked: bool, key: nat, offset: nat) returns (part: seq<Byte>)
      requires Valid() && r + n <= w && key < 0x1_0000_0000
      modifies this`r, data
      ensures Valid() && View() == old(View())[n..]
      ensures part == if masked then Mask(key, offset, old(View())[..n]) else old(View())[..n]
    {
      hide Mask;
      ghost var was := data[..];
      if masked { ApplyMask(key, data, r, n, offset); }
      part := data[r..r + n];
      ghost var now := data[..];
      Slices(was, r, n, w);
      assert part == now[r..r + n] && now[r + n..] == was[r + n..];
      SameRest(was, now, r + n, w);
      r := r + n;
    }
  }

  lemma SameRest(was: seq<Byte>, now: seq<Byte>, at: nat, w: nat)
    requires at <= w <= |was| == |now| && now[at..] == was[at..]
    ensures now[at..w] == was[at..w]
  {
    assert now[at..w] == now[at..][..w - at] && was[at..w] == was[at..][..w - at];
  }

  lemma Slices(d: seq<Byte>, r: nat, n: nat, w: nat)
    requires r + n <= w <= |d|
    ensures d[r..w][..n] == d[r..r + n] && d[r..w][n..] == d[r + n..w] == d[r + n..][..w - r - n]
  {
  }
}
