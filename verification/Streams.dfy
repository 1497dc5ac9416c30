/**
 The buffer and cursor of parse.h: fields are read and written at p, which moves past them.
 */
module Streams {
  import opened Wire

  class Stream {
    const data: array<Byte>
    var p: nat
    var end: nat
    var next: Stream?

    constructor (size: nat)
      ensures p == end == 0 && next == null
      ensures fresh(data) && data.Length == size
    {
      data := new Byte[size];
      p, end, next := 0, 0, null;
    }

    predicate CheckRem(n: int)
      reads this
    {
      p + n <= end
    }

    predicate CheckRemOut(n: int)
      reads this
    {
      p + n <= data.Length
    }

    method InUint32() returns (v: Int32)
      requires p + 4 <= data.Length
      modifies `p
      ensures v == FromLe32(data[old(p)..old(p) + 4]) && p == old(p) + 4
    {
      v := FromLe32(data[p..p + 4]);
      p := p + 4;
    }

    method OutUint32(v: Int32)
      requires p + 4 <= data.Length
      modifies `p, data
      ensures p == old(p) + 4 && data[..p] == old(data[..p]) + Le32(v)
      ensures data[p..] == old(data[p..])[4..]
    {
      var b := Le32(v);
      data[p] := b[0];
      data[p + 1] := b[1];
      data[p + 2] := b[2];
      data[p + 3] := b[3];
      p := p + 4;
      assert data[..old(p)] == old(data[..p]);
      assert data[old(p)..p] == b;
    }

    /** What recv does to the buffer. */
    method Fill(chunk: seq<Byte>)
      requires p + |chunk| <= data.Length
      modifies `p, data
      ensures p == old(p) + |chunk| && data[..p] == old(data[..p]) + chunk
    {
      var i := 0;
      while i < |chunk|
        invariant 0 <= i <= |chunk| && p == old(p)
        invariant data[..p] == old(data[..p])
        invariant data[p..p + i] == chunk[..i]
      {
        data[p + i] := chunk[i];
        assert data[p..p + i + 1] == data[p..p + i] + [chunk[i]];
        i := i + 1;
      }
      assert chunk[..i] == chunk;
      p := p + |chunk|;
      assert data[..p] == data[..old(p)] + data[old(p)..p];
    }
  }
}
