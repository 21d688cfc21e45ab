/** The receive buffer of a socket: a circular array with one slot kept free. */
module RingBuffers {
  import opened Common

  function Min(x: int, y: int): int { if x < y then x else y }

  /** b with src written over it from position at. */
  ghost function Patched(b: seq<Byte>, at: int, src: seq<Byte>): (r: seq<Byte>)
    requires 0 <= at && at + |src| <= |b|
    ensures |r| == |b|
  {
    b[..at] + src + b[at + |src|..]
  }

  /** dst[at..] := src */
  method Copy(dst: array<Byte>, at: nat, src: seq<Byte>)
    requires at + |src| <= dst.Length
    modifies dst
    ensures dst[..] == Patched(old(dst[..]), at, src)
  {
    for i := 0 to |src|
      invariant forall k | 0 <= k < dst.Length ::
        dst[k] == if at <= k < at + i then src[k - at] else old(dst[k])
    {
      dst[at + i] := src[i];
    }
  }

  /** The slots from head up to tail, going round at size. */
  ghost function Window(b: seq<Byte>, head: int, tail: int, size: int): (w: seq<Byte>)
    requires 0 <= head < size && 0 <= tail < size < |b|
  {
    if head <= tail then b[head..tail] else b[head..size] + b[..tail]
  }

  lemma UsedBetween(head: int, tail: int, size: int)
    requires 0 <= head < size && 0 <= tail < size
    ensures (tail - head + size) % size == if head <= tail then tail - head else size - head + tail
  {
    Wraps(tail - head + size, size);
  }

  lemma Wraps(x: int, size: int)
    requires 0 <= x < 2 * size
    ensures x % size == if x < size then x else x - size
  {
    if x >= size {
      assert x == (x - size) + size * 1;
    }
  }

  /** Where n slots from head end. */
  function Past(head: int, n: int, size: int): int { if head + n < size then head + n else head + n - size }

  lemma WriteStraight(b: seq<Byte>, b': seq<Byte>, head: int, tail: int, size: int, data: seq<Byte>)
    requires 0 <= head < size && 0 <= tail < size < |b| == |b'|
    requires |Window(b, head, tail, size)| + |data| < size && tail + |data| <= size
    requires b' == Patched(b, tail, data)
    ensures Window(b', head, Past(tail, |data|, size), size) == Window(b, head, tail, size) + data
  {
    if head <= tail {
      assert b'[head..tail + |data|] == b[head..tail] + data;
    } else {
      assert b'[head..size] == b[head..size];
      assert b'[..tail + |data|] == b[..tail] + data;
    }
  }

  lemma WriteAround(b: seq<Byte>, b': seq<Byte>, head: int, tail: int, size: int, data: seq<Byte>)
    requires 0 <= head < size && 0 <= tail < size < |b| == |b'|
    requires |Window(b, head, tail, size)| + |data| < size < tail + |data|
    requires b' == Patched(Patched(b, tail, data[..size - tail]), 0, data[size - tail..])
    ensures Window(b', head, Past(tail, |data|, size), size) == Window(b, head, tail, size) + data
  {
    var right := size - tail;
    var first, rest := data[..right], data[right..];
    var m := Patched(b, tail, first);
    PatchedSlices(b, tail, first, head, size);
    PatchedSlices(m, 0, rest, head, size);
    Joined(b[head..tail], first, rest, data);
  }

  lemma Joined(w: seq<Byte>, first: seq<Byte>, rest: seq<Byte>, data: seq<Byte>)
    requires data == first + rest
    ensures (w + first) + rest == w + data
  {
  }

  /** What a patch leaves between lo and hi, and what it puts in front. */
  lemma PatchedSlices(b: seq<Byte>, at: int, src: seq<Byte>, lo: int, hi: int)
    requires 0 <= at && 0 <= lo <= hi <= |b| && at + |src| <= |b|
    ensures lo <= at && at + |src| == hi ==> Patched(b, at, src)[lo..hi] == b[lo..at] + src
    ensures at + |src| <= lo ==> Patched(b, at, src)[lo..hi] == b[lo..hi]
    ensures at == 0 ==> Patched(b, at, src)[..|src|] == src
  {
  }

  lemma ReadFront(b: seq<Byte>, head: int, tail: int, size: int, n: int, data: seq<Byte>)
    requires 0 <= head < size && 0 <= tail < size < |b|
    requires 0 < n <= |Window(b, head, tail, size)|
    requires data == if head + n > size then b[head..size] + b[..head + n - size] else b[head..head + n]
    ensures data == Window(b, head, tail, size)[..n]
    ensures Window(b, Past(head, n, size), tail, size) == Window(b, head, tail, size)[n..]
  {
  }

  class RingBuffer {
    const size: int
    var head: int
    var tail: int
    const buf: array<Byte>

    ghost predicate Valid()
      reads this
    {
      size >= 1 && 0 <= head < size && 0 <= tail < size && buf.Length == size + 1
    }

    /** The queued bytes, oldest first. */
    ghost function Contents(): (c: seq<Byte>)
      requires Valid()
      reads this, buf
      ensures |c| == Used() <= size - 1
    {
      UsedBetween(head, tail, size);
      Window(buf[..], head, tail, size)
    }

    function Used(): int
      requires size >= 1
      reads this
    {
      (tail - head + size) % size
    }

    function Free(): int
      requires size >= 1
      reads this
    {
      size - Used() - 1
    }

    predicate Empty()
      requires size >= 1
      reads this
    {
      Used() == 0
    }

    constructor (size: int)
      requires size >= 1
      ensures Valid() && fresh(buf) && this.size == size && Contents() == []
    {
      this.size := size;
      head, tail := 0, 0;
      buf := new Byte[size + 1](i => 0);
    }

    /** The bytes between head and head + len, across the wrap-around. */
    method Peek(len: int) returns (data: seq<Byte>)
      requires Valid() && 0 < len <= |Window(buf[..], head, tail, size)|
      ensures data == Window(buf[..], head, tail, size)[..len]
      ensures Window(buf[..], Past(head, len, size), tail, size) == Window(buf[..], head, tail, size)[len..]
    {
      ghost var b := buf[..];
      if head + len > size {
        var right := size - head;
        var left := len - right;
        data := buf[head..head + right] + buf[..left];
        assert data == b[head..size] + b[..left];
      } else {
        data := buf[head..head + len];
        assert data == b[head..head + len];
      }
      ReadFront(b, head, tail, size, len, data);
    }

    /** Removes and returns the front min(used, n) bytes. */
    method Read(n: int) returns (len: int, data: seq<Byte>)
      requires Valid()
      modifies this`head
      ensures Valid() && len == Min(old(Used()), n)
      ensures data == if len > 0 then old(Contents())[..len] else []
      ensures Contents() == if len > 0 then old(Contents())[len..] else old(Contents())
    {
      UsedBetween(head, tail, size);
      len, data := Min(Used(), n), [];
      if len > 0 {
        data := Peek(len);
        Wraps(head + len, size);
        head := (head + len) % size;
      }
    }

    method PutAround(data: seq<Byte>)
      requires Valid() && |Window(buf[..], head, tail, size)| + |data| < size < tail + |data|
      modifies buf
      ensures Window(buf[..], head, Past(tail, |data|, size), size) == old(Window(buf[..], head, tail, size)) + data
    {
      ghost var b := buf[..];
      var right := size - tail;
      Copy(buf, tail, data[..right]);
      Copy(buf, 0, data[right..]);
      WriteAround(b, buf[..], head, tail, size, data);
    }

    method Put(data: seq<Byte>)
      requires Valid() && |Window(buf[..], head, tail, size)| + |data| < size
      modifies buf
      ensures Window(buf[..], head, Past(tail, |data|, size), size) == old(Window(buf[..], head, tail, size)) + data
    {
      if tail + |data| > size {
        PutAround(data);
      } else {
        ghost var b := buf[..];
        Copy(buf, tail, data);
        WriteStraight(b, buf[..], head, tail, size, data);
      }
    }

    /** Appends all of data; the original asserts that it is nonempty and fits. */
    method Write(data: seq<Byte>)
      requires Valid() && 0 < |data| <= Free()
      modifies this`tail, buf
      ensures Valid() && Contents() == old(Contents()) + data
    {
      UsedBetween(head, tail, size);
      Put(data);
      Wraps(tail + |data|, size);
      tail := (tail + |data|) % size;
    }
  }
}
