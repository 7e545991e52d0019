/** The bounded read of an upstream response, `decodeJSON` of internal/gangway/json.go, over a pool of buffers.

    A reader delivers its stream in pieces whose sizes it chooses, and then ends or fails; a failure arrives in a call
    of its own, after the data before it. Parsing is a function of the bytes that the caller supplies. */
module BoundedRead {
  import opened Utf8

  const MAX_POOLED_BUFFER := 65536

  /** Free space that bytes.Buffer.ReadFrom makes sure of before each read. */
  const MIN_READ := 512

  datatype Ending = EOF | Broken

  datatype Decoded<V> = TooLarge | ReadFailed | Parsed(value: V)

  /** An upstream body. `offers` is how many bytes it is willing to give in its coming reads; once that script is used
      up it gives as much as it is asked for. */
  class Reader {
    const stream: seq<byte>
    const ending: Ending
    var pos: nat
    var offers: seq<nat>

    ghost predicate Valid()
      reads this
    {
      pos <= |stream|
    }

    constructor (stream: seq<byte>, ending: Ending, offers: seq<nat>)
      ensures Valid() && pos == 0 && this.stream == stream && this.ending == ending && this.offers == offers
    {
      this.stream := stream;
      this.ending := ending;
      this.offers := offers;
      this.pos := 0;
    }

    /** A read may also give nothing and no ending. */
    method Read(max: nat) returns (data: seq<byte>, end: bool)
      requires Valid() && max > 0
      modifies this
      ensures Valid() && |data| <= max && pos == old(pos) + |data| && data == stream[old(pos)..pos]
      ensures end <==> old(pos) == |stream|
      ensures |offers| < |old(offers)| || (offers == old(offers) && (end || |data| > 0))
    {
      if pos == |stream| {
        return [], true;
      }
      var n := if max < |stream| - pos then max else |stream| - pos;
      if offers != [] {
        n := if offers[0] < n then offers[0] else n;
        offers := offers[1..];
      }
      data, end := stream[pos..pos + n], false;
      pos := pos + n;
    }
  }

  /** A growable buffer: its bytes and the size of the space behind them. */
  class Buffer {
    var data: seq<byte>
    var capacity: nat

    ghost predicate Valid()
      reads this
    {
      |data| <= capacity
    }

    constructor ()
      ensures Valid() && data == [] && capacity == 0
    {
      data, capacity := [], 0;
    }

    method Reset()
      requires Valid()
      modifies `data
      ensures Valid() && data == []
    {
      data := [];
    }

    /** Make room for `n` more bytes; how much more than that is up to the allocator. */
    method Grow(n: nat)
      requires Valid()
      modifies `capacity
      ensures Valid() && |data| + n <= capacity
      ensures old(|data| + n <= capacity) ==> capacity == old(capacity)
    {
      if |data| + n > capacity {
        var c: nat :| |data| + n <= c;
        capacity := c;
      }
    }

    /** ReadFrom over a reader cut off after `limit` bytes. */
    method ReadFromLimited(r: Reader, limit: int) returns (read: nat, broken: bool)
      requires Valid() && data == [] && r.Valid() && r.pos == 0
      modifies this, r
      ensures Valid() && r.Valid()
      ensures read == |data| == r.pos && data == r.stream[..read]
      ensures read == if limit <= 0 then 0 else if |r.stream| < limit then |r.stream| else limit
      ensures broken <==> |r.stream| < limit && r.ending.Broken?
    {
      read, broken := 0, false;
      while true
        invariant Valid() && r.Valid()
        invariant read == |data| == r.pos && data == r.stream[..read]
        invariant read == 0 || read <= limit
        decreases |r.offers|, |r.stream| - r.pos
      {
        Grow(MIN_READ);
        if limit - read <= 0 {
          return;
        }
        var free := capacity - |data|;
        var piece, end := r.Read(if free < limit - read then free else limit - read);
        if end {
          return read, r.ending.Broken?;
        }
        data := data + piece;
        read := read + |piece|;
      }
    }
  }

  /** Scratch buffers between requests. Which one comes out, and whether one does, is up to the runtime. */
  class Pool {
    var free: seq<Buffer>

    ghost predicate Valid()
      reads this, free
    {
      && (forall b :: b in free ==> b.Valid() && b.capacity <= MAX_POOLED_BUFFER)
      && (forall i, j :: 0 <= i < j < |free| ==> free[i] != free[j])
    }

    constructor ()
      ensures Valid() && free == []
    {
      free := [];
    }

    method GetBuffer(pick: nat) returns (b: Buffer)
      requires Valid()
      modifies this, free
      ensures Valid() && b.Valid() && b.data == [] && b !in free
      ensures fresh(b) || b in old(free)
      ensures forall x :: x in free ==> x in old(free)
    {
      if pick >= |free| {
        b := new Buffer();
        return;
      }
      b := free[pick];
      free := free[..pick] + free[pick + 1..];
      b.Reset();
    }

    method PutBuffer(b: Buffer)
      requires Valid() && b.Valid() && b !in free
      modifies this
      ensures Valid()
      ensures free == old(free) + if b.capacity <= MAX_POOLED_BUFFER then [b] else []
    {
      if b.capacity <= MAX_POOLED_BUFFER {
        free := free + [b];
      }
    }
  }

  /** The result depends on nothing but the stream, its ending and the limit: not on how the stream is chunked, on the
      declared length, on which buffer the pool gives or on what that buffer held before. Exactly one byte past the
      limit is read of a stream that is too long, and no oversized buffer is pooled. */
  method DecodeJSON<V>(pool: Pool, pick: nat, r: Reader, maxBytes: int, hint: int, unmarshal: seq<byte> -> V)
    returns (result: Decoded<V>)
    requires pool.Valid() && r.Valid() && r.pos == 0
    modifies pool, pool.free, r
    ensures result.TooLarge? <==> |r.stream| > maxBytes
    ensures result.ReadFailed? <==> |r.stream| <= maxBytes && r.ending.Broken?
    ensures result.Parsed? ==> result.value == unmarshal(r.stream)
    ensures |r.stream| <= maxBytes ==> r.pos == |r.stream|
    ensures |r.stream| > maxBytes ==> r.pos == if maxBytes < 0 then 0 else maxBytes + 1
    ensures pool.Valid()
    ensures forall b :: b in pool.free ==> b.capacity <= 64 * 1024
  {
    var buf := pool.GetBuffer(pick);
    if hint > 0 && hint <= maxBytes {
      buf.Grow(hint);
    }
    var read, broken := buf.ReadFromLimited(r, maxBytes + 1);
    if broken {
      result := ReadFailed;
    } else if read > maxBytes {
      result := TooLarge;
    } else {
      assert buf.data == r.stream;
      result := Parsed(unmarshal(buf.data));
    }
    pool.PutBuffer(buf);
  }
}
