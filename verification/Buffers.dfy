/** The per-worker buffer pool, and chains of its buffers that stand for one byte string. */
module Buffers {
  import opened Base

  // ---------------------------------------------------------------- sequences

  predicate Distinct<T(==)>(s: seq<T>) {
    forall i, j :: 0 <= i < j < |s| ==> s[i] != s[j]
  }

  lemma {:induction false} OnceDistinct(s: seq<nat>)
    requires forall x: nat :: multiset(s)[x] <= 1
    ensures Distinct(s)
    decreases |s|
  {
    if s != [] {
      var init: seq<nat>, last: nat := s[..|s| - 1], s[|s| - 1];
      assert s == init + [last];
      assert forall x: nat :: multiset(init)[x] <= multiset(s)[x];
      OnceDistinct(init);
      assert multiset(s)[last] == multiset(init)[last] + 1;
    }
  }

  /** `buf` with `data` written over it from `off` on. */
  function Splice(buf: Bytes, off: nat, data: Bytes): (r: Bytes)
    requires off + |data| <= |buf|
    ensures |r| == |buf|
  {
    buf[..off] + data + buf[off + |data|..]
  }

  // ---------------------------------------------------------------- the pool

  predicate SameSize(bufs: seq<Bytes>, size: nat) {
    forall i :: 0 <= i < |bufs| ==> |bufs[i]| == size
  }

  predicate InPool(bufs: seq<Bytes>, idxs: seq<nat>) {
    forall i :: 0 <= i < |idxs| ==> idxs[i] < |bufs|
  }

  class BufferPool {
    const size: nat
    var buffers: seq<Bytes>
    /** Used as a stack. */
    var freeList: seq<nat>

    predicate Valid()
      reads this
    {
      SameSize(buffers, size) && InPool(buffers, freeList)
    }

    constructor (count: nat, size: nat)
      ensures Valid() && this.size == size && |buffers| == count
      ensures freeList == seq(count, i => i) && Distinct(freeList)
    {
      this.size := size;
      buffers, freeList := [], [];
      new;
      for i := 0 to count
        invariant |buffers| == |freeList| == i && SameSize(buffers, size)
        invariant forall j :: 0 <= j < i ==> freeList[j] == j
      {
        buffers := buffers + [seq(size, _ => 0)];
        freeList := freeList + [i];
      }
    }

    method Alloc() returns (r: Option<nat>)
      requires Valid()
      modifies this`freeList
      ensures Valid()
      ensures old(freeList) == [] ==> r == None && freeList == []
      ensures old(freeList) != [] ==> r.Some? && r.value < |buffers| && old(freeList) == freeList + [r.value]
    {
      if freeList == [] {
        return None;
      }
      r := Some(freeList[|freeList| - 1]);
      freeList := freeList[..|freeList| - 1];
    }

    method Free(idx: nat)
      requires Valid() && idx < |buffers|
      modifies this`freeList
      ensures Valid() && freeList == old(freeList) + [idx]
    {
      freeList := freeList + [idx];
    }

    /** All or nothing: either `count` indices come off the stack, in order, or the pool is unchanged. */
    method AllocMany(count: nat) returns (r: Option<seq<nat>>)
      requires Valid()
      modifies this`freeList
      ensures Valid()
      ensures r.None? <==> |old(freeList)| < count
      ensures r.None? ==> freeList == old(freeList)
      ensures r.Some? ==> |r.value| == count && InPool(buffers, r.value)
                          && freeList == old(freeList)[..|old(freeList)| - count]
                          && forall i :: 0 <= i < count ==> r.value[i] == old(freeList)[|old(freeList)| - 1 - i]
      ensures r.Some? ==> multiset(old(freeList)) == multiset(freeList) + multiset(r.value)
    {
      if |freeList| < count {
        return None;
      }
      var indices: seq<nat> := [];
      for i := 0 to count
        invariant |indices| == i && Valid() && InPool(buffers, indices)
        invariant freeList == old(freeList)[..|old(freeList)| - i]
        invariant forall j :: 0 <= j < i ==> indices[j] == old(freeList)[|old(freeList)| - 1 - j]
        invariant multiset(old(freeList)) == multiset(freeList) + multiset(indices)
      {
        assert freeList == freeList[..|freeList| - 1] + [freeList[|freeList| - 1]];
        indices := indices + [freeList[|freeList| - 1]];
        freeList := freeList[..|freeList| - 1];
      }
      r := Some(indices);
    }

    method FreeMany(indices: seq<nat>)
      requires Valid() && InPool(buffers, indices)
      modifies this`freeList
      ensures Valid() && freeList == old(freeList) + indices
    {
      for i := 0 to |indices|
        invariant Valid() && freeList == old(freeList) + indices[..i]
      {
        freeList := freeList + [indices[i]];
      }
    }

    /** Copies `data` into buffer `idx` from offset `off` on. */
    method Write(idx: nat, off: nat, data: Bytes)
      requires Valid() && idx < |buffers| && off + |data| <= size
      modifies this`buffers
      ensures Valid() && buffers == old(buffers)[idx := Splice(old(buffers)[idx], off, data)]
    {
      buffers := buffers[idx := Splice(buffers[idx], off, data)];
    }
  }

  /** Only the buffers `idxs` may have changed. */
  predicate Untouched(bufs: seq<Bytes>, bufs': seq<Bytes>, idxs: seq<nat>) {
    |bufs'| == |bufs| && forall i :: 0 <= i < |bufs| && i !in idxs ==> bufs'[i] == bufs[i]
  }

  lemma UntouchedSame(bufs: seq<Bytes>, idxs: seq<nat>)
    ensures Untouched(bufs, bufs, idxs)
  {
  }

  lemma UntouchedTrans(a: seq<Bytes>, b: seq<Bytes>, c: seq<Bytes>, idxs: seq<nat>, idxs': seq<nat>)
    requires Untouched(a, b, idxs) && Untouched(b, c, idxs') && idxs <= idxs'
    ensures Untouched(a, c, idxs')
  {
    assert forall k :: 0 <= k < |idxs| ==> idxs[k] == idxs'[k];
  }

  // ---------------------------------------------------------------- chains as values

  /** `n` buffers of `size` bytes hold `len` bytes: all full but the last, which is not empty
      (a single buffer may be). */
  predicate Shape(n: nat, len: nat, size: nat)
    decreases n
  {
    if n == 0 then len == 0
    else if n == 1 then len <= size
    else len > size && Shape(n - 1, len - size, size)
  }

  /** How many bytes the last of the `n` buffers holds. */
  function LastFill(n: nat, len: nat, size: nat): (r: nat)
    requires n > 0 && Shape(n, len, size)
    ensures r <= size && (n > 1 ==> r > 0)
    decreases n
  {
    if n == 1 then len else LastFill(n - 1, len - size, size)
  }

  lemma ModBack(len: nat, size: nat)
    requires size > 0 && len >= size
    ensures (len - size) % size == len % size
  {
    var q, r := len / size, len % size;
    assert len == size * q + r;
    assert len - size == size * (q - 1) + r;
    ModUnique(len - size, size, q - 1, r);
  }

  lemma ModUnique(x: int, d: int, q: int, r: int)
    requires d > 0 && 0 <= r < d && x == d * q + r
    ensures x / d == q && x % d == r
  {
    var q', r' := x / d, x % d;
    assert x == d * q' + r';
    if q > q' {
      MulAtLeast(d, q, q');
    } else if q < q' {
      MulAtLeast(d, q', q);
    }
  }

  lemma MulAtLeast(d: int, a: int, b: int)
    requires d > 0 && a > b
    ensures d * a >= d * b + d
  {
    assert d * a == d * b + d * (a - b);
    assert d * (a - b) == d * (a - b - 1) + d;
    assert d * (a - b - 1) >= 0;
  }

  /** `len % buffer_size` is the fill of the last buffer, or 0 when that is full. */
  lemma {:induction false} FillIsMod(n: nat, len: nat, size: nat)
    requires size > 0 && n > 0 && Shape(n, len, size)
    ensures len % size == if LastFill(n, len, size) == size then 0 else LastFill(n, len, size)
    decreases n
  {
    if n == 1 {
      if len == size {
        ModUnique(len, size, 1, 0);
      } else {
        ModUnique(len, size, 0, len);
      }
    } else {
      FillIsMod(n - 1, len - size, size);
      ModBack(len, size);
    }
  }

  /** A chain never holds more than its buffers do, and exactly that when the last one is full. */
  lemma {:induction false} ShapeCapacity(n: nat, len: nat, size: nat)
    requires Shape(n, len, size)
    ensures len <= n * size
    ensures n == 0 || LastFill(n, len, size) == size ==> len == n * size
    decreases n
  {
    if n > 1 {
      ShapeCapacity(n - 1, len - size, size);
      assert n * size == (n - 1) * size + size;
    }
  }

  lemma CapacityMonotone(n: nat, n': nat, size: nat)
    requires n <= n'
    ensures n * size <= n' * size
  {
    assert n' * size == n * size + (n' - n) * size;
  }

  /** The byte string that the buffers `idxs` hold. */
  function Flat(bufs: seq<Bytes>, idxs: seq<nat>, len: nat, size: nat): Bytes
    requires SameSize(bufs, size) && InPool(bufs, idxs)
    decreases |idxs|
  {
    if idxs == [] then []
    else
      var chunk := Min(len, size);
      bufs[idxs[0]][..chunk] + Flat(bufs, idxs[1..], len - chunk, size)
  }

  lemma FlatHead(bufs: seq<Bytes>, idxs: seq<nat>, i: nat, len: nat, size: nat)
    requires SameSize(bufs, size) && InPool(bufs, idxs) && i < |idxs|
    ensures var chunk := Min(len, size);
            Flat(bufs, idxs[i..], len, size)
            == bufs[idxs[i]][..chunk] + Flat(bufs, idxs[i + 1..], len - chunk, size)
  {
    assert idxs[i..][1..] == idxs[i + 1..];
  }

  lemma FlatNone(bufs: seq<Bytes>, len: nat, size: nat)
    requires SameSize(bufs, size)
    ensures Flat(bufs, [], len, size) == []
  {
  }

  lemma {:induction false} FlatLength(bufs: seq<Bytes>, idxs: seq<nat>, len: nat, size: nat)
    requires SameSize(bufs, size) && InPool(bufs, idxs) && Shape(|idxs|, len, size)
    ensures |Flat(bufs, idxs, len, size)| == len
    decreases |idxs|
  {
    if |idxs| > 1 {
      FlatLength(bufs, idxs[1..], len - size, size);
    } else if |idxs| == 1 {
      assert Flat(bufs, idxs[1..], 0, size) == [];
    }
  }

  /** Buffers outside the chain do not matter. */
  lemma {:induction false} FlatFrame(bufs: seq<Bytes>, bufs': seq<Bytes>, idxs: seq<nat>, len: nat, size: nat)
    requires SameSize(bufs, size) && SameSize(bufs', size) && InPool(bufs, idxs) && InPool(bufs', idxs)
    requires forall i :: 0 <= i < |idxs| ==> bufs'[idxs[i]] == bufs[idxs[i]]
    ensures Flat(bufs', idxs, len, size) == Flat(bufs, idxs, len, size)
    decreases |idxs|
  {
    if idxs != [] {
      FlatFrame(bufs, bufs', idxs[1..], len - Min(len, size), size);
    }
  }

  lemma SpliceTake(buf: Bytes, off: nat, part: Bytes)
    requires off + |part| <= |buf|
    ensures Splice(buf, off, part)[..off + |part|] == buf[..off] + part
  {
  }

  /** Writing `part` after the bytes of the last buffer appends it to the byte string. */
  lemma {:induction false} FlatFillLast(bufs: seq<Bytes>, bufs': seq<Bytes>, idxs: seq<nat>, len: nat, size: nat,
                                        part: Bytes)
    requires SameSize(bufs, size) && SameSize(bufs', size) && InPool(bufs, idxs) && Distinct(idxs)
    requires idxs != [] && Shape(|idxs|, len, size)
    requires LastFill(|idxs|, len, size) + |part| <= size
    requires var last := idxs[|idxs| - 1]; bufs' == bufs[last := Splice(bufs[last], LastFill(|idxs|, len, size), part)]
    ensures Shape(|idxs|, len + |part|, size)
    ensures Flat(bufs', idxs, len + |part|, size) == Flat(bufs, idxs, len, size) + part
    decreases |idxs|
  {
    hide Splice;
    var last := idxs[|idxs| - 1];
    if |idxs| == 1 {
      SpliceTake(bufs[last], len, part);
    } else {
      var rest := idxs[1..];
      assert rest[|rest| - 1] == last && |rest| == |idxs| - 1;
      FlatFillLast(bufs, bufs', rest, len - size, size, part);
      assert bufs'[idxs[0]] == bufs[idxs[0]];
      assert bufs[idxs[0]][..size] + (Flat(bufs, rest, len - size, size) + part) == Flat(bufs, idxs, len, size) + part;
    }
  }

  /** The same through a fresh buffer when the last one is full or there is none. */
  lemma {:induction false} FlatNewLast(bufs: seq<Bytes>, idxs: seq<nat>, j: nat, len: nat, size: nat, part: Bytes)
    requires SameSize(bufs, size) && InPool(bufs, idxs) && j < |bufs| && j !in idxs
    requires Shape(|idxs|, len, size) && (idxs != [] ==> LastFill(|idxs|, len, size) == size)
    requires 0 < |part| <= size
    ensures var bufs' := bufs[j := Splice(bufs[j], 0, part)];
            && Shape(|idxs| + 1, len + |part|, size)
            && Flat(bufs', idxs + [j], len + |part|, size) == Flat(bufs, idxs, len, size) + part
    decreases |idxs|
  {
    var bufs' := bufs[j := Splice(bufs[j], 0, part)];
    if idxs == [] {
      assert (idxs + [j])[1..] == [];
      assert bufs'[j][..|part|] == part;
    } else {
      var rest := idxs[1..];
      FlatNewLast(bufs, rest, j, len - size, size, part);
      hide Splice;
      assert (idxs + [j])[1..] == rest + [j];
      assert idxs[0] in idxs;
      assert bufs'[idxs[0]] == bufs[idxs[0]];
    }
  }

  /** An index taken off the free list joins a chain that had none of the free ones. */
  lemma TakeFree(free: seq<nat>, free': seq<nat>, idx: nat, idxs: seq<nat>)
    requires free == free' + [idx] && Distinct(free) && Distinct(idxs)
    requires forall i :: 0 <= i < |idxs| ==> idxs[i] !in free
    ensures Distinct(free') && idx !in free' && idx !in idxs && Distinct(idxs + [idx])
    ensures forall i :: 0 <= i < |idxs + [idx]| ==> (idxs + [idx])[i] !in free'
    ensures multiset(free') + multiset(idxs + [idx]) == multiset(free) + multiset(idxs)
  {
    assert free[|free'|] == idx;
    forall i | 0 <= i < |free'|
      ensures free'[i] != idx
    {
      assert free[i] == free'[i];
    }
    forall i, j | 0 <= i < j < |free'|
      ensures free'[i] != free'[j]
    {
      assert free[i] == free'[i] && free[j] == free'[j];
    }
    forall i | 0 <= i < |idxs|
      ensures idxs[i] !in free' && idxs[i] != idx
    {
      assert idxs[i] !in free;
    }
  }

  // ---------------------------------------------------------------- the chain

  datatype ChainResult = Done | PoolExhausted

  class BufferChain {
    const bufferSize: nat
    var buffers: seq<nat>
    var len: nat

    /** Well-formed over a pool: the buffers are distinct, none of them is free, and they hold `len` bytes. */
    ghost predicate Valid(pool: BufferPool)
      reads this, pool
    {
      && bufferSize == pool.size > 0 && pool.Valid() && Distinct(pool.freeList)
      && InPool(pool.buffers, buffers) && Distinct(buffers)
      && (forall i :: 0 <= i < |buffers| ==> buffers[i] !in pool.freeList)
      && Shape(|buffers|, len, bufferSize)
    }

    ghost function Contents(pool: BufferPool): Bytes
      requires Valid(pool)
      reads this, pool
    {
      Flat(pool.buffers, buffers, len, bufferSize)
    }

    ghost predicate LastIsFull()
      requires Shape(|buffers|, len, bufferSize)
      reads this
    {
      buffers == [] || LastFill(|buffers|, len, bufferSize) == bufferSize
    }

    /** How many bytes the chain can still take: what its last buffer and the free ones have room for. */
    ghost function Room(pool: BufferPool): (r: nat)
      requires Valid(pool)
      reads this, pool
    {
      ShapeCapacity(|buffers|, len, bufferSize);
      CapacityMonotone(|buffers|, |buffers| + |pool.freeList|, bufferSize);
      (|buffers| + |pool.freeList|) * bufferSize - len
    }

    constructor (bufferSize: nat)
      ensures this.bufferSize == bufferSize && buffers == [] && len == 0
    {
      this.bufferSize := bufferSize;
      buffers, len := [], 0;
    }

    /** `current_buffer_and_offset`: the buffer to write next, taken from the pool when needed. */
    method CurrentBufferAndOffset(pool: BufferPool) returns (r: Option<(nat, nat)>)
      requires Valid(pool)
      modifies this`buffers, pool`freeList
      ensures pool.Valid()
      ensures r.Some? ==> r.value.0 < |pool.buffers| && r.value.1 < bufferSize
      ensures r.None? <==> old(LastIsFull()) && old(pool.freeList) == []
      ensures r.None? ==> buffers == old(buffers) && pool.freeList == []
      ensures r.Some? && !old(LastIsFull()) ==>
                && buffers == old(buffers) && pool.freeList == old(pool.freeList)
                && r.value == (buffers[|buffers| - 1], LastFill(|buffers|, len, bufferSize))
      ensures r.Some? && old(LastIsFull()) ==>
                && r.value.1 == 0 && buffers == old(buffers) + [r.value.0]
                && old(pool.freeList) == pool.freeList + [r.value.0]
    {
      if buffers == [] {
        var idx := pool.Alloc();
        if idx.None? {
          return None;
        }
        buffers := buffers + [idx.value];
        return Some((idx.value, 0));
      }
      FillIsMod(|buffers|, len, bufferSize);
      var offsetInLast := len % bufferSize;
      if offsetInLast == 0 && len > 0 {
        var idx := pool.Alloc();
        if idx.None? {
          return None;
        }
        buffers := buffers + [idx.value];
        return Some((idx.value, 0));
      }
      r := Some((buffers[|buffers| - 1], offsetInLast));
    }

    /** One turn of the loop of `append`: copy as much of `data` as fits the current buffer. */
    method AppendPart(data: Bytes, pool: BufferPool) returns (r: Option<nat>)
      requires Valid(pool) && data != []
      modifies this, pool
      ensures Valid(pool)
      ensures r.Some? ==> 0 < r.value <= |data| && Contents(pool) == old(Contents(pool)) + data[..r.value]
      ensures r.None? ==>
                && pool.freeList == [] == old(pool.freeList) && LastIsFull()
                && Contents(pool) == old(Contents(pool)) && Room(pool) == 0 == old(Room(pool))
      ensures multiset(pool.freeList) + multiset(buffers) == old(multiset(pool.freeList) + multiset(buffers))
      ensures r.Some? ==> Room(pool) == old(Room(pool)) - r.value
      ensures old(buffers) <= buffers
      ensures Untouched(old(pool.buffers), pool.buffers, buffers)
    {
      hide Flat, Shape, LastFill, Splice;
      ghost var bufs, idxs, free := pool.buffers, buffers, pool.freeList;
      var at := CurrentBufferAndOffset(pool);
      if at.None? {
        ShapeCapacity(|buffers|, len, bufferSize);
        return None;
      }
      var (idx, off) := at.value;
      var n := Min(bufferSize - off, |data|);
      pool.Write(idx, off, data[..n]);
      if |buffers| == |idxs| {
        FlatFillLast(bufs, pool.buffers, idxs, len, bufferSize, data[..n]);
      } else {
        TakeFree(free, pool.freeList, idx, idxs);
        FlatNewLast(bufs, idxs, idx, len, bufferSize, data[..n]);
      }
      len := len + n;
      r := Some(n);
    }

    /** `append`: all of `data` if there is room for it, otherwise the prefix that exactly fills the pool;
        buffers outside the chain keep their bytes. */
    method Append(data: Bytes, pool: BufferPool) returns (r: ChainResult)
      requires Valid(pool)
      modifies this, pool
      ensures Valid(pool)
      ensures r.Done? <==> |data| <= old(Room(pool))
      ensures Contents(pool) == old(Contents(pool)) + data[..Min(|data|, old(Room(pool)))]
      ensures Room(pool) == old(Room(pool)) - Min(|data|, old(Room(pool)))
      ensures multiset(pool.freeList) + multiset(buffers) == old(multiset(pool.freeList) + multiset(buffers))
      ensures Untouched(old(pool.buffers), pool.buffers, buffers) && old(buffers) <= buffers
    {
      hide Contents, Room, Valid, LastIsFull, Untouched;
      UntouchedSame(pool.buffers, buffers);
      var offset := 0;
      while offset < |data|
        invariant 0 <= offset <= |data| && Valid(pool)
        invariant Untouched(old(pool.buffers), pool.buffers, buffers) && old(buffers) <= buffers
        invariant Room(pool) == old(Room(pool)) - offset
        invariant Contents(pool) == old(Contents(pool)) + data[..offset]
        invariant multiset(pool.freeList) + multiset(buffers) == old(multiset(pool.freeList) + multiset(buffers))
      {
        ghost var bufs, idxs := pool.buffers, buffers;
        var part := AppendPart(data[offset..], pool);
        UntouchedTrans(old(pool.buffers), bufs, pool.buffers, idxs, buffers);
        if part.None? {
          return PoolExhausted;
        }
        assert data[..offset] + data[offset..][..part.value] == data[..offset + part.value];
        offset := offset + part.value;
      }
      assert data[..offset] == data;
      r := Done;
    }

    /** Any series of appends concatenates, up to the same room. */
    method AppendSeries(parts: seq<Bytes>, pool: BufferPool) returns (r: ChainResult)
      requires Valid(pool)
      modifies this, pool
      ensures Valid(pool)
      ensures r.Done? <==> |Concat(parts)| <= old(Room(pool))
      ensures Contents(pool) == old(Contents(pool)) + Concat(parts)[..Min(|Concat(parts)|, old(Room(pool)))]
      ensures multiset(pool.freeList) + multiset(buffers) == old(multiset(pool.freeList) + multiset(buffers))
      ensures Untouched(old(pool.buffers), pool.buffers, buffers)
    {
      hide Contents, Room, Valid, LastIsFull, Untouched, Concat;
      UntouchedSame(pool.buffers, buffers);
      ConcatNone();
      ghost var start, room, whole := Contents(pool), Room(pool), Concat(parts);
      ghost var done := 0;
      assert parts[0..] == parts;
      for i := 0 to |parts|
        invariant Valid(pool) && 0 <= done <= |whole| && Room(pool) == room - done
        invariant Untouched(old(pool.buffers), pool.buffers, buffers) && old(buffers) <= buffers
        invariant Contents(pool) == start + whole[..done] && Concat(parts[i..]) == whole[done..]
        invariant multiset(pool.freeList) + multiset(buffers) == old(multiset(pool.freeList) + multiset(buffers))
      {
        NextPart(parts, i, whole, done, room);
        ghost var bufs, idxs := pool.buffers, buffers;
        r := Append(parts[i], pool);
        UntouchedTrans(old(pool.buffers), bufs, pool.buffers, idxs, buffers);
        if r.PoolExhausted? {
          return;
        }
        done := done + |parts[i]|;
      }
      assert parts[|parts|..] == [];
      assert whole[done..] == [] && whole[..done] == whole;
      r := Done;
    }

    /** `assemble`: the copying loop. */
    method Assemble(pool: BufferPool) returns (result: Bytes)
      requires Valid(pool)
      ensures result == Contents(pool)
    {
      hide Flat, Shape, Distinct;
      result := [];
      var remaining := len;
      assert buffers[0..] == buffers;
      for i := 0 to |buffers|
        invariant remaining >= 0
        invariant result + Flat(pool.buffers, buffers[i..], remaining, bufferSize) == Contents(pool)
      {
        var chunk := Min(remaining, bufferSize);
        FlatHead(pool.buffers, buffers, i, remaining, bufferSize);
        result := result + pool.buffers[buffers[i]][..chunk];
        remaining := remaining - chunk;
      }
      FlatNone(pool.buffers, remaining, bufferSize);
    }

    /** `as_contiguous`: no copy for a single buffer. */
    method AsContiguous(pool: BufferPool) returns (result: Bytes)
      requires Valid(pool)
      ensures result == Contents(pool)
    {
      if buffers == [] {
        result := [];
      } else if |buffers| == 1 {
        result := pool.buffers[buffers[0]][..len];
        assert Flat(pool.buffers, buffers[1..], 0, bufferSize) == [];
      } else {
        result := Assemble(pool);
      }
    }

    method Chunks(pool: BufferPool) returns (chunks: seq<Bytes>)
      requires Valid(pool)
      ensures |chunks| == |buffers| && Concat(chunks) == Contents(pool)
    {
      hide Flat, Shape, Distinct, Concat;
      chunks := [];
      ConcatNone();
      var remaining := len;
      assert buffers[0..] == buffers;
      for i := 0 to |buffers|
        invariant remaining >= 0 && |chunks| == i
        invariant Concat(chunks) + Flat(pool.buffers, buffers[i..], remaining, bufferSize) == Contents(pool)
      {
        var chunk := Min(remaining, bufferSize);
        FlatHead(pool.buffers, buffers, i, remaining, bufferSize);
        ConcatSnoc(chunks, pool.buffers[buffers[i]][..chunk]);
        chunks := chunks + [pool.buffers[buffers[i]][..chunk]];
        remaining := remaining - chunk;
      }
      FlatNone(pool.buffers, remaining, bufferSize);
    }

    /** `io_slices` */
    method IoSlices(pool: BufferPool, startOffset: nat) returns (slices: seq<Bytes>)
      requires Valid(pool)
      ensures forall i :: 0 <= i < |slices| ==> slices[i] != []
      ensures Concat(slices) == if startOffset >= len then []
                                else Gather(pool.buffers, buffers, startOffset, len - startOffset, bufferSize)
    {
      hide Gather, Flat, Shape, Distinct, Concat;
      slices := [];
      ConcatNone();
      if startOffset >= len {
        return;
      }
      var skip, remaining := startOffset, len - startOffset;
      ghost var goal := Gather(pool.buffers, buffers, skip, remaining, bufferSize);
      assert buffers[0..] == buffers;
      for i := 0 to |buffers|
        invariant skip >= 0 && remaining >= 0
        invariant forall j :: 0 <= j < |slices| ==> slices[j] != []
        invariant Concat(slices) + Gather(pool.buffers, buffers[i..], skip, remaining, bufferSize) == goal
      {
        GatherHead(pool.buffers, buffers, i, skip, remaining, bufferSize);
        var buf := pool.buffers[buffers[i]];
        var chunk := Min(remaining, bufferSize);
        if skip >= chunk {
          skip := skip - chunk;
        } else {
          ConcatSnoc(slices, buf[skip..chunk]);
          Regroup(Concat(slices), buf[skip..chunk],
                  Gather(pool.buffers, buffers[i + 1..], 0, remaining - chunk, bufferSize));
          slices := slices + [buf[skip..chunk]];
          skip := 0;
          remaining := remaining - chunk;
        }
      }
      GatherHead(pool.buffers, buffers, |buffers|, skip, remaining, bufferSize);
      assert Concat(slices) + [] == Concat(slices);
    }

    method Release(pool: BufferPool)
      requires pool.Valid() && InPool(pool.buffers, buffers)
      modifies this, pool`freeList
      ensures pool.Valid() && pool.freeList == old(pool.freeList) + old(buffers)
      ensures buffers == [] && len == 0
    {
      pool.FreeMany(buffers);
      buffers, len := [], 0;
    }
  }

  lemma Regroup(a: Bytes, b: Bytes, c: Bytes)
    ensures a + (b + c) == (a + b) + c
  {
  }

  lemma ConcatNone()
    ensures Concat([]) == []
  {
  }

  /** Where part number `i` of a series lies in the concatenation. */
  lemma NextPart(parts: seq<Bytes>, i: nat, whole: Bytes, done: nat, room: nat)
    requires i < |parts| && done <= |whole| && done <= room
    requires Concat(parts[i..]) == whole[done..]
    ensures done + |parts[i]| <= |whole|
    ensures whole[..done] + parts[i] == whole[..done + |parts[i]|]
    ensures Concat(parts[i + 1..]) == whole[done + |parts[i]|..]
    ensures room < done + |parts[i]| ==> whole[..done] + parts[i][..room - done] == whole[..room]
  {
    assert parts[i..][1..] == parts[i + 1..];
    var rest := Concat(parts[i + 1..]);
    assert parts[i] + rest == whole[done..];
    assert whole == whole[..done] + (parts[i] + rest);
    assert whole[done + |parts[i]|..] == rest;
    assert whole[..done + |parts[i]|] == whole[..done] + parts[i];
  }

  // ---------------------------------------------------------------- scatter-gather views

  /** What the loop of `io_slices` collects, as one byte string. */
  function Gather(bufs: seq<Bytes>, idxs: seq<nat>, skip: nat, remaining: nat, size: nat): Bytes
    requires SameSize(bufs, size) && InPool(bufs, idxs)
    decreases |idxs|
  {
    if idxs == [] then []
    else
      var chunk := Min(remaining, size);
      if skip >= chunk then Gather(bufs, idxs[1..], skip - chunk, remaining, size)
      else bufs[idxs[0]][skip..chunk] + Gather(bufs, idxs[1..], 0, remaining - chunk, size)
  }

  lemma GatherHead(bufs: seq<Bytes>, idxs: seq<nat>, i: nat, skip: nat, remaining: nat, size: nat)
    requires SameSize(bufs, size) && InPool(bufs, idxs) && i <= |idxs|
    ensures var chunk := Min(remaining, size);
            Gather(bufs, idxs[i..], skip, remaining, size) ==
            if i == |idxs| then []
            else if skip >= chunk then Gather(bufs, idxs[i + 1..], skip - chunk, remaining, size)
            else bufs[idxs[i]][skip..chunk] + Gather(bufs, idxs[i + 1..], 0, remaining - chunk, size)
  {
    if i < |idxs| {
      assert idxs[i..][1..] == idxs[i + 1..];
    }
  }

  /** The offsets from which resuming works: the start, or a buffer boundary with a full buffer left. */
  predicate Resumable(start: nat, len: nat, size: nat)
    requires size > 0
  {
    start == 0 || (start % size == 0 && start + size <= len)
  }

  lemma {:induction false} GatherNothing(bufs: seq<Bytes>, idxs: seq<nat>, size: nat)
    requires SameSize(bufs, size) && InPool(bufs, idxs)
    ensures Gather(bufs, idxs, 0, 0, size) == []
    decreases |idxs|
  {
    if idxs != [] {
      GatherNothing(bufs, idxs[1..], size);
    }
  }

  lemma {:induction false} GatherFromStart(bufs: seq<Bytes>, idxs: seq<nat>, len: nat, size: nat)
    requires size > 0 && SameSize(bufs, size) && InPool(bufs, idxs) && Shape(|idxs|, len, size)
    ensures Gather(bufs, idxs, 0, len, size) == Flat(bufs, idxs, len, size)
    decreases |idxs|
  {
    if |idxs| == 1 {
      assert Flat(bufs, idxs[1..], 0, size) == [] && Gather(bufs, idxs[1..], 0, 0, size) == [];
    } else if |idxs| > 1 {
      GatherFromStart(bufs, idxs[1..], len - size, size);
    }
  }

  /** How far into its buffer a position lies. */
  function Into(pos: nat, size: nat): (r: nat)
    requires size > 0
    ensures r < size
    decreases pos
  {
    if pos < size then pos else Into(pos - size, size)
  }

  lemma {:induction false} IntoIsMod(pos: nat, size: nat)
    requires size > 0
    ensures Into(pos, size) == pos % size
    decreases pos
  {
    if pos < size {
      ModUnique(pos, size, 0, pos);
    } else {
      IntoIsMod(pos - size, size);
      ModBack(pos, size);
    }
  }

  /** On its valid domain the scatter-gather view is exactly the contents from the offset on. */
  lemma GatherResumes(bufs: seq<Bytes>, idxs: seq<nat>, start: nat, len: nat, size: nat)
    requires size > 0 && SameSize(bufs, size) && InPool(bufs, idxs) && Shape(|idxs|, len, size)
    requires start < len && Resumable(start, len, size)
    ensures |Flat(bufs, idxs, len, size)| == len
    ensures Gather(bufs, idxs, start, len - start, size) == Flat(bufs, idxs, len, size)[start..]
  {
    FlatLength(bufs, idxs, len, size);
    if start == 0 {
      GatherFromStart(bufs, idxs, len, size);
    } else {
      IntoIsMod(start, size);
      GatherAtBoundary(bufs, idxs, start, len, size);
    }
  }

  lemma {:induction false} GatherAtBoundary(bufs: seq<Bytes>, idxs: seq<nat>, start: nat, len: nat, size: nat)
    requires size > 0 && SameSize(bufs, size) && InPool(bufs, idxs) && Shape(|idxs|, len, size)
    requires start + size <= len && Into(start, size) == 0
    ensures |Flat(bufs, idxs, len, size)| == len
    ensures Gather(bufs, idxs, start, len - start, size) == Flat(bufs, idxs, len, size)[start..]
    decreases |idxs|
  {
    FlatLength(bufs, idxs, len, size);
    if start == 0 {
      GatherFromStart(bufs, idxs, len, size);
    } else {
      var rest := idxs[1..];
      GatherAtBoundary(bufs, rest, start - size, len - size, size);
      hide Flat, Gather, Shape, Into;
      assert idxs[0..] == idxs;
      FlatHead(bufs, idxs, 0, len, size);
      GatherHead(bufs, idxs, 0, start, len - start, size);
      var head := bufs[idxs[0]][..size];
      assert (head + Flat(bufs, rest, len - size, size))[start..] == Flat(bufs, rest, len - size, size)[start - size..];
    }
  }

  /** Resuming inside a buffer while a full buffer's worth is left loses bytes. */
  lemma {:induction false} GatherTooShort(bufs: seq<Bytes>, idxs: seq<nat>, start: nat, len: nat, size: nat)
    requires size > 0 && SameSize(bufs, size) && InPool(bufs, idxs) && Shape(|idxs|, len, size)
    requires start + size <= len && Into(start, size) != 0
    ensures |Gather(bufs, idxs, start, len - start, size)| < len - start
    decreases |idxs|
  {
    var rest := idxs[1..];
    if start < size {
      GatherAtMost(bufs, rest, 0, len - start - size, size);
    } else {
      GatherTooShort(bufs, rest, start - size, len - size, size);
    }
  }

  lemma {:induction false} GatherAtMost(bufs: seq<Bytes>, idxs: seq<nat>, skip: nat, remaining: nat, size: nat)
    requires SameSize(bufs, size) && InPool(bufs, idxs)
    ensures |Gather(bufs, idxs, skip, remaining, size)| <= remaining
    decreases |idxs|
  {
    if idxs != [] {
      var chunk := Min(remaining, size);
      if skip >= chunk {
        GatherAtMost(bufs, idxs[1..], skip - chunk, remaining, size);
      } else {
        GatherAtMost(bufs, idxs[1..], 0, remaining - chunk, size);
      }
    }
  }

  /** With less than a buffer left, the view is short or it is the head of buffer number skip/remaining. */
  lemma {:induction false} GatherSmall(bufs: seq<Bytes>, idxs: seq<nat>, skip: nat, remaining: nat, size: nat)
    returns (q: nat)
    requires SameSize(bufs, size) && InPool(bufs, idxs) && 0 < remaining < size
    ensures |Gather(bufs, idxs, skip, remaining, size)| == remaining ==>
              && q < |idxs| && skip == q * remaining
              && Gather(bufs, idxs, skip, remaining, size) == bufs[idxs[q]][..remaining]
    decreases |idxs|
  {
    q := 0;
    if idxs != [] {
      if skip >= remaining {
        q := GatherSmall(bufs, idxs[1..], skip - remaining, remaining, size);
        assert q * remaining + remaining == (q + 1) * remaining;
        q := q + 1;
      } else {
        GatherNothing(bufs, idxs[1..], size);
      }
    }
  }

  /** The byte of the contents at position `i`. */
  lemma {:induction false} FlatAt(bufs: seq<Bytes>, idxs: seq<nat>, len: nat, size: nat, i: nat) returns (b: nat)
    requires size > 0 && SameSize(bufs, size) && InPool(bufs, idxs) && Shape(|idxs|, len, size)
    requires i < len
    ensures |Flat(bufs, idxs, len, size)| == len
    ensures b < |idxs| && b * size <= i < b * size + size
    ensures Flat(bufs, idxs, len, size)[i] == bufs[idxs[b]][i - b * size]
    decreases |idxs|
  {
    FlatLength(bufs, idxs, len, size);
    if i < size {
      b := 0;
    } else {
      b := FlatAt(bufs, idxs[1..], len - size, size, i - size);
      assert (b + 1) * size == b * size + size;
      b := b + 1;
    }
  }

  /** Buffers of one value, except buffer `j`, which is filled with another. */
  function Marked(count: nat, size: nat, j: nat): (r: seq<Bytes>)
    ensures |r| == count && SameSize(r, size)
  {
    seq(count, i => seq(size, _ => if i == j then 1 else 0))
  }

  /** Off the valid domain the view is wrong for some contents of the same chain. */
  lemma GatherFails(count: nat, idxs: seq<nat>, start: nat, len: nat, size: nat) returns (bufs: seq<Bytes>)
    requires size > 0 && Distinct(idxs) && Shape(|idxs|, len, size)
    requires forall i :: 0 <= i < |idxs| ==> idxs[i] < count
    requires start < len && !Resumable(start, len, size)
    ensures |bufs| == count && SameSize(bufs, size) && |Flat(bufs, idxs, len, size)| == len
    ensures Gather(bufs, idxs, start, len - start, size) != Flat(bufs, idxs, len, size)[start..]
  {
    var plain := Marked(count, size, count);
    var b := FlatAt(plain, idxs, len, size, start);
    bufs := Marked(count, size, idxs[b]);
    FlatLength(bufs, idxs, len, size);
    if start + size <= len {
      IntoIsMod(start, size);
      GatherTooShort(bufs, idxs, start, len, size);
    } else {
      var remaining := len - start;
      var q := GatherSmall(bufs, idxs, start, remaining, size);
      var b' := FlatAt(bufs, idxs, len, size, start);
      SameBuffer(b, b', size, start);
      if |Gather(bufs, idxs, start, remaining, size)| == remaining {
        QuotientDiffers(q, b, remaining, size, start);
        assert bufs[idxs[q]][..remaining][0] == 0;
        assert Flat(bufs, idxs, len, size)[start..][0] == 1;
      }
    }
  }

  lemma SameBuffer(b: nat, b': nat, size: nat, i: nat)
    requires size > 0 && b * size <= i < b * size + size && b' * size <= i < b' * size + size
    ensures b == b'
  {
    ModUnique(i, size, b, i - b * size);
    ModUnique(i, size, b', i - b' * size);
  }

  lemma QuotientDiffers(q: nat, b: nat, remaining: nat, size: nat, start: nat)
    requires 0 < remaining < size && start > 0
    requires start == q * remaining && b * size <= start
    ensures q != b
  {
    MulAtLeast(size - remaining, q, 0);
    assert q * size == q * remaining + (size - remaining) * q;
  }

  /** Resuming at `start` is right for every contents of the chain if and only if `start` is resumable. */
  lemma ResumesIff(count: nat, idxs: seq<nat>, start: nat, len: nat, size: nat)
    requires size > 0 && Distinct(idxs) && Shape(|idxs|, len, size)
    requires forall i :: 0 <= i < |idxs| ==> idxs[i] < count
    requires start < len
    ensures Resumable(start, len, size) <==>
            forall bufs :: |bufs| == count && SameSize(bufs, size) ==> ResumesRight(bufs, idxs, start, len, size)
  {
    if Resumable(start, len, size) {
      forall bufs | |bufs| == count && SameSize(bufs, size)
        ensures ResumesRight(bufs, idxs, start, len, size)
      {
        GatherResumes(bufs, idxs, start, len, size);
      }
    } else {
      var bufs := GatherFails(count, idxs, start, len, size);
      assert !ResumesRight(bufs, idxs, start, len, size);
    }
  }

  ghost predicate ResumesRight(bufs: seq<Bytes>, idxs: seq<nat>, start: nat, len: nat, size: nat) {
    && SameSize(bufs, size) && InPool(bufs, idxs) && |Flat(bufs, idxs, len, size)| == len && start <= len
    && Gather(bufs, idxs, start, len - start, size) == Flat(bufs, idxs, len, size)[start..]
  }
}
