/** The replication backlog: a circular buffer over the newest bytes of the stream. */
module ReplBacklog {
  import opened Prelude

  class Backlog {
    var buf: array<byte>
    var writePos: nat   // where the next byte goes
    var histlen: nat    // valid bytes, at most the capacity
    var offset: nat     // stream bytes fed so far

    // The unbounded stream this buffer stands for: every byte appended since
    // the last reset, the first of which has stream offset `origin`.
    ghost var origin: nat
    ghost var since: Bytes

    ghost predicate Valid()
      reads this, buf
    {
      && 0 < buf.Length
      && writePos < buf.Length
      && offset == origin + |since|
      && histlen == Min(|since|, buf.Length)
      && Newest(histlen)
    }

    /** The buffer index of the byte written `age` bytes ago. */
    ghost function Back(age: nat): (p: int)
      reads `buf, `writePos
    {
      if age <= writePos then writePos - age else writePos + buf.Length - age
    }

    /** The newest `good` bytes of the stream are in the buffer, where they belong. */
    ghost predicate Newest(good: nat)
      requires writePos < buf.Length
      reads `buf, `writePos, `since, buf
    {
      && good <= buf.Length && good <= |since|
      && forall age :: 1 <= age <= good ==> buf[Back(age)] == since[|since| - age]
    }

    /** The retained bytes, oldest first. */
    ghost function Window(): (w: Bytes)
      requires Valid()
      reads this, buf
      ensures |w| == histlen <= offset
    {
      Last(since, buf.Length)
    }

    constructor (capacity: nat)
      ensures Valid() && fresh(buf)
      ensures buf.Length == Max(capacity, 1)
      ensures origin == 0 && since == []
    {
      buf := new byte[Max(capacity, 1)](_ => 0);
      writePos, histlen, offset := 0, 0, 0;
      origin, since := 0, [];
    }

    /** Exactly when every byte from `from` to the end of the stream survives. */
    method Contains(from: nat) returns (held: bool)
      requires Valid()
      ensures held <==> origin <= from <= offset && |since[from - origin..]| <= buf.Length
    {
      held := from >= offset - histlen && from <= offset;
    }

    lemma NewestNone()
      requires writePos < buf.Length
      ensures Newest(0)
    {
    }

    method Append(data: Bytes)
      requires Valid()
      modifies this, buf
      ensures Valid() && buf == old(buf)
      ensures origin == old(origin) && since == old(since) + data
    {
      hide Newest, Back;
      offset := offset + |data|;
      if |data| > buf.Length {
        // Only the newest bytes can survive; the others count as fed all the same.
        var skip := |data| - buf.Length;
        TakeDrop(since, data, skip);
        since := since + data[..skip];
        NewestNone();
        PutAll(data[skip..], 0);
      } else {
        PutAll(data, histlen);
      }
    }

    /** Writes at most a buffer's worth of bytes, wrapping around where it ends. */
    method PutAll(data: Bytes, ghost held: nat)
      requires writePos < buf.Length && |data| <= buf.Length && Newest(held) && held <= histlen <= buf.Length && histlen <= |since|
      modifies this`writePos, this`histlen, this`since, buf
      ensures writePos < buf.Length && since == old(since) + data
      ensures histlen == Min(old(histlen) + |data|, buf.Length) && Newest(Min(held + |data|, buf.Length))
    {
      hide Newest, Back;
      var rest := data;
      ghost var good: nat := held;
      while rest != []
        invariant writePos < buf.Length && since + rest == old(since) + data
        invariant Newest(good) && good == Min(held + (|data| - |rest|), buf.Length)
        invariant histlen == Min(old(histlen) + (|data| - |rest|), buf.Length) && |rest| <= |data|
        decreases |rest|
      {
        var n := Min(|rest|, buf.Length - writePos);
        TakeDrop(since, rest, n);
        PutChunk(rest[..n], good);
        rest := rest[n..];
        histlen := Min(histlen + n, buf.Length);
        good := Min(good + n, buf.Length);
      }
      assert since + rest == since;
    }

    /** Overwrites the |chunk| bytes at the write position, which don't wrap. */
    method PutChunk(chunk: Bytes, ghost good: nat)
      requires writePos < buf.Length && writePos + |chunk| <= buf.Length
      requires Newest(good)
      modifies this`writePos, this`since, buf
      ensures writePos < buf.Length && since == old(since) + chunk
      ensures Newest(Min(good + |chunk|, buf.Length))
    {
      hide Wrapped;
      forall i | 0 <= i < |chunk| {
        buf[writePos + i] := chunk[i];
      }
      writePos := Wrapped(writePos + |chunk|, buf.Length);
      since := since + chunk;
      forall age | 1 <= age <= Min(good + |chunk|, buf.Length)
        ensures buf[Back(age)] == since[|since| - age]
      {
        if age > |chunk| {
          var before := age - |chunk|;
          assert since[|since| - age] == old(since)[|old(since)| - before];
          assert Back(age) == old(Back(before));
        }
      }
    }

    method Reset(at: nat)
      requires Valid()
      modifies this
      ensures Valid() && buf == old(buf)
      ensures origin == at && since == []
    {
      writePos, histlen, offset := 0, 0, at;
      origin, since := at, [];
    }

    /** The bytes [from, offset()) of the stream, which must still be held. */
    method CopyFrom(from: nat) returns (out: Bytes)
      requires Valid()
      requires offset - histlen <= from <= offset
      ensures origin <= from && out == since[from - origin..]
    {
      hide Newest, Back, Wrapped, Valid;
      Sizes();
      var len := offset - from;
      var pos: nat := Wrapped(writePos + buf.Length - len, buf.Length);
      BackIs(len);
      out := [];
      ghost var first, done := from - origin, from - origin;
      while len > 0
        invariant 0 <= len <= offset - from && done == |since| - len
        invariant pos < buf.Length
        invariant len > 0 ==> pos == Back(len)
        invariant first <= done && out == since[first..done]
      {
        var n := Min(len, buf.Length - pos);
        var chunk := buf[pos..pos + n];
        Chunk(len, n);
        SlicesJoin(since, first, done, done + n);
        out := out + chunk;
        pos := Wrapped(pos + n, buf.Length);
        BackStep(len, n);
        len, done := len - n, done + n;
      }
    }

    lemma Sizes()
      requires Valid()
      ensures writePos < buf.Length && offset == origin + |since| && histlen <= buf.Length && histlen <= |since|
    {
    }

    lemma BackIs(len: nat)
      requires Valid() && len <= histlen
      ensures len > 0 ==> Back(len) == if len <= writePos then writePos - len else writePos + buf.Length - len
    {
    }

    /** One stretch of the buffer that does not wrap is one stretch of the stream. */
    lemma Chunk(len: nat, n: nat)
      requires Valid() && 0 < len <= histlen && n <= len && 0 <= Back(len) && Back(len) + n <= buf.Length
      ensures buf[Back(len)..Back(len) + n] == since[|since| - len..|since| - len + n]
    {
      var pos := Back(len);
      var chunk, wanted := buf[pos..pos + n], since[|since| - len..|since| - len + n];
      forall i | 0 <= i < n
        ensures chunk[i] == wanted[i]
      {
        assert pos + i == Back(len - i);
      }
    }

    lemma BackStep(len: nat, n: nat)
      requires Valid() && 0 < len <= histlen && 0 <= Back(len) < buf.Length && n == Min(len, buf.Length - Back(len))
      ensures len - n > 0 ==> Back(len - n) == if Back(len) + n < buf.Length then Back(len) + n else 0
    {
    }
  }

  /** A position in the ring that has moved on by at most one turn. */
  function Wrapped(x: nat, m: nat): (r: nat)
    requires 0 < m && x < 2 * m
    ensures r == if x < m then x else x - m
  {
    assert x >= m ==> x == m * 1 + (x - m);
    x % m
  }

  lemma TakeDrop<T>(s: seq<T>, t: seq<T>, n: nat)
    requires n <= |t|
    ensures s + t[..n] + t[n..] == s + t
  {
  }

  lemma SlicesJoin<T>(s: seq<T>, i: nat, j: nat, k: nat)
    requires i <= j <= k <= |s|
    ensures s[i..j] + s[j..k] == s[i..k]
  {
  }

  /** Keeping the newest n bytes may be done before or after more are appended. */
  lemma LastOfConcat<T>(a: seq<T>, b: seq<T>, n: nat)
    ensures Last(a + b, n) == Last(Last(a, n) + b, n)
  {
  }
}
