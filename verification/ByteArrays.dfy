/** The buffer that the records of the snapshot file are built in. */
module ByteArrays {

  /** What a buffer holds after `data` has been copied over the part that starts at `start`. */
  function Overwritten(buf: string, start: nat, data: string): string
    requires start + |data| <= |buf|
  {
    buf[..start] + data + buf[start + |data|..]
  }

  lemma Copied(buf: string, before: string, start: nat, data: string)
    requires start + |data| <= |buf| == |before|
    requires forall k | start <= k < start + |data| :: buf[k] == data[k - start]
    requires forall k | 0 <= k < start || start + |data| <= k < |buf| :: buf[k] == before[k]
    ensures buf == Overwritten(before, start, data)
  {
  }

  lemma OverwrittenMore(buf: string, start: nat, data: string, c: char)
    requires start + |data| < |buf|
    ensures Overwritten(buf, start, data + [c]) == Overwritten(buf, start, data)[start + |data| := c]
  {
  }

  class ByteArray {
    const buf: array<char>
    var wp: nat // the write pointer, as an offset

    /** What has been written so far. */
    ghost function Written(): (s: string)
      reads this, buf
      ensures wp == buf.Length ==> s == buf[..]
      ensures |s| == if wp <= buf.Length then wp else buf.Length
    {
      if wp <= buf.Length then buf[..wp] else buf[..]
    }

    constructor (len: nat)
      ensures fresh(buf) && buf.Length == len && wp == 0 && Written() == ""
      ensures forall i | 0 <= i < len :: buf[i] == '\0'
    {
      buf := new char[len](_ => '\0');
      wp := 0;
    }

    /** fill(data, len, start, offset): copies nothing when it does not fit. */
    method FillAt(data: string, n: nat, start: nat, offset: nat)
      requires offset + n <= |data|
      modifies buf
      ensures buf[..] == if start + n > buf.Length then old(buf[..])
                         else Overwritten(old(buf[..]), start, data[offset..offset + n])
    {
      if start + n > buf.Length { return; }
      for i := 0 to n
        invariant forall k | start <= k < start + i :: buf[k] == data[offset + (k - start)]
        invariant forall k | 0 <= k < start || start + i <= k < buf.Length :: buf[k] == old(buf[k])
      {
        buf[start + i] := data[offset + i];
      }
      Copied(buf[..], old(buf[..]), start, data[offset..offset + n]);
    }

    /** fill(data, len): copies at the write pointer and moves it, even when nothing was copied. */
    method Fill(data: string, n: nat)
      requires n <= |data|
      modifies this, buf
      ensures wp == old(wp) + n
      ensures buf[..] == if wp > buf.Length then old(buf[..])
                         else Overwritten(old(buf[..]), old(wp), data[..n])
    {
      FillAt(data, n, wp, 0);
      assert data[0..n] == data[..n];
      wp := wp + n;
    }

    /** fill(val, len): repeats a character, at most to the end of the buffer. */
    method FillChar(val: char, n: nat)
      modifies this, buf
      ensures var k := if old(wp) >= buf.Length then 0
                       else if old(wp) + n <= buf.Length then n else buf.Length - old(wp);
              && wp == old(wp) + k
              && (old(wp) <= buf.Length ==>
                    buf[..] == Overwritten(old(buf[..]), old(wp), seq(k, _ => val)))
              && (old(wp) > buf.Length ==> buf[..] == old(buf[..]))
    {
      var cnt := 0;
      while wp < buf.Length && cnt < n
        invariant cnt <= n && wp == old(wp) + cnt
        invariant wp <= buf.Length || cnt == 0
        invariant wp <= buf.Length ==> buf[..] == Overwritten(old(buf[..]), old(wp), seq(cnt, _ => val))
        invariant wp > buf.Length ==> buf[..] == old(buf[..])
        decreases n - cnt
      {
        OverwrittenMore(old(buf[..]), old(wp), seq(cnt, _ => val), val);
        assert seq(cnt + 1, _ => val) == seq(cnt, _ => val) + [val];
        ghost var before := buf[..];
        buf[wp] := val;
        assert buf[..] == before[wp := val];
        wp := wp + 1;
        cnt := cnt + 1;
      }
    }

    /** A text that fits goes right behind what has been written. */
    method Append(data: string)
      requires wp + |data| <= buf.Length
      modifies this, buf
      ensures wp == old(wp) + |data| && Written() == old(Written()) + data
    {
      Fill(data, |data|);
      assert data[..|data|] == data;
    }

    method AppendChar(val: char)
      requires wp < buf.Length
      modifies this, buf
      ensures wp == old(wp) + 1 && Written() == old(Written()) + [val]
    {
      FillChar(val, 1);
      assert seq(1, _ => val) == [val];
    }
  }
}
