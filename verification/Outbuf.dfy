/** The bounded output buffer of `constexpr_fmt.h`: it keeps the characters that fit and counts
    all of them, as section 7.21.6.5 of ISO/IEC 9899:2011 asks of `snprintf`. */
module Outbuf {
  const PADSIZE: int := 16

  function Min(a: int, b: int): int { if a <= b then a else b }

  /** What of `text` fits into `size` characters of which the last is kept for the NUL. */
  function Fitting(text: seq<char>, size: nat): (kept: seq<char>)
    requires size >= 1
    ensures kept <= text && |kept| == Min(|text|, size - 1)
  {
    text[..Min(|text|, size - 1)]
  }

  class OutbufArg {
    const buf: array<char>
    const size: nat             // pBufEnd_ - pBufBegind_
    var cur: nat                // pBuf_ - pBufBegind_
    var written: nat
    /** Everything written, as if the buffer had no end. */
    ghost var text: seq<char>

    ghost predicate Valid()
      reads this, buf
    {
      && 1 <= size <= buf.Length
      && written == |text|
      && cur == |Fitting(text, size)| && buf[..cur] == Fitting(text, size)
    }

    /** The characters behind the announced size, which are somebody else's. */
    ghost function Beyond(): seq<char>
      reads this, buf
      requires Valid()
    {
      buf[size..]
    }

    constructor (buffer: array<char>, count: nat)
      requires 1 <= count <= buffer.Length
      ensures Valid() && text == [] && buf == buffer && size == count
    {
      buf, size := buffer, count;
      cur, written, text := 0, 0, [];
    }

    /** `memcpy` to the running pointer, which moves behind the copy. */
    method Copy(p: seq<char>)
      requires cur + |p| <= buf.Length
      modifies this`cur, buf
      ensures cur == old(cur) + |p|
      ensures buf[..cur] == old(buf[..cur]) + p && buf[cur..] == old(buf[cur + |p|..])
    {
      forall k | 0 <= k < |p| {
        buf[cur + k] := p[k];
      }
      cur := cur + |p|;
    }

    method Write(ch: char)
      requires Valid()
      modifies this, buf
      ensures Valid() && text == old(text) + [ch] && Beyond() == old(Beyond())
    {
      written := written + 1;
      text := text + [ch];
      var remaining := size - cur - 1;
      if remaining <= 0 {
        return;
      }
      buf[cur] := ch;
      cur := cur + 1;
    }

    method WriteBlock(p: seq<char>)
      requires Valid()
      modifies this, buf
      ensures Valid() && text == old(text) + p && Beyond() == old(Beyond())
    {
      written := written + |p|;
      text := text + p;
      var remaining := size - cur - 1;
      if remaining <= 0 {
        return;
      }
      var n := |p|;
      if n > remaining {
        n := remaining;
      }
      Copy(p[..n]);
      assert buf[size..] == buf[cur..][size - cur..];
    }

    /** `writePaddings`: up to sixteen characters at a time, none for a count that is not positive. */
    method WritePaddings(padding: char, count: int)
      requires Valid()
      modifies this, buf
      ensures Valid() && text == old(text) + Padding(padding, count) && Beyond() == old(Beyond())
    {
      if count <= 0 {
        return;
      }
      var n := count;
      written := written + n;
      text := text + Padding(padding, count);
      var remaining := size - cur - 1;
      if remaining <= 0 {
        return;
      } else if n > remaining {
        n := remaining;
      }
      ghost var start := cur;
      ghost var total := n;
      while n > PADSIZE
        invariant 0 <= n <= total && cur + n == start + total
        invariant buf[..cur] == old(buf[..cur]) + Padding(padding, cur - start)
        invariant buf[size..] == old(buf[size..])
        modifies this`cur, buf
        decreases n
      {
        Copy(Padding(padding, PADSIZE));
        assert buf[size..] == buf[cur..][size - cur..];
        n := n - PADSIZE;
      }
      Copy(Padding(padding, n));
      assert buf[size..] == buf[cur..][size - cur..];
    }

    /** How many characters of the buffer the sink hands to the file: exactly those that are there. */
    method SizeToWrite() returns (n: nat)
      requires Valid()
      ensures n == |Fitting(text, size)| && buf[..n] == Fitting(text, size)
    {
      n := if written < size - 1 then written else size - 1;
    }

    method Reset()
      requires Valid()
      modifies this
      ensures Valid() && text == []
    {
      cur, written, text := 0, 0, [];
    }

    /** `done`: there is always room for the terminating NUL. */
    method Done()
      requires Valid()
      modifies buf
      ensures cur < size && buf[..cur] == Fitting(text, size) && buf[cur] == '\0'
      ensures Beyond() == old(Beyond())
    {
      buf[cur] := '\0';
    }
  }

  /** `n` copies of the padding character. */
  function Padding(c: char, n: int): (p: seq<char>)
    ensures |p| == (if n <= 0 then 0 else n) && forall i | 0 <= i < |p| :: p[i] == c
  {
    seq(if n <= 0 then 0 else n, _ => c)
  }
}
