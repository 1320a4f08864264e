/** The output side of inflate(): the buffer at next_out, and the copies of matches from it and from the window. */
module Output {
  import opened Bits
  import opened Tokens
  import opened Window

  /** Copying from a distance that the copy does not overlap. */
  lemma {:induction false} CopyApart(h: seq<byte>, dist: nat, n: nat)
    requires n <= dist <= |h| && 1 <= dist
    ensures Copy(h, dist, n) == h + h[|h| - dist..][..n]
  {
    if n > 0 {
      CopyApart(h, dist, n - 1);
      CopyNext(h, dist, n - 1);
      var c := Copy(h, dist, n - 1);
      assert c[|h| + (n - 1) - dist] == h[|h| - dist..][n - 1];
      assert h[|h| - dist..][..n] == h[|h| - dist..][..n - 1] + [h[|h| - dist..][n - 1]];
    } else {
      assert h[|h| - dist..][..0] == [];
    }
  }

  /** Appending a further piece of the history continues the copy. */
  lemma CopyPiece(h: seq<byte>, dist: nat, done: nat, n: nat, piece: seq<byte>)
    requires 1 <= dist <= |h| && done + n <= dist && piece == h[|h| - (dist - done)..][..n]
    ensures Copy(h, dist, done) + piece == Copy(h, dist, done + n)
  {
    CopyApart(h, dist, done);
    CopyApart(h, dist, done + n);
    var s := h[|h| - dist..];
    assert s[..done + n] == s[..done] + s[done..][..n];
    assert s[done..] == h[|h| - (dist - done)..];
    Associative(h, s[..done], s[done..][..n]);
  }

  class Output {
    var buf: array<byte>
    var put: nat
    /** The output of earlier calls. */
    ghost var before: seq<byte>

    ghost predicate Valid()
      reads `buf, `put
    {
      put <= buf.Length
    }

    /** All output so far. */
    ghost function Out(): seq<byte>
      requires Valid()
      reads this, buf
    {
      before + buf[..put]
    }

    constructor ()
      ensures Valid() && Out() == [] && before == [] && put == 0 && fresh(buf)
    {
      buf := new byte[0];
      put, before := 0, [];
    }

    /** A new output buffer. */
    method SetOutput(a: array<byte>)
      requires Valid()
      modifies this
      ensures Valid() && Out() == old(Out()) && before == Out() && buf == a && put == 0
    {
      before := Out();
      buf, put := a, 0;
    }

    /** The caller takes its buffer back. */
    method Release()
      requires Valid()
      modifies this
      ensures Valid() && Out() == old(Out()) && before == Out() && put == 0 && fresh(buf)
    {
      before := Out();
      buf, put := new byte[0], 0;
    }

    method Put(b: byte)
      requires Valid() && put < buf.Length
      modifies `put, buf
      ensures Valid() && Out() == old(Out()) + [b] && put == old(put) + 1
      ensures buf[..old(put)] == old(buf[..put])
    {
      ghost var s := buf[..put];
      buf[put] := b;
      put := put + 1;
      assert buf[..put] == s + [b];
      Associative(before, s, [b]);
    }

    /** zmemcpy(put, s, |s|). */
    method PutAll(s: seq<byte>)
      requires Valid() && put + |s| <= buf.Length
      modifies `put, buf
      ensures Valid() && Out() == old(Out()) + s && put == old(put) + |s|
    {
      hide Out;
      ghost var out := Out();
      var i: nat := 0;
      assert out + s[..0] == out;
      while i < |s|
        invariant i <= |s| && Valid() && put == old(put) + i && Out() == out + s[..i]
      {
        Put(s[i]);
        Associative(out, s[..i], [s[i]]);
        assert s[..i] + [s[i]] == s[..i + 1];
        i := i + 1;
      }
      assert s[..i] == s;
    }

    /** Copies n bytes of the window. */
    method CopyWindow(w: Window, from: nat, n: nat)
      requires Valid() && put + n <= buf.Length && buf != w.window && from + n <= w.window.Length
      modifies `put, buf
      ensures Valid() && Out() == old(Out()) + w.window[from..][..n] && put == old(put) + n
    {
      hide Out;
      ghost var out, s := Out(), w.window[from..][..n];
      var i: nat := 0;
      assert out + s[..0] == out;
      while i < n
        invariant i <= n && Valid() && put == old(put) + i && Out() == out + s[..i] && s == w.window[from..][..n]
      {
        Put(w.window[from + i]);
        Associative(out, s[..i], [s[i]]);
        assert s[..i] + [s[i]] == s[..i + 1];
        i := i + 1;
      }
      assert s[..i] == s;
    }

    /** Copies one byte from dist bytes back. */
    method CopyByte(dist: nat)
      requires Valid() && put < buf.Length && 1 <= dist <= put
      modifies `put, buf
      ensures Valid() && put == old(put) + 1 && Out() == Copy(old(Out()), dist, 1)
    {
      ghost var h := Out();
      var b := buf[put - dist];
      assert h[|h| - dist] == b;
      Put(b);
      assert Copy(h, dist, 1) == Copy(h + [b], dist, 0);
    }

    /** Copies n bytes from dist bytes back in the buffer; they may overlap the bytes that are written. */
    method CopyOut(dist: nat, n: nat)
      requires Valid() && put + n <= buf.Length && 1 <= dist <= put
      modifies `put, buf
      ensures Valid() && put == old(put) + n && Out() == Copy(old(Out()), dist, n)
    {
      hide Out, Copy;
      ghost var h := Out();
      Distance(dist);
      CopyNone(h, dist);
      var i: nat := 0;
      while i < n
        invariant i <= n && Valid() && put == old(put) + i && Out() == Copy(h, dist, i)
      {
        CopyByte(dist);
        CopyAppend(h, dist, i, 1);
        i := i + 1;
      }
    }

    lemma Distance(dist: nat)
      requires Valid() && dist <= put
      ensures dist <= |Out()|
    {
    }

    /** The same, three bytes at a time, as inflate_fast copies. */
    method CopyThrees(dist: nat, length: nat)
      requires Valid() && put + length <= buf.Length && 1 <= dist <= put
      modifies `put, buf
      ensures Valid() && put == old(put) + length && Out() == Copy(old(Out()), dist, length)
    {
      hide Out, Copy;
      ghost var h := Out();
      Distance(dist);
      CopyNone(h, dist);
      var len := length;
      while len > 2
        invariant 0 <= len <= length && Valid() && put == old(put) + (length - len) && Out() == Copy(h, dist, length - len)
      {
        CopyByte(dist);
        CopyByte(dist);
        CopyByte(dist);
        CopyAppend(h, dist, length - len, 1);
        CopyAppend(h, dist, length - len + 1, 1);
        CopyAppend(h, dist, length - len + 2, 1);
        len := len - 3;
      }
      if len > 0 {
        CopyByte(dist);
        CopyAppend(h, dist, length - len, 1);
        if len > 1 {
          CopyByte(dist);
          CopyAppend(h, dist, length - 1, 1);
        }
      }
    }

    /** Copies the next n of the bytes that start back bytes before the end of the window: bytes dist - done before
        the history h, of which done have been copied. */
    method CopySeen(w: Window, n: nat, ghost h: seq<byte>, ghost dist: nat, ghost done: nat, ghost back: nat, from: nat)
      requires Valid() && w.Valid() && w.wsize > 0 && put + n <= buf.Length && buf != w.window
      requires 1 <= back <= w.whave && n <= back && (back > w.write ==> n <= back - w.write) && from == Back(w.write, w.wsize, back)
      requires 1 <= dist <= |h| && done + n <= dist && Out() == Copy(h, dist, done)
      requires w.seen <= h && |w.seen| - back == |h| - (dist - done)
      modifies `put, buf
      ensures Valid() && put == old(put) + n && Out() == Copy(h, dist, done + n)
    {
      hide Out, Copy, Holds, Back;
      Stretch(w.window[..], w.whave, w.write, w.seen, back, n);
      assert w.window[..][from..] == w.window[from..];
      assert w.seen[|w.seen| - back..][..n] == h[|h| - (dist - done)..][..n];
      CopyPiece(h, dist, done, n, w.window[from..][..n]);
      CopyWindow(w, from, n);
    }

    /** The copy of a match in inflate(): as much of it as can be copied in one go, from the window or from the buffer. */
    method CopySome(w: Window, offset: nat, length: nat) returns (copy: nat)
      requires Valid() && w.Valid() && w.seen == before && put < buf.Length && buf != w.window
      requires length >= 1 && 1 <= offset <= put + w.whave
      modifies `put, buf
      ensures Valid() && 1 <= copy <= length && put == old(put) + copy && offset <= |old(Out())| && Out() == Copy(old(Out()), offset, copy)
    {
      hide Copy, Holds;
      w.Have();
      ghost var h := Out();
      copy := put;
      if offset > copy {
        var back := offset - copy;
        copy := back;
        var from: nat;
        if copy > w.write {
          copy := copy - w.write;
          from := w.wsize - copy;
        } else {
          from := w.write - copy;
        }
        if copy > length {
          copy := length;
        }
        if copy > buf.Length - put {
          copy := buf.Length - put;
        }
        CopyNone(h, offset);
        CopySeen(w, copy, h, offset, 0, back, from);
      } else {
        copy := if length > buf.Length - put then buf.Length - put else length;
        CopyOut(offset, copy);
      }
    }

    /** The copy of a match in inflate_fast(), which starts in the window if it reaches back far enough. */
    method CopyMatch(w: Window, dist: nat, length: nat)
      requires Valid() && w.Valid() && w.seen == before && put + length <= buf.Length && buf != w.window
      requires length >= 3 && 1 <= dist <= put + w.whave
      modifies `put, buf
      ensures Valid() && put == old(put) + length && dist <= |old(Out())| && Out() == Copy(old(Out()), dist, length)
    {
      hide Copy, Holds;
      w.Have();
      ghost var h := Out();
      if dist > put {
        CopyNone(h, dist);
        CopyFar(w, dist, length);
      } else {
        CopyThrees(dist, length);
      }
    }

    method CopyFar(w: Window, dist: nat, length: nat)
      requires Valid() && w.Valid() && w.seen == before && put + length <= buf.Length && buf != w.window
      requires length >= 3 && put < dist <= put + w.whave
      modifies `put, buf
      ensures Valid() && put == old(put) + length && dist <= |old(Out())| && Out() == Copy(old(Out()), dist, length)
    {
      hide Copy, Holds, Out;
      w.Have();
      ghost var h, start := Out(), put;
      OutIs();
      CopyNone(h, dist);
      var len := length;
      var op := dist - put;
      var from: nat;
      var inWindow := true;
      if w.write == 0 {
        from := w.wsize - op;
        if op < len {
          len := len - op;
          CopySeen(w, op, h, dist, 0, op, from);
          inWindow := false;
        }
      } else if w.write < op {
        from := w.wsize + w.write - op;
        op := op - w.write;
        if op < len {
          len := len - op;
          CopySeen(w, op, h, dist, 0, op + w.write, from);
          from := 0;
          if w.write < len {
            op := w.write;
            len := len - op;
            CopySeen(w, op, h, dist, dist - start - op, op, from);
            inWindow := false;
          }
        }
      } else {
        from := w.write - op;
        if op < len {
          len := len - op;
          CopySeen(w, op, h, dist, 0, op, from);
          inWindow := false;
        }
      }
      if inWindow {
        CopySeen(w, len, h, dist, length - len, dist - start - (length - len), from);
      } else {
        CopyAppend(h, dist, length - len, len);
        CopyThrees(dist, len);
      }
    }

    /** The output up to index mark of the buffer, and the rest of it. */
    lemma OutSplit(mark: nat)
      requires Valid() && mark <= put
      ensures Out() == before + buf[..mark] + buf[mark..put]
    {
      assert buf[..put] == buf[..mark] + buf[mark..put];
      Associative(before, buf[..mark], buf[mark..put]);
    }

    lemma OutIs()
      requires Valid()
      ensures before <= Out() && |Out()| == |before| + put
    {
    }
  }
}
