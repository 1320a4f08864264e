/** The history window of inflate(): updatewindow(), and where the last bytes of the output are found in it. */
module Window {
  import opened Bits

  function Smaller(a: nat, b: nat): nat { if a <= b then a else b }

  /** Index p of a ring of n cells. */
  function Wrap(p: nat, n: nat): nat { if p < n then p else p - n }

  /** The cell that was written back cells before the next one. */
  function Back(write: nat, n: nat, back: nat): int { if back <= write then write - back else write + n - back }

  /** The ring holds the last bytes of seen, and nothing else counts as valid. */
  ghost predicate Holds(ring: seq<byte>, whave: nat, write: nat, seen: seq<byte>) {
    && whave == Smaller(|ring|, |seen|) && write < |ring| && (whave < |ring| ==> write == whave)
    && forall k | 1 <= k <= whave :: ring[Back(write, |ring|, k)] == seen[|seen| - k]
  }

  /** Cell i is among the n cells that follow write. */
  predicate Written(write: nat, size: nat, n: nat, i: nat) { write <= i < write + n || i + size < write + n }

  /** Writing fewer bytes than there are cells. */
  lemma HoldsMore(ring: seq<byte>, ring': seq<byte>, whave: nat, write: nat, seen: seq<byte>, s: seq<byte>)
    requires Holds(ring, whave, write, seen) && |s| < |ring| == |ring'|
    requires forall j: nat | j < |s| :: ring'[Wrap(write + j, |ring|)] == s[j]
    requires forall i: nat | i < |ring| && !Written(write, |ring|, |s|, i) :: ring'[i] == ring[i]
    ensures Holds(ring', Smaller(whave + |s|, |ring|), Wrap(write + |s|, |ring|), seen + s)
  {
    var n, c := |ring|, |s|;
    var whave', write', seen' := Smaller(whave + c, n), Wrap(write + c, n), seen + s;
    forall k | 1 <= k <= whave'
      ensures ring'[Back(write', n, k)] == seen'[|seen'| - k]
    {
      if k <= c {
        NewCell(write, n, c, k);
        assert ring'[Wrap(write + (c - k), n)] == s[c - k];
      } else {
        OldCell(write, n, c, k);
        assert ring[Back(write, n, k - c)] == seen[|seen| - (k - c)];
      }
    }
  }

  lemma NewCell(write: nat, n: nat, c: nat, k: nat)
    requires write < n && c < n && 1 <= k <= c
    ensures Back(Wrap(write + c, n), n, k) == Wrap(write + (c - k), n)
  {
  }

  lemma OldCell(write: nat, n: nat, c: nat, k: nat)
    requires write < n && c < k <= n
    ensures Back(Wrap(write + c, n), n, k) == Back(write, n, k - c) && 0 <= Back(write, n, k - c) < n
    ensures !Written(write, n, c, Back(write, n, k - c))
  {
  }

  /** Writing as many bytes as there are cells, or more: only the last ones are kept. */
  lemma HoldsAll(ring: seq<byte>, seen: seq<byte>, s: seq<byte>)
    requires 0 < |ring| <= |s| && ring == s[|s| - |ring|..]
    ensures Holds(ring, |ring|, 0, seen + s)
  {
  }

  /** The first window is empty. */
  lemma HoldsNone(ring: seq<byte>)
    requires |ring| > 0
    ensures Holds(ring, 0, 0, [])
  {
  }

  /** A stretch of n bytes that starts back bytes before the end, as long as it does not run over the end of the ring. */
  lemma Stretch(ring: seq<byte>, whave: nat, write: nat, seen: seq<byte>, back: nat, n: nat)
    requires Holds(ring, whave, write, seen) && 1 <= back <= whave && n <= back
    requires back > write ==> n <= back - write
    ensures 0 <= Back(write, |ring|, back) && Back(write, |ring|, back) + n <= |ring| && back <= |seen|
    ensures ring[Back(write, |ring|, back)..][..n] == seen[|seen| - back..][..n]
  {
    var from := Back(write, |ring|, back);
    forall i | 0 <= i < n
      ensures ring[from..][..n][i] == seen[|seen| - back..][..n][i]
    {
      assert ring[Back(write, |ring|, back - i)] == seen[|seen| - (back - i)];
    }
  }

  class Window {
    const wbits: nat
    const window: array<byte>
    var wsize: nat
    var whave: nat
    var write: nat
    /** The output that has been put into the window. */
    ghost var seen: seq<byte>

    ghost predicate Valid()
      reads `wsize, `whave, `write, `seen, window
    {
      && window.Length == Pow2(wbits) && (wsize == 0 || wsize == window.Length)
      && if wsize == 0 then whave == 0 && write == 0 && seen == [] else Holds(window[..], whave, write, seen)
    }

    constructor (wbits: nat)
      ensures Valid() && wsize == 0 && seen == [] && this.wbits == wbits && fresh(window)
    {
      this.wbits := wbits;
      window := new byte[Pow2(wbits)];
      wsize, whave, write, seen := 0, 0, 0, [];
    }

    /** Without a window nothing has been seen; with one, whave is exact. */
    lemma Have()
      requires Valid()
      ensures whave == Smaller(window.Length, |seen|) && (wsize > 0 ==> wsize == window.Length && write < wsize)
    {
    }

    /** zmemcpy(window + at, buf + from, n). */
    method CopyIn(at: nat, buf: array<byte>, from: nat, n: nat)
      requires buf != window && at + n <= window.Length && from + n <= buf.Length
      modifies window
      ensures forall i: nat | i < window.Length :: window[i] == if at <= i < at + n then buf[from + (i - at)] else old(window[i])
    {
      var i: nat := 0;
      while i < n
        invariant i <= n
        invariant forall k: nat | k < window.Length :: window[k] == if at <= k < at + i then buf[from + (k - at)] else old(window[k])
      {
        window[at + i] := buf[from + i];
        i := i + 1;
      }
    }

    /** updatewindow, after output was written to buf from index from up to put. */
    method Update(buf: array<byte>, from: nat, put: nat)
      requires Valid() && buf != window && from <= put <= buf.Length
      modifies `wsize, `whave, `write, `seen, window
      ensures Valid() && wsize == window.Length && seen == old(seen) + buf[from..put]
    {
      hide Holds;
      if wsize == 0 {
        wsize, write, whave := window.Length, 0, 0;
        HoldsNone(window[..]);
      }
      ghost var s := buf[from..put];
      if put - from >= wsize {
        CopyIn(0, buf, put - wsize, wsize);
        assert window[..] == s[|s| - wsize..];
        HoldsAll(window[..], seen, s);
        write, whave := 0, wsize;
      } else {
        CopyShort(buf, from, put);
      }
      seen := seen + s;
    }

    /** updatewindow for less output than the window holds. */
    method CopyShort(buf: array<byte>, from: nat, put: nat)
      requires wsize == window.Length && Holds(window[..], whave, write, seen)
      requires buf != window && from <= put <= buf.Length && put - from < wsize
      modifies `whave, `write, window
      ensures Holds(window[..], whave, write, seen + buf[from..put])
    {
      ghost var ring, s := window[..], buf[from..put];
      ghost var had, at := whave, write;
      var copy := put - from;
      var dist := if wsize - write > copy then copy else wsize - write;
      CopyIn(write, buf, from, dist);
      copy := copy - dist;
      if copy > 0 {
        CopyIn(0, buf, put - copy, copy);
        write, whave := copy, wsize;
      } else {
        write := if write + dist == wsize then 0 else write + dist;
        whave := if whave < wsize then whave + dist else whave;
      }
      HoldsMore(ring, window[..], had, at, seen, s);
    }
  }
}
