/** compress.c and uncompr.c: a whole buffer in one call. */
module OneShot {
  import opened Bits
  import opened Traces
  import opened Machine
  import opened Runs
  import opened Modes
  import opened Chunking
  import opened EndToEnd
  import Inflater
  import Deflater
  import Picks
  import Compressor

  datatype Result = Ok | StreamError | BufError | DataError

  /** compress2: the bytes put into a destination of room bytes. It fails for lack of room only when the room is used up. */
  method Compress2(source: seq<byte>, room: nat, level: int) returns (code: Result, dest: seq<byte>)
    requires level != 0
    ensures code == StreamError <==> !(-1 <= level <= 9)
    ensures code == Ok ==> |dest| <= room && Restores(true, dest, source)
    ensures code == BufError ==> |dest| == room
    ensures code != DataError
  {
    hide Restores, Compressor.Compressor.Valid;
    var z := Compressor.DeflateInit2(level, 15, 8, Picks.DefaultStrategy);
    if z == null {
      return StreamError, [];
    }
    var rest, ret := z.Deflate(source, room, Deflater.Finish);
    if ret != Compressor.StreamEnd {
      return BufError, z.d.c.b.pending[..z.d.flushed];
    }
    WroteRestores(z);
    assert source[..|source|] == source == [] + source;
    return Ok, z.d.c.b.pending;
  }

  /** The stream starts with one that inflates to x. */
  ghost predicate Decodes(stream: seq<byte>, x: seq<byte>) {
    exists last: bool, r: seq<bool> :: Reaches(Conf(Inflater.StartState(true), BytesBits(stream)), Conf(State(true, last, Done, x), r))
  }

  lemma DoneDecodes(z: Inflater.Inflater)
    requires z.Inv() && z.wrap && z.st.mode == DONE
    ensures z.o.Valid() && Decodes(z.src.stream, z.o.Out())
  {
    hide Inflater.Inflater.Inv, Reaches;
    ReachedBy(z);
  }

  /** The run of the machine over the whole stream ends in state s with r unread. */
  ghost predicate EndsIn(stream: seq<byte>, s: State, r: seq<bool>) {
    Reaches(Conf(Inflater.StartState(true), BytesBits(stream)), Conf(s, r)) && Stuck(Conf(s, r))
  }

  /** uncompress. What compress2 has written is restored if the destination is large enough for it; if not, or if part
      of the stream is missing, the error says so. On any source at all the result is that of the machine, if there is
      room for its output. */
  method Uncompress(source: seq<byte>, dest: array<byte>) returns (code: Result, destLen: nat)
    modifies dest
    ensures code == Ok ==> destLen <= dest.Length && Decodes(source, dest[..destLen])
    ensures forall s: seq<byte>, x: seq<byte> | s <= source && Restores(true, s, x) ::
      if |x| <= dest.Length then code == Ok && destLen == |x| && dest[..destLen] == x else code == BufError
    ensures forall s: seq<byte>, x: seq<byte> | source < s && |x| <= dest.Length && Restores(true, s, x) :: code == DataError
    ensures forall s: State, r: seq<bool> | EndsIn(source, s, r) && |s.out| <= dest.Length ::
      code == (if s.phase.Done? then Ok else DataError) && destLen == |s.out| && dest[..destLen] == s.out
  {
    hide Restores, Inflater.Inflater.Inv, Decodes, Modes.Starved, Stuck, Reaches;
    var z := Inflater.InflateInit2(true, source);
    var ret, used, produced := z.Inflate(source, dest, Inflater.FinishFlush);
    destLen := produced;
    code := if ret == Inflater.StreamEnd then Ok
            else if ret == Inflater.NeedsDict || (ret == Inflater.BufError && used == |source|) then DataError
            else if ret == Inflater.DataError then DataError else BufError;
    if ret == Inflater.StreamEnd {
      DoneDecodes(z);
    }
    assert z.o.Out() == dest[..produced];
    forall s: seq<byte>, x: seq<byte> | s <= source && Restores(true, s, x)
      ensures if |x| <= dest.Length then code == Ok && destLen == |x| && dest[..destLen] == x else code == BufError
    {
      assert source == s + source[|s|..];
      if z.Waiting() {
        RoomWanted(z, s, x, source[|s|..]);
      } else {
        Restored(z, s, x, source[|s|..]);
      }
    }
    forall s: seq<byte>, x: seq<byte> | source < s && |x| <= dest.Length && Restores(true, s, x) ensures code == DataError {
      Truncated(z, s, x);
    }
    forall s: State, r: seq<bool> | EndsIn(source, s, r) && |s.out| <= dest.Length
      ensures code == (if s.phase.Done? then Ok else DataError) && destLen == |s.out| && dest[..destLen] == s.out
    {
      EndsWhere(z, Conf(s, r));
      ModeOf(z.st);
    }
  }

  lemma ModeOf(st: Modes.Regs)
    ensures Modes.PhaseOf(st).Done? <==> st.mode == Modes.DONE
  {
  }
}
