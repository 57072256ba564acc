/** Dump and undump together. */
module ChunkRoundTrip {
  import opened Bytecode
  import opened Chunk
  import opened ChunkDump
  import opened ChunkLoad
  import opened ChunkTrip

  /** A function dumped on one machine for a target and loaded on another machine is the same. */
  method DumpAndLoad(f: Proto, here: bool, target: bool, there: bool, signed: bool, depth: nat) returns (r: Result<Proto>)
    requires Fits(f) && AllAccepted(f) && depth + Depth(f) <= 200
    ensures r == Got(f)
  {
    hide Fits, AllAccepted, ReadChunk, ChunkBytes, Depth;
    var d := new DumpState(here, target);
    d.Dump(f);
    var l := new LoadState(d.out, there, signed, depth);
    ChunkTrip.ChunkTrip(f, target, there, signed, depth);
    r := l.Undump();
  }
}
