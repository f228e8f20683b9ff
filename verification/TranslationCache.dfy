/**
 The translation cache of a hart: the sorted pc index, the code buffer and its end
 pointer, and the prefetch loop that fills them one translation unit at a time.
 */
module TranslationCache {
  import opened Words
  import opened SortSearch
  import opened PcIndex
  import opened Translator

  const TRANSLATION_CACHE_SIZE: nat := 1024 * 512
  const MAX_INSTRUCTIONS_TOTRANSLATE: nat := 4096

  // The sizes of the block templates and of the jumper, fixed when the emulator is assembled.
  datatype Host = Host(size: Template -> nat, jumper: nat) {
    // Any one block and the jumper fit an empty cache.
    ghost predicate Valid() {
      0 < jumper && forall t :: 0 < size(t) && size(t) + jumper <= TRANSLATION_CACHE_SIZE
    }
  }

  // What a stretch of the code buffer holds.
  datatype Chunk = BlockAt(block: Block, size: nat) | Jumper(size: nat)

  // Chunks are listed at the offset of their first byte, stale ones of earlier fillings included.
  datatype Cache = Cache(index: seq<Item>, code: map<nat, Chunk>, ptr: nat)

  // Copying a chunk into the buffer destroys every chunk it overlaps.
  function Copy(code: map<nat, Chunk>, off: nat, chunk: Chunk): map<nat, Chunk> {
    (map o | o in code && (o + code[o].size <= off || off + chunk.size <= o) :: code[o])[off := chunk]
  }

  // Room for one more block, keeping the jumper in reserve; nothing once the index is full.
  function Unoccupied(host: Host, c: Cache): int {
    if |c.index| < MAX_INSTRUCTIONS_TOTRANSLATE then TRANSLATION_CACHE_SIZE - c.ptr - host.jumper else 0
  }

  function Flushed(c: Cache): Cache {
    c.(index := [], ptr := 0)
  }

  // `None` stands for the error returns of `add_translation_item`.
  function AddItem(host: Host, c: Cache, pc: u32, t: Template): Option<Cache> {
    if Unoccupied(host, c) < host.size(t) || |c.index| >= MAX_INSTRUCTIONS_TOTRANSLATE then None
    else Some(Cache(Insert(c.index, Item(pc, c.ptr)),
                    Copy(c.code, c.ptr, BlockAt(Block(t, []), host.size(t))),
                    c.ptr + host.size(t)))
  }

  // Writing the parameter words at the end of the block the index finds for the pc.
  function Patch(code: map<nat, Chunk>, off: nat, params: seq<u32>): map<nat, Chunk> {
    if off in code && code[off].BlockAt? then code[off := code[off].(block := code[off].block.(params := params))] else code
  }

  // COMMIT_TRANSLATION; `None` when one of its assertions fails.
  function Commit(host: Host, c: Cache, pc: u32, b: Block): Option<Cache> {
    match AddItem(host, c, pc, b.template)
    case None => None
    case Some(c1) =>
      match Find(c1.index, pc)
      case None => None
      case Some(k) => Some(c1.(code := Patch(c1.code, c1.index[k].tcOffset, b.params)))
  }

  datatype Blob = Blob(next: u32, stop: bool, flushable: bool)

  // One translator: the cache check, the commit, and the step to the next instruction.
  // Going on uses up the permission to flush or a slot of the index, so the prefetch loop ends.
  function TranslateOne(host: Host, c: Cache, blob: Blob, w: bv32): (r: Option<(Cache, Blob)>)
    ensures r.Some? && !r.value.1.stop ==>
      && !r.value.1.flushable && |r.value.0.index| <= MAX_INSTRUCTIONS_TOTRANSLATE
      && (blob.flushable || |r.value.0.index| == |c.index| + 1)
  {
    match Translate(w, blob.next)
    case None => None
    case Some(t) =>
      var full := host.size(t.block.template) > Unoccupied(host, c);
      if full && !blob.flushable then Some((c, blob.(stop := true)))
      else
        match Commit(host, if full then Flushed(c) else c, blob.next, t.block)
        case None => None
        case Some(c') => Some((c', Blob(if t.stop then blob.next else Wrap(blob.next + 4), t.stop, false)))
  }

  // The guest code visible through the current address space; `None` is an instruction page fault.
  type Fetch = u32 -> Option<bv32>

  datatype Outcome =
    | Done(c: Cache)
    | PageFault(c: Cache, va: u32)  // a trap is raised from inside the loop
    | Abort                         // an assertion ends the emulator

  function PrefetchLoop(host: Host, fetch: Fetch, c: Cache, blob: Blob): Outcome
    decreases blob.flushable, MAX_INSTRUCTIONS_TOTRANSLATE - |c.index|
  {
    if Find(c.index, blob.next).Some? then Done(c)
    else
      match fetch(blob.next)
      case None => PageFault(c, blob.next)
      case Some(w) =>
        match TranslateOne(host, c, blob, w)
        case None => Abort
        case Some((c', b')) => if b'.stop then Done(c') else PrefetchLoop(host, fetch, c', b')
  }

  function AppendJumper(host: Host, c: Cache): Cache {
    c.(code := Copy(c.code, c.ptr, Jumper(host.jumper)), ptr := c.ptr + host.jumper)
  }

  // A unit that moved the end pointer is closed by a jumper to the vmm.
  function Prefetch(host: Host, fetch: Fetch, c: Cache, pc: u32): Outcome {
    match PrefetchLoop(host, fetch, c, Blob(pc, false, true))
    case Done(c') => Done(if c'.ptr != c.ptr then AppendJumper(host, c') else c')
    case other => other
  }
}
