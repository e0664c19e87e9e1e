/**
 The Glide calls that cross the shared memory, and how each side frames them.
 The guest wrappers decide which bytes follow a call (`Sources`); the host
 recomputes the length on its own (`DataCb`) and where each piece starts
 (`Views`).  The two tables are written from different files and are proved to
 agree here.
 */
module GlideCalls {
  import opened Words
  import opened Vertex3x

  // Function numbers that change how the stream is read.
  const GRVERTEXLAYOUT: nat := 0xa4
  const GRRESET: nat := 0x9e
  const GRFOGTABLE: nat := 0x27
  const GRLFBREADREGION: nat := 0x33
  const GUFBREADREGION: nat := 0x8b
  const GUFBWRITEREGION: nat := 0x8c
  const NFUNCS: nat := 0xbd

  const GR_VERTEX_PARAMETER := 0x29
  const SIZE_GRVERTEX := 60
  const SIZE_GRTEXINFO := 20
  const SIZE_GUNCCTABLE := 112
  const SIZE_GUTEXPALETTE := 1024
  const GR_TEXTABLE_PALETTE := 2

  // ---------- argument counts ----------

  // Byte count in the decorated symbol name, divided by four (the symbol table in
  // four blocks: Glide 2.x in two, the 2.11 and 3.x additions, the extensions).
  function Symbol2xA(f: nat): (n: nat)
    ensures n <= 16
  {
    if f in {0x0c, 0x1b, 0x2b, 0x2e, 0x39, 0x3d, 0x3e} then 0
    else if f in {0x01, 0x04, 0x13, 0x1d, 0x1f, 0x22, 0x2f, 0x34, 0x36} then 2
    else if f in {0x03, 0x0b, 0x1e, 0x21, 0x23, 0x3b} then 3
    else if f in {0x06, 0x11, 0x14} then 4
    else if f in {0x07, 0x12, 0x3a} then 5
    else if f in {0x05, 0x32} then 6
    else if f in {0x33} then 7
    else if f in {0x37} then 8
    else if f in {0x00} then 16
    else 1
  }

  function Symbol2xB(f: nat): (n: nat)
    ensures n <= 16
  {
    if f in {0x43, 0x44, 0x45, 0x47, 0x48, 0x4a, 0x4b, 0x71, 0x75, 0x76, 0x7a, 0x80} then 0
    else if f in {0x49, 0x50, 0x58, 0x5c, 0x5e, 0x60, 0x61, 0x62, 0x63, 0x67, 0x6c, 0x6d, 0x73, 0x79} then 2
    else if f in {0x4e, 0x55, 0x57, 0x5b, 0x64, 0x68, 0x6e, 0x70, 0x7b, 0x7c} then 3
    else if f in {0x4d, 0x51, 0x52, 0x5f, 0x69} then 4
    else if f in {0x56, 0x5d} then 5
    else if f in {0x4c, 0x4f} then 7
    else if f in {0x53} then 8
    else if f in {0x54} then 10
    else if f in {0x78} then 12
    else if f in {0x77} then 15
    else 1
  }

  function Symbol3x(f: nat): (n: nat)
    ensures n <= 16
  {
    if f in {0x82, 0x84, 0x8d, 0x94, 0x95} then 0
    else if f in {0x8f, 0x9d, 0xa1} then 2
    else if f in {0x91, 0x96, 0xa4, 0xa6} then 3
    else if f in {0x92, 0x9c, 0xa2, 0xa5} then 4
    else if f in {0x89, 0x8b, 0x8c} then 6
    else if f in {0x9b} then 9
    else 1
  }

  function SymbolExt(f: nat): (n: nat)
    ensures n <= 16
  {
    if f in {0xaa, 0xb1} then 2
    else if f in {0xa9, 0xb8, 0xba} then 3
    else if f in {0xa7, 0xab, 0xb2, 0xb4} then 4
    else if f in {0xb0} then 6
    else if f in {0xb5, 0xb6} then 7
    else if f in {0xbc} then 8
    else if f in {0xac, 0xad} then 10
    else if f in {0xae, 0xaf} then 11
    else 1
  }

  function SymbolArgs(f: nat): (n: nat)
    requires f < NFUNCS
    ensures n <= 16
  {
    if f < 0x40 then Symbol2xA(f) else if f < 0x82 then Symbol2xB(f) else if f < 0xa7 then Symbol3x(f) else SymbolExt(f)
  }
  // Words the host skips for one queued call; downloads carry a length word more
  // than their symbol name says.
  function ArgsCnt(f: nat): (n: nat)
    requires f < NFUNCS
    ensures n <= 16
  {
    SymbolArgs(f) + if LengthWord(f) then 1 else 0
  }

  // Words the wrapper queues for a call, or None for a call it always sends at once.
  function Queued2xA(f: nat): Option<nat> {
    if f in {0x1b} then Some(0)
    else if f in {0x02, 0x08, 0x09, 0x0a, 0x0f, 0x10, 0x15, 0x16, 0x17, 0x18, 0x19, 0x1a, 0x1c, 0x20, 0x25, 0x26,
            0x27, 0x28, 0x30, 0x31, 0x38} then Some(1)
    else if f in {0x01, 0x04, 0x13, 0x1d, 0x1f, 0x22, 0x2f} then Some(2)
    else if f in {0x03, 0x0b, 0x1e, 0x21, 0x23} then Some(3)
    else if f in {0x06, 0x11, 0x14} then Some(4)
    else if f in {0x07, 0x12} then Some(5)
    else if f in {0x05} then Some(6)
    else None
  }

  function Queued2xB(f: nat): Option<nat> {
    if f in {0x65, 0x66, 0x81} then Some(1)
    else if f in {0x50, 0x58, 0x5e, 0x67, 0x79} then Some(2)
    else if f in {0x4e, 0x55, 0x57, 0x5b, 0x64, 0x68} then Some(3)
    else if f in {0x51, 0x5f, 0x7b, 0x7c} then Some(4)
    else if f in {0x52, 0x56} then Some(5)
    else if f in {0x4f} then Some(7)
    else if f in {0x53} then Some(9)
    else if f in {0x54} then Some(11)
    else None
  }

  function Queued3x(f: nat): Option<nat> {
    if f in {0x8e, 0x90, 0x93, 0xa3} then Some(1)
    else if f in {0x8f, 0xa1} then Some(2)
    else if f in {0x91, 0xa4, 0xa6} then Some(3)
    else if f in {0x92, 0xa2, 0xa5} then Some(4)
    else None
  }

  function QueuedExt(f: nat): Option<nat> {
    if f in {0xa8, 0xb3, 0xb7, 0xb9, 0xbb} then Some(1)
    else if f in {0xaa, 0xb1} then Some(2)
    else if f in {0xa9, 0xb8, 0xba} then Some(3)
    else if f in {0xab, 0xb2} then Some(4)
    else if f in {0xb0} then Some(6)
    else if f in {0xb5, 0xb6} then Some(7)
    else if f in {0xac, 0xad} then Some(10)
    else if f in {0xae, 0xaf} then Some(11)
    else None
  }

  function QueuedArgs(f: nat): Option<nat> {
    if f < 0x40 then Queued2xA(f) else if f < 0x82 then Queued2xB(f) else if f < 0xa7 then Queued3x(f) else QueuedExt(f)
  }

  // Argument words handed on by value when a call reaches the library.  Two calls
  // take only host pointers in place of words the guest never wrote.
  function DispatchArgs(f: nat): (n: nat)
    requires f < NFUNCS
    ensures n <= 16
  {
    if f == 0x2a then 0 else if f == 0xa7 then 1 else ArgsCnt(f)
  }

  predicate LengthWord(f: nat) {
    f in {0x52, 0x53, 0x54, 0x7b, 0x7c}
  }

  ghost predicate CountsAgree(f: nat) {
    QueuedArgs(f).Some? ==>
      f < NFUNCS && SymbolArgs(f) + (if LengthWord(f) then 1 else 0) == QueuedArgs(f).value
  }

  lemma CountsAgree2x0(f: nat)
    requires f < 0x1d
    ensures CountsAgree(f)
  {
  }

  lemma CountsAgree2xA(f: nat)
    requires 0x1d <= f < 0x40
    ensures CountsAgree(f)
  {
  }

  lemma CountsAgree2xB(f: nat)
    requires 0x40 <= f < 0x82
    ensures CountsAgree(f)
  {
  }

  lemma CountsAgree3x(f: nat)
    requires 0x82 <= f < 0xa7
    ensures CountsAgree(f)
  {
  }

  lemma CountsAgreeExt(f: nat)
    requires 0xa7 <= f
    ensures CountsAgree(f)
  {
  }

  // The host skips exactly the words the wrapper queued, for every queued call.
  lemma ArgCountsAgree(f: nat)
    requires QueuedArgs(f).Some?
    ensures f < NFUNCS && ArgsCnt(f) == DispatchArgs(f) == QueuedArgs(f).value
  {
    if f < 0x1d {
      CountsAgree2x0(f);
    } else if f < 0x40 {
      CountsAgree2xA(f);
    } else if f < 0x82 {
      CountsAgree2xB(f);
    } else if f < 0xa7 {
      CountsAgree3x(f);
    } else {
      CountsAgreeExt(f);
    }
    assert CountsAgree(f);
  }

  // ---------- payload kinds ----------

  // Calls that share one payload rule on both sides.
  datatype Kind =
    | Line | Point | Triangle | Polygon | VertexList | FogTable | LfbLock | WriteRegion | WriteRegion3x
    | PerfStats | HwConfig | DownloadMipMap | MipMapLevel | MipMapLevelPartial | Table | TablePartial
    | Table3x | TablePartial3x | TexSource | TexMemRequired | TriStats | F3df | GuMipMap | GuMipMapLevel
    | VertexArray | VertexArrayContiguous | GammaTable | Resolutions | FbWrite | NoPayload

  function KindOf(f: nat): Kind {
    match f
    case 0x01 | 0x1d => Line
    case 0x02 | 0x20 => Point
    case 0x05 | 0x23 | 0x64 | 0x68 => Triangle
    case 0x03 | 0x1e | 0x21 => Polygon
    case 0x04 | 0x1f | 0x22 | 0x67 => VertexList
    case 0x27 => FogTable
    case 0x32 => LfbLock
    case 0x37 => WriteRegion
    case 0x40 => PerfStats
    case 0x41 | 0x42 => HwConfig
    case 0x52 => DownloadMipMap
    case 0x53 => MipMapLevel
    case 0x54 => MipMapLevelPartial
    case 0x55 => Table
    case 0x56 => TablePartial
    case 0x5f => TexSource
    case 0x60 => TexMemRequired
    case 0x61 => TriStats
    case 0x62 | 0x63 => F3df
    case 0x7b => GuMipMap
    case 0x7c => GuMipMapLevel
    case 0x8c => FbWrite
    case 0x91 => VertexArray
    case 0x92 => VertexArrayContiguous
    case 0x9b => WriteRegion3x
    case 0x9c => GammaTable
    case 0x9d => Resolutions
    case 0xa1 => Table3x
    case 0xa2 => TablePartial3x
    case _ => NoPayload
  }

  // Argument words a payload rule looks at.
  function RuleArgs(k: Kind): nat {
    match k
    case NoPayload => 0
    case Point | PerfStats | HwConfig | FogTable => 1
    case Line | TriStats | TexMemRequired | F3df | Resolutions | Table3x => 2
    case VertexList => 2
    case Triangle | Polygon | Table | VertexArray => 3
    case TexSource | GuMipMap | GuMipMapLevel | VertexArrayContiguous | GammaTable | TablePartial3x => 4
    case DownloadMipMap | TablePartial => 5
    case LfbLock | FbWrite => 6
    case WriteRegion => 8
    case WriteRegion3x | MipMapLevel => 9
    case MipMapLevelPartial => 11
  }

  lemma RuleArgs2xA(f: nat)
    requires f < 0x40
    ensures RuleArgs(KindOf(f)) <= DispatchArgs(f)
  {
  }

  lemma RuleArgs2xB(f: nat)
    requires 0x40 <= f < 0x82
    ensures RuleArgs(KindOf(f)) <= DispatchArgs(f)
  {
  }

  lemma RuleArgs3x(f: nat)
    requires 0x82 <= f < NFUNCS
    ensures RuleArgs(KindOf(f)) <= DispatchArgs(f)
  {
  }

  lemma RuleArgsPresent(f: nat)
    requires f < NFUNCS
    ensures RuleArgs(KindOf(f)) <= DispatchArgs(f)
  {
    hide *;
    if f < 0x40 {
      RuleArgs2xA(f);
    } else if f < 0x82 {
      RuleArgs2xB(f);
    } else {
      RuleArgs3x(f);
    }
  }

  // ---------- the guest's side of framing ----------

  // Guest memory: the 32-bit word found at a byte address.
  type Memory = nat -> Word

  // One block a wrapper copies into the payload area.
  datatype Src = FromMem(addr: nat, cb: nat) | FromLocal(words: seq<Word>, cb: nat)

  // Values a wrapper takes from elsewhere than its own arguments: the fog table
  // length, the base name of a file, and eight uninitialised bytes.
  datatype Aux = Aux(fogN: Word, base: Word, pad0: Word, pad1: Word)

  datatype Call = Call(f: nat, args: seq<Word>, mem: Memory, aux: Aux)

  // What the host hands to the library: number, argument words, payload pieces.
  datatype Event = Event(fenum: Word, args: seq<Word>, chunks: seq<seq<Word>>)

  // n consecutive words of guest memory.
  function ReadWords(mem: Memory, addr: nat, n: nat): (ws: seq<Word>)
    ensures |ws| == n
  {
    seq(n, k requires 0 <= k => mem(addr + 4 * k))
  }

  function Fetch(mem: Memory, s: Src): (ws: seq<Word>) {
    match s
    case FromMem(addr, cb) => ReadWords(mem, addr, WordCount(cb))
    case FromLocal(words, _) => words
  }

  // The vertices an index list names, one block each.
  function PolygonSources(n: nat, ilist: nat, vlist: nat, mem: Memory): (srcs: seq<Src>) {
    seq(n, i requires 0 <= i =>
        FromMem((vlist + mem(ilist + 4 * i) * SIZE_GRVERTEX) % 0x1_0000_0000, SIZE_GRVERTEX))
  }

  // The vertices an array of pointers names, one block each.
  function ArraySources(n: nat, pointers: nat, mem: Memory, sz: nat): (srcs: seq<Src>) {
    seq(n, i requires 0 <= i => FromMem(mem(pointers + 4 * i), sz))
  }

  // Every block a wrapper adds, in order; sz is the size of one vertex.
  function Sources(k: Kind, a: seq<nat>, mem: Memory, sz: nat, aux: Aux): (srcs: seq<Src>)
    requires |a| >= RuleArgs(k)
  {
    match k
    case Line => [FromMem(a[0], sz), FromMem(a[1], sz)]
    case Point => [FromMem(a[0], sz)]
    case Triangle => [FromMem(a[0], sz), FromMem(a[1], sz), FromMem(a[2], sz)]
    case Polygon => [FromMem(a[1], a[0] * 4)] + PolygonSources(a[0], a[1], a[2], mem)
    case VertexList => [FromMem(a[1], a[0] * SIZE_GRVERTEX)]
    case FogTable => [FromLocal([aux.fogN], 4), FromMem(a[0], aux.fogN)]
    case LfbLock => [FromMem(a[5], 20)]
    case WriteRegion => [FromMem(a[7], a[5] * a[6])]
    case WriteRegion3x => [FromMem(a[8], a[5] * a[7])]
    case FbWrite => [FromMem(a[4], a[3] * a[5])]
    case PerfStats => [FromMem(a[0], 20)]
    case HwConfig => [FromMem(a[0], 148)]
    case DownloadMipMap => [FromMem(a[3], SIZE_GRTEXINFO), FromMem(mem(a[3] + 16), a[4])]
    case MipMapLevel => [FromMem(a[7], a[8])]
    case MipMapLevelPartial => [FromMem(a[7], a[10])]
    case Table => [FromMem(a[2], if a[1] == 0x02 then SIZE_GUTEXPALETTE else SIZE_GUNCCTABLE)]
    case TablePartial => [FromMem(a[2], if a[1] == 0x02 then (a[4] + 1) * 4 else SIZE_GUNCCTABLE)]
    case Table3x => [FromMem(a[1], if a[0] >= 0x02 then SIZE_GUTEXPALETTE else SIZE_GUNCCTABLE)]
    case TablePartial3x => [FromMem(a[1], if a[0] >= 0x02 then (a[3] + 1) * 4 else SIZE_GUNCCTABLE)]
    case TexSource => [FromMem(a[3], SIZE_GRTEXINFO)]
    case TexMemRequired => [FromMem(a[1], SIZE_GRTEXINFO)]
    case TriStats => [FromMem(a[0], 4), FromMem(a[1], 4)]
    case F3df => [FromMem(aux.base, 64)]
    case GuMipMap =>
      (if a[3] != 0 then [FromMem(a[1], a[3])] else []) +
      (if a[2] != 0 then [FromMem(a[2], SIZE_GUNCCTABLE)] else [])
    case GuMipMapLevel =>
      if a[3] != 0 then [FromMem(mem(a[2]), a[3]), FromLocal([aux.pad0, aux.pad1], 8)] else []
    case VertexArray => ArraySources(a[1], a[2], mem, sz)
    case VertexArrayContiguous => [FromMem(a[2], a[1] * a[3])]
    case GammaTable => [FromMem(a[1], a[0] * 4), FromMem(a[2], a[0] * 4), FromMem(a[3], a[0] * 4)]
    case Resolutions => [FromMem(a[0], 16)]
    case NoPayload => []
  }

  function FetchAll(mem: Memory, srcs: seq<Src>): (cs: seq<seq<Word>>)
    ensures |cs| == |srcs|
  {
    seq(|srcs|, i requires 0 <= i < |srcs| => Fetch(mem, srcs[i]))
  }

  // Pieces are fetched one for one, each as long as its byte count rounds up to.
  lemma FetchAllIndexed(mem: Memory, k: Kind, a: seq<nat>, sz: nat, aux: Aux)
    requires |a| >= RuleArgs(k)
    ensures var srcs := Sources(k, a, mem, sz, aux);
            && |FetchAll(mem, srcs)| == |srcs|
            && forall i :: 0 <= i < |srcs| ==>
                 && FetchAll(mem, srcs)[i] == Fetch(mem, srcs[i])
                 && |Fetch(mem, srcs[i])| == WordCount(srcs[i].cb)
  {
  }

  // Bytes in one vertex as the draw calls count it.
  function VertexBytes(glide3: bool, v: Vlut): nat {
    if glide3 then VertexSize(v) else SIZE_GRVERTEX
  }

  predicate ValidCall(c: Call, glide3: bool) {
    && c.f < NFUNCS && DispatchArgs(c.f) <= |c.args| <= 16
    && (QueuedArgs(c.f).Some? ==> |c.args| == QueuedArgs(c.f).value)
    && (c.f == GRVERTEXLAYOUT ==> |c.args| >= 3 && ValidParam(c.args[0]))
    && (KindOf(c.f).VertexArray? ==> glide3)
  }

  // The call as it should reach the library, given the layout in force.
  function EventOf(c: Call, glide3: bool, v: Vlut): Event
    requires ValidCall(c, glide3)
  {
    var args := c.args[..DispatchArgs(c.f)];
    RuleArgsPresent(c.f);
    Event(c.f, args, FetchAll(c.mem, Sources(KindOf(c.f), args, c.mem, VertexBytes(glide3, v), c.aux)))
  }

  // Words the host writes just past a call's payload: the pointer to a mip-map level of no
  // bytes, which the wrapper sends nothing for.
  function Spill(e: Event): nat {
    if KindOf(e.fenum).GuMipMapLevel? && |e.args| > 3 && e.args[3] == 0 then 2 else 0
  }

  // The layout in force after a call.
  function VlutAfter(v: Vlut, e: Event): Vlut {
    if e.fenum == GRVERTEXLAYOUT && |e.args| >= 3 && ValidParam(e.args[0]) then
      SetParam(v, e.args[0], e.args[1], e.args[2])
    else if e.fenum == GRRESET && |e.args| >= 1 && e.args[0] == GR_VERTEX_PARAMETER then EMPTY_VLUT
    else v
  }

  // ---------- the host's side of framing ----------

  // A piece of payload: byte offset from where the call's data starts, byte length.
  datatype View = View(off: nat, cb: nat)

  // Payload bytes the host attributes to a call (datacb); d0 is the payload's first word.
  function DataCb(k: Kind, a: seq<nat>, d0: nat, sz: nat, sz3x: nat): nat
    requires |a| >= RuleArgs(k)
  {
    match k
    case Line => 2 * Aligned(sz)
    case Triangle => 3 * Aligned(sz)
    case Point => Aligned(sz)
    case PerfStats => Aligned(20)
    case HwConfig => Aligned(148)
    case TriStats => 2 * Aligned(4)
    case TexSource => Aligned(SIZE_GRTEXINFO)
    case DownloadMipMap => Aligned(SIZE_GRTEXINFO) + Aligned(a[4])
    case MipMapLevel => Aligned(a[8])
    case MipMapLevelPartial => Aligned(a[10])
    case Table => if a[1] == GR_TEXTABLE_PALETTE then SIZE_GUTEXPALETTE else SIZE_GUNCCTABLE
    case TablePartial => if a[1] == GR_TEXTABLE_PALETTE then Aligned((a[4] + 1) * 4) else SIZE_GUNCCTABLE
    case Table3x => if a[0] >= GR_TEXTABLE_PALETTE then SIZE_GUTEXPALETTE else SIZE_GUNCCTABLE
    case TablePartial3x => if a[0] >= GR_TEXTABLE_PALETTE then Aligned((a[3] + 1) * 4) else SIZE_GUNCCTABLE
    case TexMemRequired => Aligned(SIZE_GRTEXINFO)
    case LfbLock => Aligned(20)
    case WriteRegion => Aligned(a[5] * a[6])
    case WriteRegion3x => Aligned(a[5] * a[7])
    case FbWrite => a[3] * a[5]
    case FogTable => Aligned(4) + Aligned(d0)
    case F3df => 64
    case GuMipMap => (if a[3] != 0 then Aligned(a[3]) else 0) + (if a[2] != 0 then SIZE_GUNCCTABLE else 0)
    case GuMipMapLevel => if a[3] != 0 then Aligned(a[3]) + Aligned(1) else 0
    case Polygon => Aligned(a[0] * 4) + a[0] * Aligned(SIZE_GRVERTEX)
    case VertexList => Aligned(a[0] * SIZE_GRVERTEX)
    case GammaTable => 3 * Aligned(a[0] * 4)
    case Resolutions => 16
    case VertexArray => a[1] * Aligned(sz3x)
    case VertexArrayContiguous => Aligned(a[1] * a[3])
    case NoPayload => 0
  }

  // n equal pieces, each starting on an aligned boundary after the one before.
  function EvenViews(base: nat, n: nat, cb: nat): (vs: seq<View>) {
    seq(n, i requires 0 <= i => View(base + i * Aligned(cb), cb))
  }

  // Where the host points the library for each piece (parg), with the length the
  // library takes from there.
  function Views(k: Kind, a: seq<nat>, d0: nat, sz: nat, sz3x: nat): (vs: seq<View>)
    requires |a| >= RuleArgs(k)
  {
    match k
    case Line => [View(0, sz), View(Aligned(sz), sz)]
    case Triangle => [View(0, sz), View(Aligned(sz), sz), View(2 * Aligned(sz), sz)]
    case Point => [View(0, sz)]
    case TriStats => [View(0, 4), View(Aligned(4), 4)]
    case DownloadMipMap => [View(0, SIZE_GRTEXINFO), View(Aligned(SIZE_GRTEXINFO), a[4])]
    case FogTable => [View(0, 4), View(Aligned(4), d0)]
    case GuMipMap =>
      (if a[3] != 0 then [View(0, a[3])] else []) +
      (if a[2] != 0 then [View(Aligned(a[3]), SIZE_GUNCCTABLE)] else [])
    case GuMipMapLevel => if a[3] != 0 then [View(0, a[3]), View(Aligned(a[3]), 8)] else []
    case Polygon => [View(0, a[0] * 4)] + EvenViews(Aligned(a[0] * 4), a[0], SIZE_GRVERTEX)
    case GammaTable => [View(0, a[0] * 4), View(Aligned(a[0] * 4), a[0] * 4), View(2 * Aligned(a[0] * 4), a[0] * 4)]
    case VertexArray => EvenViews(0, a[1], sz3x)
    case PerfStats | LfbLock => [View(0, 20)]
    case HwConfig => [View(0, 148)]
    case TexSource | TexMemRequired => [View(0, SIZE_GRTEXINFO)]
    case MipMapLevel => [View(0, a[8])]
    case MipMapLevelPartial => [View(0, a[10])]
    case Table => [View(0, if a[1] == GR_TEXTABLE_PALETTE then SIZE_GUTEXPALETTE else SIZE_GUNCCTABLE)]
    case TablePartial => [View(0, if a[1] == GR_TEXTABLE_PALETTE then (a[4] + 1) * 4 else SIZE_GUNCCTABLE)]
    case Table3x => [View(0, if a[0] >= GR_TEXTABLE_PALETTE then SIZE_GUTEXPALETTE else SIZE_GUNCCTABLE)]
    case TablePartial3x => [View(0, if a[0] >= GR_TEXTABLE_PALETTE then (a[3] + 1) * 4 else SIZE_GUNCCTABLE)]
    case WriteRegion => [View(0, a[5] * a[6])]
    case WriteRegion3x => [View(0, a[5] * a[7])]
    case FbWrite => [View(0, a[3] * a[5])]
    case F3df => [View(0, 64)]
    case VertexList => [View(0, a[0] * SIZE_GRVERTEX)]
    case Resolutions => [View(0, 16)]
    case VertexArrayContiguous => [View(0, a[1] * a[3])]
    case NoPayload => []
  }

  // ---------- agreement ----------

  // Words a list of pieces takes in the payload area, each padded to an even count.
  function PayLen(cs: seq<seq<Word>>): nat {
    if cs == [] then 0 else PadEven(|cs[0]|) + PayLen(cs[1..])
  }

  // Each view starts where the guest put its piece and covers it.
  ghost predicate ViewsMatch(vs: seq<View>, cs: seq<seq<Word>>) {
    |vs| == |cs| &&
    forall k :: 0 <= k < |cs| ==>
                  vs[k].off == 4 * PayLen(cs[..k]) && WordCount(vs[k].cb) == |cs[k]|
  }

  lemma {:induction false} PayLenAppend(cs: seq<seq<Word>>, c: seq<Word>)
    ensures PayLen(cs + [c]) == PayLen(cs) + PadEven(|c|)
  {
    if cs == [] {
      assert cs + [c] == [c];
    } else {
      assert (cs + [c])[1..] == cs[1..] + [c];
      PayLenAppend(cs[1..], c);
    }
  }

  lemma {:induction false} PayLenEven(cs: seq<seq<Word>>, n: nat)
    requires forall c :: c in cs ==> |c| == n
    ensures PayLen(cs) == |cs| * PadEven(n)
  {
    if cs == [] {
    } else {
      PayLenEven(cs[1..], n);
      MulSplit(PadEven(n), 1, |cs|);
    }
  }

  lemma MulFour(k: int, m: int)
    ensures 4 * (k * m) == k * (4 * m)
  {
  }

  lemma PayLenSmall(cs: seq<seq<Word>>)
    requires |cs| <= 3
    ensures PayLen(cs[..0]) == 0
    ensures |cs| >= 1 ==> PayLen(cs[..1]) == PadEven(|cs[0]|)
    ensures |cs| >= 2 ==> PayLen(cs[..2]) == PadEven(|cs[0]|) + PadEven(|cs[1]|)
    ensures |cs| == 3 ==> PayLen(cs[..3]) == PadEven(|cs[0]|) + PadEven(|cs[1]|) + PadEven(|cs[2]|)
    ensures cs[..|cs|] == cs
  {
    if |cs| >= 1 {
      assert cs[..1] == cs[..0] + [cs[0]];
      PayLenAppend(cs[..0], cs[0]);
    }
    if |cs| >= 2 {
      assert cs[..2] == cs[..1] + [cs[1]];
      PayLenAppend(cs[..1], cs[1]);
    }
    if |cs| == 3 {
      assert cs[..3] == cs[..2] + [cs[2]];
      PayLenAppend(cs[..2], cs[2]);
    }
  }

  // The word the fog table rule reads from the payload; no other rule reads one.
  function D0(f: nat, cs: seq<seq<Word>>): Word {
    if f == GRFOGTABLE && |cs| > 0 && |cs[0]| > 0 then cs[0][0] else 0
  }

  // The pieces of a call have the lengths its wrapper gives them.
  ghost predicate SizedAs(cs: seq<seq<Word>>, srcs: seq<Src>) {
    |cs| == |srcs| && forall k :: 0 <= k < |cs| ==> |cs[k]| == WordCount(srcs[k].cb)
  }

  // The bytes the host counts for the pieces cs.  Every rule pads as the guest does but
  // one: a frame buffer write is counted as it is.
  ghost predicate CountedAs(k: Kind, cb: nat, cs: seq<seq<Word>>) {
    if k.FbWrite? then |cs| == 1 && WordCount(cb) == |cs[0]| else cb == 4 * PayLen(cs)
  }

  // The words by which the host's cursor moves past them.
  function HostWords(k: Kind, cs: seq<seq<Word>>): nat {
    if k.FbWrite? && |cs| == 1 then |cs[0]| else PayLen(cs)
  }

  lemma CountedWords(k: Kind, cb: nat, cs: seq<seq<Word>>)
    requires CountedAs(k, cb, cs)
    ensures WordCount(cb) == HostWords(k, cs)
  {
  }

  ghost predicate HostAgrees(k: Kind, a: seq<nat>, d0: nat, sz: nat, cs: seq<seq<Word>>)
    requires |a| >= RuleArgs(k)
  {
    ViewsMatch(Views(k, a, d0, sz, sz), cs) && CountedAs(k, DataCb(k, a, d0, sz, sz), cs)
  }

  // Equal pieces laid out one after the other.
  lemma EvenViewsMatch(cs: seq<seq<Word>>, first: seq<Word>, n: nat, cb: nat, k: nat)
    requires |cs| == n && k <= n
    requires forall i :: 0 <= i < n ==> |cs[i]| == WordCount(cb)
    ensures PayLen(([first] + cs)[..k + 1]) == PadEven(|first|) + k * PadEven(WordCount(cb))
    ensures PayLen(cs[..k]) == k * PadEven(WordCount(cb))
    ensures 4 * (k * PadEven(WordCount(cb))) == k * Aligned(cb)
  {
    assert ([first] + cs)[..k + 1] == [first] + cs[..k];
    assert ([first] + cs[..k])[1..] == cs[..k];
    PayLenEven(cs[..k], WordCount(cb));
    PaddingAgrees(cb);
    MulFour(k, PadEven(WordCount(cb)));
  }

  lemma PolygonAgrees(a: seq<nat>, d0: nat, mem: Memory, sz: nat, aux: Aux, cs: seq<seq<Word>>)
    requires |a| >= RuleArgs(Polygon) && SizedAs(cs, Sources(Polygon, a, mem, sz, aux))
    ensures HostAgrees(Polygon, a, d0, sz, cs)
  {
    var n := a[0];
    var rest := cs[1..];
    assert cs == [cs[0]] + rest;
    PaddingAgrees(n * 4);
    hide Aligned, PadEven, WordCount, PayLen;
    forall i | 0 <= i < n ensures |rest[i]| == WordCount(SIZE_GRVERTEX) {
      assert rest[i] == cs[i + 1];
    }
    forall k | 0 <= k <= n
      ensures 4 * PayLen(cs[..k + 1]) == Aligned(n * 4) + k * Aligned(SIZE_GRVERTEX)
    {
      EvenViewsMatch(rest, cs[0], n, SIZE_GRVERTEX, k);
    }
    var vs := Views(Polygon, a, d0, sz, sz);
    forall k | 0 <= k < |cs|
      ensures vs[k].off == 4 * PayLen(cs[..k]) && WordCount(vs[k].cb) == |cs[k]|
    {
      if k > 0 {
        assert vs[k] == View(Aligned(n * 4) + (k - 1) * Aligned(SIZE_GRVERTEX), SIZE_GRVERTEX);
        assert cs[..k - 1 + 1] == cs[..k];
      }
    }
    assert cs[..n + 1] == cs;
  }

  lemma VertexArrayAgrees(a: seq<nat>, d0: nat, mem: Memory, sz: nat, aux: Aux, cs: seq<seq<Word>>)
    requires |a| >= RuleArgs(VertexArray) && SizedAs(cs, Sources(VertexArray, a, mem, sz, aux))
    ensures HostAgrees(VertexArray, a, d0, sz, cs)
  {
    forall k | 0 <= k <= a[1]
      ensures 4 * PayLen(cs[..k]) == k * Aligned(sz)
    {
      EvenViewsMatch(cs, [], a[1], sz, k);
    }
    assert cs[..a[1]] == cs;
  }

  // Kinds whose payload is a single block.
  predicate OneBlock(k: Kind) {
    k.Point? || k.VertexList? || k.LfbLock? || k.WriteRegion? || k.WriteRegion3x? || k.PerfStats? || k.HwConfig? ||
    k.MipMapLevel? || k.MipMapLevelPartial? || k.Table? || k.TablePartial? || k.Table3x? || k.TablePartial3x? ||
    k.TexSource? || k.TexMemRequired? || k.F3df? || k.VertexArrayContiguous? || k.Resolutions?
  }

  lemma OneBlockAgrees(k: Kind, a: seq<nat>, d0: nat, mem: Memory, sz: nat, aux: Aux, cs: seq<seq<Word>>)
    requires OneBlock(k)
    requires |a| >= RuleArgs(k) && SizedAs(cs, Sources(k, a, mem, sz, aux))
    ensures HostAgrees(k, a, d0, sz, cs)
  {
    var srcs := Sources(k, a, mem, sz, aux);
    OneView(k, a, d0, mem, sz, aux);
    OnePiece(cs, srcs[0].cb);
    hide DataCb, Views, Sources, PadEven, WordCount, Aligned, PayLen;
  }

  lemma OnePiece(cs: seq<seq<Word>>, cb: nat)
    requires |cs| == 1 && |cs[0]| == WordCount(cb)
    ensures 4 * PayLen(cs) == Aligned(cb) && ViewsMatch([View(0, cb)], cs)
  {
    PayLenSmall(cs);
    PaddingAgrees(cb);
    hide PadEven, WordCount, Aligned, PayLen;
  }

  lemma OneView(k: Kind, a: seq<nat>, d0: nat, mem: Memory, sz: nat, aux: Aux)
    requires OneBlock(k) && |a| >= RuleArgs(k)
    ensures var srcs := Sources(k, a, mem, sz, aux);
      |srcs| == 1 && Views(k, a, d0, sz, sz) == [View(0, srcs[0].cb)] && DataCb(k, a, d0, sz, sz) == Aligned(srcs[0].cb)
  {
  }

  lemma ThreeBlocksAgree(k: Kind, a: seq<nat>, d0: nat, mem: Memory, sz: nat, aux: Aux, cs: seq<seq<Word>>)
    requires k.Triangle? || k.GammaTable?
    requires |a| >= RuleArgs(k) && SizedAs(cs, Sources(k, a, mem, sz, aux))
    ensures HostAgrees(k, a, d0, sz, cs)
  {
    var srcs := Sources(k, a, mem, sz, aux);
    PayLenSmall(cs);
    PaddingAgrees(srcs[0].cb);
    assert |cs| == 3 && forall i :: 0 <= i < 3 ==> |cs[i]| == WordCount(srcs[0].cb);
    hide PadEven, WordCount, Aligned;
  }

  // Two pieces of cb0 and cb1 bytes: where the second starts, and the length of both.
  lemma TwoPieces(cs: seq<seq<Word>>, cb0: nat, cb1: nat)
    requires |cs| == 2 && |cs[0]| == WordCount(cb0) && |cs[1]| == WordCount(cb1)
    ensures 4 * PayLen(cs) == Aligned(cb0) + Aligned(cb1)
    ensures ViewsMatch([View(0, cb0), View(Aligned(cb0), cb1)], cs)
  {
    PayLenSmall(cs);
    PaddingAgrees(cb0);
    PaddingAgrees(cb1);
    hide PadEven, WordCount, Aligned, PayLen;
  }

  lemma TwoBlocksAgree(k: Kind, a: seq<nat>, d0: nat, mem: Memory, sz: nat, aux: Aux, cs: seq<seq<Word>>)
    requires k.Line? || k.TriStats? || k.DownloadMipMap? || k.FogTable? || k.GuMipMapLevel? || k.NoPayload?
    requires |a| >= RuleArgs(k) && SizedAs(cs, Sources(k, a, mem, sz, aux))
    requires k.FogTable? ==> d0 == aux.fogN
    ensures HostAgrees(k, a, d0, sz, cs)
  {
    match k
    case Line => TwoPieces(cs, sz, sz);
    case TriStats => TwoPieces(cs, 4, 4);
    case DownloadMipMap => TwoPieces(cs, SIZE_GRTEXINFO, a[4]);
    case FogTable => TwoPieces(cs, 4, d0);
    case GuMipMapLevel =>
      if a[3] != 0 {
        TwoPieces(cs, a[3], 8);
      }
    case NoPayload =>
  }

  lemma GuMipMapAgrees(a: seq<nat>, d0: nat, mem: Memory, sz: nat, aux: Aux, cs: seq<seq<Word>>)
    requires |a| >= RuleArgs(GuMipMap) && SizedAs(cs, Sources(GuMipMap, a, mem, sz, aux))
    ensures HostAgrees(GuMipMap, a, d0, sz, cs)
  {
    PayLenSmall(cs);
    PaddingAgrees(a[3]);
    var texture := if a[3] != 0 then [FromMem(a[1], a[3])] else [];
    var table := if a[2] != 0 then [FromMem(a[2], SIZE_GUNCCTABLE)] else [];
    assert Sources(GuMipMap, a, mem, sz, aux) == texture + table;
  }

  lemma FbWriteAgrees(a: seq<nat>, d0: nat, mem: Memory, sz: nat, aux: Aux, cs: seq<seq<Word>>)
    requires |a| >= RuleArgs(FbWrite) && SizedAs(cs, Sources(FbWrite, a, mem, sz, aux))
    ensures HostAgrees(FbWrite, a, d0, sz, cs)
    ensures HostWords(FbWrite, cs) == PayLen(cs) <==> WordCount(a[3] * a[5]) % 2 == 0
  {
    var srcs := Sources(FbWrite, a, mem, sz, aux);
    assert |cs| == 1 && |cs[0]| == WordCount(srcs[0].cb) == WordCount(a[3] * a[5]);
    OnePiece(cs, a[3] * a[5]);
    PayLenSmall(cs);
    assert cs[..1] == cs;
  }

  // The host's payload length and piece offsets for a call are what the guest's
  // wrapper put there, for every call, argument list and vertex size.
  lemma FramingAgrees(k: Kind, a: seq<nat>, d0: nat, mem: Memory, sz: nat, aux: Aux, cs: seq<seq<Word>>)
    requires |a| >= RuleArgs(k) && SizedAs(cs, Sources(k, a, mem, sz, aux))
    requires k.FogTable? ==> d0 == aux.fogN
    ensures HostAgrees(k, a, d0, sz, cs)
  {
    if k.Polygon? {
      PolygonAgrees(a, d0, mem, sz, aux, cs);
    } else if k.VertexArray? {
      VertexArrayAgrees(a, d0, mem, sz, aux, cs);
    } else if OneBlock(k) {
      OneBlockAgrees(k, a, d0, mem, sz, aux, cs);
    } else if k.Triangle? || k.GammaTable? {
      ThreeBlocksAgree(k, a, d0, mem, sz, aux, cs);
    } else if k.GuMipMap? {
      GuMipMapAgrees(a, d0, mem, sz, aux, cs);
    } else if k.FbWrite? {
      FbWriteAgrees(a, d0, mem, sz, aux, cs);
    } else {
      TwoBlocksAgree(k, a, d0, mem, sz, aux, cs);
    }
  }

  lemma ArrayRuleUnused(k: Kind, a: seq<nat>, d0: nat, sz: nat, x: nat)
    requires |a| >= RuleArgs(k) && !k.VertexArray?
    ensures Views(k, a, d0, sz, x) == Views(k, a, d0, sz, sz)
    ensures DataCb(k, a, d0, sz, x) == DataCb(k, a, d0, sz, sz)
  {
  }

  // The host can read event e off the stream when its layout table is v.
  ghost predicate Framed(e: Event, v: Vlut, glide3: bool) {
    && e.fenum < NFUNCS && RuleArgs(KindOf(e.fenum)) <= |e.args| == DispatchArgs(e.fenum)
    && (e.fenum == GRVERTEXLAYOUT ==> |e.args| >= 3 && ValidParam(e.args[0]))
    && ViewsMatch(Views(KindOf(e.fenum), e.args, D0(e.fenum, e.chunks), VertexBytes(glide3, v), VertexSize(v)),
        e.chunks)
    && CountedAs(KindOf(e.fenum),
                 DataCb(KindOf(e.fenum), e.args, D0(e.fenum, e.chunks), VertexBytes(glide3, v), VertexSize(v)),
                     e.chunks)
  }

  // Whatever a wrapper sends under a layout, the host frames under that layout.
  lemma EventFramed(c: Call, glide3: bool, v: Vlut)
    requires ValidCall(c, glide3)
    ensures Framed(EventOf(c, glide3, v), v, glide3)
  {
    var e := EventOf(c, glide3, v);
    var k, sz := KindOf(c.f), VertexBytes(glide3, v);
    RuleArgsPresent(c.f);
    FetchAllIndexed(c.mem, k, e.args, sz, c.aux);
    FramingAgrees(k, e.args, D0(c.f, e.chunks), c.mem, sz, c.aux, e.chunks);
    if !k.VertexArray? {
      ArrayRuleUnused(k, e.args, D0(c.f, e.chunks), sz, VertexSize(v));
    }
  }
}
