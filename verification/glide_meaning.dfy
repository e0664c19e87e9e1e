/**
 What reaches the library, said call by call: the memory each pointer argument named in the
 guest, and the vertex layout the calls before it set. Function numbers, argument positions
 and sizes are written out, apart from the tables the two sides work from.
 */
module GlideMeaning {
  import opened Words
  import opened Vertex3x
  import opened GlideCalls
  import opened GlideQueue

  // ws are the words of guest memory that hold cb bytes from address addr on.
  ghost predicate Shows(ws: seq<Word>, mem: Memory, addr: nat, cb: nat) {
    cb <= 4 * |ws| < cb + 4 && forall k :: 0 <= k < |ws| ==> ws[k] == mem(addr + 4 * k)
  }

  ghost predicate OneBlock(cs: seq<seq<Word>>, mem: Memory, a0: nat, n0: nat) {
    |cs| == 1 && Shows(cs[0], mem, a0, n0)
  }

  ghost predicate TwoBlocks(cs: seq<seq<Word>>, mem: Memory, a0: nat, n0: nat, a1: nat, n1: nat) {
    |cs| == 2 && Shows(cs[0], mem, a0, n0) && Shows(cs[1], mem, a1, n1)
  }

  ghost predicate ThreeBlocks(cs: seq<seq<Word>>, mem: Memory, a0: nat, a1: nat, a2: nat, n: nat) {
    |cs| == 3 && Shows(cs[0], mem, a0, n) && Shows(cs[1], mem, a1, n) && Shows(cs[2], mem, a2, n)
  }

  // Argument i of a call.
  function Arg(c: Call, i: nat): Word {
    if i < |c.args| then c.args[i] else 0
  }

  // Lines, points, triangles and vertex lists: the vertices the arguments point to, in the
  // order of the arguments; sz is the size of a vertex.
  ghost predicate DrawMeant(c: Call, sz: nat, cs: seq<seq<Word>>) {
    && (c.f in {0x01, 0x1d} ==> TwoBlocks(cs, c.mem, Arg(c, 0), sz, Arg(c, 1), sz))
    && (c.f in {0x02, 0x20} ==> OneBlock(cs, c.mem, Arg(c, 0), sz))
    && (c.f in {0x05, 0x23, 0x64, 0x68} ==> ThreeBlocks(cs, c.mem, Arg(c, 0), Arg(c, 1), Arg(c, 2), sz))
    && (c.f in {0x04, 0x1f, 0x22, 0x67} ==> OneBlock(cs, c.mem, Arg(c, 1), 60 * Arg(c, 0)))
    && (c.f == 0x92 ==> OneBlock(cs, c.mem, Arg(c, 2), Arg(c, 1) * Arg(c, 3)))
  }

  // Polygons: the index list, then the 60-byte vertex of each index. Vertex arrays: the vertex
  // each pointer of the array names.
  ghost predicate ListMeant(c: Call, sz: nat, cs: seq<seq<Word>>) {
    && (c.f in {0x03, 0x1e, 0x21} ==>
          && |cs| == 1 + Arg(c, 0) && Shows(cs[0], c.mem, Arg(c, 1), 4 * Arg(c, 0))
          && forall i :: 0 <= i < Arg(c, 0) ==>
               Shows(cs[i + 1], c.mem, (Arg(c, 2) + 60 * c.mem(Arg(c, 1) + 4 * i)) % 0x1_0000_0000, 60))
    && (c.f == 0x91 ==>
          |cs| == Arg(c, 1) && forall i :: 0 <= i < Arg(c, 1) ==> Shows(cs[i], c.mem, c.mem(Arg(c, 2) + 4 * i), sz))
  }

  // Texture downloads and colour tables.
  ghost predicate TextureMeant(c: Call, cs: seq<seq<Word>>) {
    && (c.f == 0x52 ==> TwoBlocks(cs, c.mem, Arg(c, 3), 20, c.mem(Arg(c, 3) + 16), Arg(c, 4)))
    && (c.f == 0x53 ==> OneBlock(cs, c.mem, Arg(c, 7), Arg(c, 8)))
    && (c.f == 0x54 ==> OneBlock(cs, c.mem, Arg(c, 7), Arg(c, 10)))
    && (c.f == 0x55 ==> OneBlock(cs, c.mem, Arg(c, 2), if Arg(c, 1) == 2 then 1024 else 112))
    && (c.f == 0x56 ==> OneBlock(cs, c.mem, Arg(c, 2), if Arg(c, 1) == 2 then 4 * (Arg(c, 4) + 1) else 112))
    && (c.f == 0xa1 ==> OneBlock(cs, c.mem, Arg(c, 1), if Arg(c, 0) >= 2 then 1024 else 112))
    && (c.f == 0xa2 ==> OneBlock(cs, c.mem, Arg(c, 1), if Arg(c, 0) >= 2 then 4 * (Arg(c, 3) + 1) else 112))
    && (c.f == 0x5f ==> OneBlock(cs, c.mem, Arg(c, 3), 20))
    && (c.f == 0x60 ==> OneBlock(cs, c.mem, Arg(c, 1), 20))
  }

  // The multi-map utilities: a texture or a table that is not there is not sent.
  ghost predicate MipMapMeant(c: Call, cs: seq<seq<Word>>) {
    && (c.f == 0x7b ==>
          var t, n := Arg(c, 3), if Arg(c, 3) != 0 then 1 else 0;
          && |cs| == n + (if Arg(c, 2) != 0 then 1 else 0)
          && (t != 0 ==> Shows(cs[0], c.mem, Arg(c, 1), t))
          && (Arg(c, 2) != 0 ==> Shows(cs[n], c.mem, Arg(c, 2), 112)))
    && (c.f == 0x7c ==>
          if Arg(c, 3) == 0 then cs == []
          else |cs| == 2 && |cs[1]| == 2 && Shows(cs[0], c.mem, c.mem(Arg(c, 2)), Arg(c, 3)))
  }

  // Frame buffer regions and locks.
  ghost predicate RegionMeant(c: Call, cs: seq<seq<Word>>) {
    && (c.f == 0x32 ==> OneBlock(cs, c.mem, Arg(c, 5), 20))
    && (c.f == 0x37 ==> OneBlock(cs, c.mem, Arg(c, 7), Arg(c, 5) * Arg(c, 6)))
    && (c.f == 0x9b ==> OneBlock(cs, c.mem, Arg(c, 8), Arg(c, 5) * Arg(c, 7)))
    && (c.f == 0x8c ==> OneBlock(cs, c.mem, Arg(c, 4), Arg(c, 3) * Arg(c, 5)))
  }

  // Queries, statistics, fog and gamma tables, and files.
  ghost predicate OtherMeant(c: Call, cs: seq<seq<Word>>) {
    && (c.f == 0x27 ==> |cs| == 2 && cs[0] == [c.aux.fogN] && Shows(cs[1], c.mem, Arg(c, 0), c.aux.fogN))
    && (c.f == 0x40 ==> OneBlock(cs, c.mem, Arg(c, 0), 20))
    && (c.f in {0x41, 0x42} ==> OneBlock(cs, c.mem, Arg(c, 0), 148))
    && (c.f == 0x61 ==> TwoBlocks(cs, c.mem, Arg(c, 0), 4, Arg(c, 1), 4))
    && (c.f in {0x62, 0x63} ==> OneBlock(cs, c.mem, c.aux.base, 64))
    && (c.f == 0x9c ==> ThreeBlocks(cs, c.mem, Arg(c, 1), Arg(c, 2), Arg(c, 3), 4 * Arg(c, 0)))
    && (c.f == 0x9d ==> OneBlock(cs, c.mem, Arg(c, 0), 16))
  }

  predicate HasPayload(f: nat) {
    || f in {0x01, 0x02, 0x03, 0x04, 0x05, 0x1d, 0x1e, 0x1f, 0x20, 0x21, 0x22, 0x23, 0x27, 0x32, 0x37}
    || f in {0x40, 0x41, 0x42, 0x52, 0x53, 0x54, 0x55, 0x56, 0x5f, 0x60, 0x61, 0x62, 0x63, 0x64, 0x67, 0x68}
    || f in {0x7b, 0x7c, 0x8c, 0x91, 0x92, 0x9b, 0x9c, 0x9d, 0xa1, 0xa2}
  }

  // Parameters the wrappers declare for a call, up to the extensions.
  function Parameters(f: nat): nat {
    if NoneDeclared(f) then 0
    else if TwoDeclared(f) then 2
    else if ThreeDeclared(f) then 3
    else if f in {0x06, 0x11, 0x14, 0x4d, 0x51, 0x52, 0x5f, 0x69, 0x92, 0x9c, 0xa2, 0xa5} then 4
    else if f in {0x07, 0x12, 0x3a, 0x56, 0x5d} then 5
    else if f in {0x05, 0x32, 0x89, 0x8b, 0x8c} then 6
    else if f in {0x33, 0x4c, 0x4f} then 7
    else if f in {0x37, 0x53} then 8
    else if f == 0x9b then 9
    else if f == 0x54 then 10
    else if f == 0x78 then 12
    else if f == 0x77 then 15
    else if f == 0x00 then 16
    else 1
  }

  predicate NoneDeclared(f: nat) {
    || f in {0x0c, 0x1b, 0x2b, 0x2e, 0x39, 0x3d, 0x3e, 0x43, 0x44, 0x45, 0x47, 0x48, 0x4a, 0x4b, 0x71, 0x75, 0x76}
    || f in {0x7a, 0x80, 0x82, 0x84, 0x8d, 0x94, 0x95}
  }

  predicate TwoDeclared(f: nat) {
    || f in {0x01, 0x04, 0x13, 0x1d, 0x1f, 0x22, 0x2f, 0x34, 0x36, 0x49, 0x50, 0x58, 0x5c, 0x5e, 0x60, 0x61, 0x62}
    || f in {0x63, 0x67, 0x6c, 0x6d, 0x73, 0x79, 0x8f, 0x9d, 0xa1}
  }

  predicate ThreeDeclared(f: nat) {
    || f in {0x03, 0x0b, 0x1e, 0x21, 0x23, 0x3b, 0x4e, 0x55, 0x57, 0x5b, 0x64, 0x68, 0x6e, 0x70, 0x7b, 0x7c, 0x91}
    || f in {0x96, 0xa4, 0xa6}
  }

  // The host hands on the parameters and, for the downloads that carry one, a length; state
  // queries (0x2a) take a host pointer instead.
  ghost predicate AllHandedOn(f: nat, n: nat) {
    f < 0xa7 && f != 0x2a ==> n == Parameters(f) + if f in {0x52, 0x53, 0x54, 0x7b, 0x7c} then 1 else 0
  }

  lemma HandedOn2xA(f: nat)
    requires f < 0x20
    ensures AllHandedOn(f, DispatchArgs(f))
  {
  }

  lemma HandedOn2xB(f: nat)
    requires 0x20 <= f < 0x40
    ensures AllHandedOn(f, DispatchArgs(f))
  {
  }

  lemma HandedOn2xC(f: nat)
    requires 0x40 <= f < 0x60
    ensures AllHandedOn(f, DispatchArgs(f))
  {
  }

  lemma HandedOn2xD(f: nat)
    requires 0x60 <= f < 0x82
    ensures AllHandedOn(f, DispatchArgs(f))
  {
  }

  lemma HandedOn3x(f: nat)
    requires 0x82 <= f < NFUNCS
    ensures AllHandedOn(f, DispatchArgs(f))
  {
  }

  // The words taken from the symbol table are the parameters the wrappers declare.
  lemma ParametersHandedOn(f: nat)
    requires f < NFUNCS
    ensures AllHandedOn(f, DispatchArgs(f))
  {
    hide *;
    if f < 0x20 {
      HandedOn2xA(f);
    } else if f < 0x40 {
      HandedOn2xB(f);
    } else if f < 0x60 {
      HandedOn2xC(f);
    } else if f < 0x82 {
      HandedOn2xD(f);
    } else {
      HandedOn3x(f);
    }
  }

  // The event is the call: its number, its argument words in order, and the memory it names.
  ghost predicate Meant(c: Call, sz: nat, e: Event) {
    && e.fenum == c.f && e.args <= c.args && AllHandedOn(c.f, |e.args|)
    && DrawMeant(c, sz, e.chunks) && ListMeant(c, sz, e.chunks) && TextureMeant(c, e.chunks)
    && MipMapMeant(c, e.chunks) && RegionMeant(c, e.chunks) && OtherMeant(c, e.chunks)
    && (!HasPayload(c.f) ==> e.chunks == [])
  }

  // ---------- every call ----------

  lemma ReadShows(mem: Memory, addr: nat, cb: nat)
    ensures Shows(ReadWords(mem, addr, WordCount(cb)), mem, addr, cb)
  {
  }

  // Each block is sent as it stands in memory.
  ghost predicate Sent(srcs: seq<Src>, mem: Memory, cs: seq<seq<Word>>) {
    |cs| == |srcs| &&
    forall i :: 0 <= i < |srcs| ==>
                  match srcs[i]
                  case FromMem(addr, cb) => Shows(cs[i], mem, addr, cb)
                  case FromLocal(words, _) => cs[i] == words
  }

  lemma FetchedSent(mem: Memory, srcs: seq<Src>)
    ensures Sent(srcs, mem, FetchAll(mem, srcs))
  {
    hide Shows, WordCount, ReadWords;
    forall i | 0 <= i < |srcs| && srcs[i].FromMem?
      ensures Shows(FetchAll(mem, srcs)[i], mem, srcs[i].addr, srcs[i].cb)
    {
      ReadShows(mem, srcs[i].addr, srcs[i].cb);
    }
  }

  // What a call sends is fixed by its kind and its own arguments.
  lemma EventSent(c: Call, glide3: bool, v: Vlut)
    requires ValidCall(c, glide3)
    ensures RuleArgs(KindOf(c.f)) <= |c.args|
    ensures Sent(Sources(KindOf(c.f), c.args, c.mem, if glide3 then VertexSize(v) else 60, c.aux), c.mem,
                 EventOf(c, glide3, v).chunks)
  {
    RuleArgsPresent(c.f);
    var sz := VertexBytes(glide3, v);
    var args := c.args[..DispatchArgs(c.f)];
    SourcesPrefix(KindOf(c.f), args, c.args, c.mem, sz, c.aux);
    hide Sources, KindOf, DispatchArgs, RuleArgs, QueuedArgs, Sent, FetchAll, VertexSize;
    FetchedSent(c.mem, Sources(KindOf(c.f), c.args, c.mem, sz, c.aux));
  }

  lemma SourcesPrefix(k: Kind, a: seq<Word>, b: seq<Word>, mem: Memory, sz: nat, aux: Aux)
    requires RuleArgs(k) <= |a| && a <= b
    ensures Sources(k, a, mem, sz, aux) == Sources(k, b, mem, sz, aux)
  {
    assert forall i :: 0 <= i < |a| ==> a[i] == b[i];
  }

  lemma DrawIsMeant(c: Call, sz: nat, cs: seq<seq<Word>>)
    requires RuleArgs(KindOf(c.f)) <= |c.args| && Sent(Sources(KindOf(c.f), c.args, c.mem, sz, c.aux), c.mem, cs)
    ensures DrawMeant(c, sz, cs)
  {
    hide Shows;
  }

  lemma ListIsMeant(c: Call, sz: nat, cs: seq<seq<Word>>)
    requires RuleArgs(KindOf(c.f)) <= |c.args| && Sent(Sources(KindOf(c.f), c.args, c.mem, sz, c.aux), c.mem, cs)
    ensures ListMeant(c, sz, cs)
  {
    hide Shows;
    if c.f in {0x03, 0x1e, 0x21} {
      assert KindOf(c.f) == Polygon;
    } else if c.f == 0x91 {
      assert KindOf(c.f) == VertexArray;
    }
  }

  lemma TextureIsMeant(c: Call, sz: nat, cs: seq<seq<Word>>)
    requires RuleArgs(KindOf(c.f)) <= |c.args| && Sent(Sources(KindOf(c.f), c.args, c.mem, sz, c.aux), c.mem, cs)
    ensures TextureMeant(c, cs)
  {
    hide Shows;
  }

  lemma MipMapIsMeant(c: Call, sz: nat, cs: seq<seq<Word>>)
    requires RuleArgs(KindOf(c.f)) <= |c.args| && Sent(Sources(KindOf(c.f), c.args, c.mem, sz, c.aux), c.mem, cs)
    ensures MipMapMeant(c, cs)
  {
    hide Shows;
  }

  lemma RegionIsMeant(c: Call, sz: nat, cs: seq<seq<Word>>)
    requires RuleArgs(KindOf(c.f)) <= |c.args| && Sent(Sources(KindOf(c.f), c.args, c.mem, sz, c.aux), c.mem, cs)
    ensures RegionMeant(c, cs)
  {
    hide Shows;
  }

  lemma OtherIsMeant(c: Call, sz: nat, cs: seq<seq<Word>>)
    requires RuleArgs(KindOf(c.f)) <= |c.args| && Sent(Sources(KindOf(c.f), c.args, c.mem, sz, c.aux), c.mem, cs)
    ensures OtherMeant(c, cs)
  {
    hide Shows;
  }

  lemma NothingIsMeant(c: Call, sz: nat, cs: seq<seq<Word>>)
    requires RuleArgs(KindOf(c.f)) <= |c.args| && Sent(Sources(KindOf(c.f), c.args, c.mem, sz, c.aux), c.mem, cs)
    ensures !HasPayload(c.f) ==> cs == []
  {
    hide Shows;
  }

  // Every call reaches the library as the application meant it.
  lemma EventMeant(c: Call, glide3: bool, v: Vlut)
    requires ValidCall(c, glide3)
    ensures Meant(c, if glide3 then VertexSize(v) else 60, EventOf(c, glide3, v))
  {
    var sz, cs := if glide3 then VertexSize(v) else 60, EventOf(c, glide3, v).chunks;
    EventSent(c, glide3, v);
    ParametersHandedOn(c.f);
    hide AllHandedOn, Sent, Sources, KindOf, DrawMeant, ListMeant, TextureMeant, MipMapMeant, RegionMeant, OtherMeant,
        HasPayload, RuleArgs, FetchAll, VertexSize, DispatchArgs, QueuedArgs;
    DrawIsMeant(c, sz, cs);
    ListIsMeant(c, sz, cs);
    TextureIsMeant(c, sz, cs);
    MipMapIsMeant(c, sz, cs);
    RegionIsMeant(c, sz, cs);
    OtherIsMeant(c, sz, cs);
    NothingIsMeant(c, sz, cs);
  }

  // ---------- every program ----------

  // Each event is the call at its place in the program, with vertices as long as the layout
  // the events before it set.
  ghost predicate AllMeant(prog: seq<Call>, es: seq<Event>, glide3: bool, v: Vlut) {
    |es| == |prog| &&
    forall i :: 0 <= i < |prog| ==> Meant(prog[i], if glide3 then VertexSize(VlutFold(v, es[..i])) else 60, es[i])
  }

  lemma AllMeantCons(prog: seq<Call>, es: seq<Event>, glide3: bool, v: Vlut)
    requires prog != [] && es != [] && AllMeant(prog[1..], es[1..], glide3, VlutAfter(v, es[0]))
    requires Meant(prog[0], if glide3 then VertexSize(v) else 60, es[0])
    ensures AllMeant(prog, es, glide3, v)
  {
    hide Meant, VertexSize, VlutAfter;
    forall i | 0 <= i < |prog|
      ensures Meant(prog[i], if glide3 then VertexSize(VlutFold(v, es[..i])) else 60, es[i])
    {
      if i == 0 {
        assert es[..0] == [];
      } else {
        assert es[..i][1..] == es[1..][..i - 1] && es[..i][0] == es[0];
        assert prog[1..][i - 1] == prog[i] && es[1..][i - 1] == es[i];
      }
    }
  }

  // ---------- the layout over a stream ----------

  // Event e gives entry i a value: a layout call of it or of one that stands for it, or a reset.
  ghost predicate SetsEntry(e: Event, i: nat) {
    || (e.fenum == 0xa4 && |e.args| >= 3 && ValidParam(e.args[0]) && (ParamIdx(e.args[0]) == i || Clears(e.args[0], i)))
    || (e.fenum == 0x9e && |e.args| >= 1 && e.args[0] == 0x29)
  }

  // The offset, as a signed word, for an enabling call of the entry's own parameter; else 0.
  ghost function EntryValue(e: Event, i: nat): int {
    if e.fenum == 0xa4 && |e.args| >= 3 && ValidParam(e.args[0]) && ParamIdx(e.args[0]) == i && e.args[2] != 0 then
      if e.args[1] < 0x8000_0000 then e.args[1] else (e.args[1] as int) - 0x1_0000_0000
    else 0
  }

  lemma EntryAfter(v: Vlut, e: Event, i: nat)
    requires i < 12
    ensures VlutAfter(v, e)[i] == if SetsEntry(e, i) then EntryValue(e, i) else v[i]
  {
    if e.fenum == 0xa4 && |e.args| >= 3 && ValidParam(e.args[0]) {
      LayoutEntry(v, e.args[0], e.args[1], e.args[2], i);
      hide SetParam;
    }
  }

  // After any stream an entry no event set is as it was.
  lemma {:induction false} LayoutKept(v: Vlut, es: seq<Event>, i: nat)
    requires i < 12 && forall k :: 0 <= k < |es| ==> !SetsEntry(es[k], i)
    ensures VlutFold(v, es)[i] == v[i]
    decreases |es|
  {
    hide SetsEntry, EntryValue, VlutAfter;
    if es == [] {
    } else {
      EntryAfter(v, es[0], i);
      assert forall m :: 0 <= m < |es[1..]| ==> es[1..][m] == es[m + 1];
      LayoutKept(VlutAfter(v, es[0]), es[1..], i);
    }
  }

  // And one that was set has what the last event that set it gave it.
  lemma {:induction false} LayoutRun(v: Vlut, es: seq<Event>, i: nat, k: nat)
    requires i < 12 && k < |es| && SetsEntry(es[k], i) && forall m :: k < m < |es| ==> !SetsEntry(es[m], i)
    ensures VlutFold(v, es)[i] == EntryValue(es[k], i)
    decreases |es|
  {
    hide SetsEntry, EntryValue, VlutAfter;
    var t := es[1..];
    assert forall m :: 0 <= m < |t| ==> t[m] == es[m + 1];
    if k == 0 {
      EntryAfter(v, es[0], i);
      LayoutKept(VlutAfter(v, es[0]), t, i);
    } else {
      LayoutRun(VlutAfter(v, es[0]), t, i, k - 1);
    }
  }
}
