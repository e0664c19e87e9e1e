/**
 The host device's side of the Glide FIFO: it drains the command queue with two
 cursors and then runs the call that triggered it.
 */
module GlideHost {
  import opened Words
  import opened Vertex3x
  import opened GlideCalls
  import opened GlideQueue

  // n words from lo, or nothing when they run past the end.
  function Slice(m: seq<Word>, lo: nat, n: nat): seq<Word> {
    if lo + n <= |m| then m[lo..lo + n] else []
  }

  // The payload words each view covers.
  function ReadViews(m: seq<Word>, base: nat, vs: seq<View>): (cs: seq<seq<Word>>)
    ensures |cs| == |vs|
  {
    seq(|vs|, k requires 0 <= k < |vs| => Slice(m, base + vs[k].off / 4, WordCount(vs[k].cb)))
  }

  // Views that match the guest's pieces read back exactly those pieces.
  lemma ReadBack(m: seq<Word>, base: nat, vs: seq<View>, cs: seq<seq<Word>>)
    requires ViewsMatch(vs, cs) && PayloadAt(m, base, cs)
    ensures ReadViews(m, base, vs) == cs
  {
    forall k | 0 <= k < |cs| ensures ReadViews(m, base, vs)[k] == cs[k] {
      PayloadPiece(m, base, cs, k);
      assert vs[k].off / 4 == PayLen(cs[..k]);
    }
  }

  // The fog table rule can read its count: the first piece is one word long.
  lemma FogCountPresent(e: Event, v: Vlut, glide3: bool)
    requires Framed(e, v, glide3) && e.fenum == GRFOGTABLE
    ensures |e.chunks| == 2 && |e.chunks[0]| == 1
  {
    var vs := Views(FogTable, e.args, D0(e.fenum, e.chunks), VertexBytes(glide3, v), VertexSize(v));
    assert vs[0] == View(0, 4);
    assert WordCount(vs[0].cb) == |e.chunks[0]|;
  }

  // The first payload word, where the sizing rule needs it.
  function FirstWord(f: nat, m: seq<Word>, hshm: nat): Word {
    if f == GRFOGTABLE && hshm < |m| then m[hshm] else 0
  }

  lemma FirstWordAgrees(e: Event, v: Vlut, glide3: bool, m: seq<Word>, hshm: nat)
    requires Framed(e, v, glide3) && PayloadAt(m, hshm, e.chunks)
    ensures FirstWord(e.fenum, m, hshm) == D0(e.fenum, e.chunks)
  {
    if e.fenum == GRFOGTABLE {
      FogCountPresent(e, v, glide3);
      PayloadPiece(m, hshm, e.chunks, 0);
      assert m[hshm..hshm + 1] == e.chunks[0];
    }
  }

  // What processArgs computes from memory alone, when event e lies there.
  lemma ArgsRecovered(e: Event, v: Vlut, glide3: bool, m: seq<Word>, hshm: nat)
    requires Framed(e, v, glide3) && PayloadAt(m, hshm, e.chunks)
    ensures var k, d0, sz := KindOf(e.fenum), FirstWord(e.fenum, m, hshm), VertexBytes(glide3, v);
            && WordCount(DataCb(k, e.args, d0, sz, VertexSize(v))) == HostWords(k, e.chunks)
            && ReadViews(m, hshm, Views(k, e.args, d0, sz, VertexSize(v))) == e.chunks
  {
    FirstWordAgrees(e, v, glide3, m, hshm);
    hide Views, DataCb, KindOf, VertexSize, CountedAs, HostWords, WordCount;
    CountedWords(KindOf(e.fenum), DataCb(KindOf(e.fenum), e.args, D0(e.fenum, e.chunks), VertexBytes(glide3, v),
        VertexSize(v)), e.chunks);
    ReadBack(m, hshm, Views(KindOf(e.fenum), e.args, D0(e.fenum, e.chunks), VertexBytes(glide3, v), VertexSize(v)),
        e.chunks);
  }

  lemma FramedBounds(e: Event, v: Vlut, glide3: bool)
    requires Framed(e, v, glide3)
    ensures e.fenum < NFUNCS && |e.args| == DispatchArgs(e.fenum)
  {
  }

  lemma QueuedBounds(m: seq<Word>, es: seq<Event>, v: Vlut, glide3: bool)
    requires Queued(m, es, v, glide3)
    ensures |m| == SHM_WORDS && FIRST_FIFO <= m[0] < MAX_FIFO && DATA + FIRST_DATA + DataLen(es) <= OUT
    ensures m[0] == FIRST_FIFO <==> es == []
    ensures DataLen([]) == 0 && VlutFold(v, []) == v
  {
  }

  // No queued call is counted unpadded: the drain's cursor moves by whole payloads.
  lemma QueuedWords(f: nat, cs: seq<seq<Word>>)
    requires QueuedArgs(f).Some?
    ensures f !in {GRLFBREADREGION, GUFBREADREGION} && HostWords(KindOf(f), cs) == PayLen(cs)
  {
    assert QueuedArgs(GRLFBREADREGION).None? && QueuedArgs(GUFBREADREGION).None? && QueuedArgs(GUFBWRITEREGION).None?;
    assert KindOf(f).FbWrite? ==> f == GUFBWRITEREGION;
  }

  lemma HostWordsBound(k: Kind, cs: seq<seq<Word>>)
    ensures HostWords(k, cs) <= PayLen(cs) <= HostWords(k, cs) + 1
  {
    if k.FbWrite? && |cs| == 1 {
      PayLenSmall(cs);
      assert cs[..1] == cs;
    }
  }

  // Words of payload the host does not count: one, for a frame buffer write of an odd count.
  function Uncounted(e: Event): (n: nat)
    ensures n <= 1
  {
    HostWordsBound(KindOf(e.fenum), e.chunks);
    PayLen(e.chunks) - HostWords(KindOf(e.fenum), e.chunks)
  }

  lemma UncountedWords(e: Event)
    ensures PayLen(e.chunks) == HostWords(KindOf(e.fenum), e.chunks) + Uncounted(e)
  {
    HostWordsBound(KindOf(e.fenum), e.chunks);
  }

  lemma StagedAt(m: seq<Word>, es: seq<Event>, cs: seq<seq<Word>>)
    requires Staged(m, es, cs)
    ensures m[DATA] == FIRST_DATA + DataLen(es) + PayLen(cs) && DATA + m[DATA] <= OUT
    ensures PayloadAt(m, DATA + FIRST_DATA + DataLen(es), cs) && (Spills(es) ==> PayLen(cs) == 0)
  {
  }

  // What a drain may have written past its payload is not in a payload behind it.
  lemma StagedKept(m: seq<Word>, m': seq<Word>, es: seq<Event>, j: nat, cs: seq<seq<Word>>)
    requires PayloadAt(m, j, cs) && j + PayLen(cs) <= OUT && (Spills(es) ==> PayLen(cs) == 0)
    requires SameOn(m, m', j + Past(es), OUT)
    ensures PayloadAt(m', j, cs)
  {
    hide PayloadAt, PayLen, Spills;
    PayloadFrame(m, m', j, cs);
  }

  // Calls whose result the library leaves where the payload would be.
  predicate ReadsRegion(f: nat) {
    f == GRLFBREADREGION || f == GUFBREADREGION
  }

  // Calls for which the host writes a pointer into the payload.
  predicate Scribbles(f: nat) {
    KindOf(f).GuMipMapLevel?
  }

  ghost predicate Quiet(es: seq<Event>) {
    forall e :: e in es ==> !Scribbles(e.fenum)
  }

  lemma QuietAt(es: seq<Event>, done: seq<Event>, rest: seq<Event>)
    requires es == done + rest && rest != []
    ensures Quiet(es) ==> !Scribbles(rest[0].fenum)
  {
    assert rest[0] in es;
  }

  // Words past the payload of a drained queue that may have been written.
  ghost function Past(es: seq<Event>): nat {
    if Spills(es) then 2 else 0
  }

  lemma PastAt(es: seq<Event>, done: seq<Event>, rest: seq<Event>)
    requires es == done + rest && rest != []
    ensures Spill(rest[0]) <= Past(es)
  {
    assert rest[0] in es;
  }

  // An event that spills is followed by no payload.
  lemma SpillBound(m: seq<Word>, i: nat, j: nat, n: nat, rest: seq<Event>, v: Vlut, glide3: bool)
    requires Remaining(m, i, j, n, rest, v, glide3) && i < n
    ensures rest != [] && (Spill(rest[0]) > 0 ==> DataLen(rest) == PayLen(rest[0].chunks))
  {
    hide Spill, PayLen, DataAt, FramedAll, QueuedArgs;
  }

  lemma LevelArgs()
    ensures RuleArgs(GuMipMapLevel) == 4
  {
  }

  // The words the host overwrites for a mip-map level are the padding it sent, or, when it
  // sent nothing, the two after.
  lemma PointerSlot(e: Event, v: Vlut, glide3: bool)
    requires Framed(e, v, glide3) && KindOf(e.fenum).GuMipMapLevel?
    ensures |e.args| >= 4 && Aligned(e.args[3]) / 4 + 2 == PayLen(e.chunks) + Spill(e)
  {
  }

  // So a call's sizing changes words of its own payload, or the two after.
  lemma LeftFrame(m: seq<Word>, j: nat, e: Event, v: Vlut, glide3: bool, base: nat)
    requires Framed(e, v, glide3)
    ensures forall w :: 0 <= w < |m| && !(j <= w < j + PayLen(e.chunks) + Spill(e)) ==> LeftBy(m, j, e, base)[w] == m[w]
    ensures !Scribbles(e.fenum) ==> LeftBy(m, j, e, base) == m
  {
    if KindOf(e.fenum).GuMipMapLevel? {
      PointerSlot(e, v, glide3);
      hide Framed, PayLen, KindOf, Spill, PointerWords;
    }
  }

  lemma NothingLeft(m: seq<Word>, j: nat, e: Event, base: nat)
    requires !KindOf(e.fenum).GuMipMapLevel?
    ensures LeftBy(m, j, e, base) == m
  {
  }

  lemma LeftIs(m: seq<Word>, j: nat, e: Event, base: nat, lo: nat, pointer: seq<Word>)
    requires KindOf(e.fenum).GuMipMapLevel? && |e.args| > 3 && lo == j + Aligned(e.args[3]) / 4 && lo + 2 <= |m|
    requires pointer == PointerWords(base, j)
    ensures LeftBy(m, j, e, base) == m[lo := pointer[0]][lo + 1 := pointer[1]]
  {
    hide KindOf, Aligned, PointerWords;
  }

  class GlidePT {
    const shm: array<Word>
    const vlut: array<int>
    const glide3: bool            // the Glide3x library is loaded
    const base: nat               // host address of shm
    var fenum: Word
    var arg: nat                  // word index of the argument window
    var hshm: nat                 // word index of the call's payload
    var datacb: nat
    var fret: Word
    var leak: bool                // the data-leak warning was issued
    ghost var trace: seq<Event>   // calls handed to the library so far

    ghost predicate Shape()
      reads this
    {
      shm.Length == SHM_WORDS && vlut.Length == NPARAM
    }

    constructor (shm: array<Word>, glide3: bool, base: nat)
      requires shm.Length == SHM_WORDS
      ensures Shape() && this.shm == shm && this.glide3 == glide3 && this.base == base
      ensures fresh(vlut) && vlut[..] == EMPTY_VLUT && trace == [] && !leak
    {
      this.shm := shm;
      this.glide3, this.base := glide3, base;
      var table := new int[NPARAM](_ => 0);
      vlut := table;
      fenum, arg, hshm, datacb, fret, leak, trace := 0, 0, 0, 0, 0, false, [];
      new;
      assert vlut[..] == EMPTY_VLUT;
    }

    // Event e is what lies at the argument and payload cursors.
    ghost predicate At(e: Event)
      reads this, shm, vlut
    {
      && Shape()
      && fenum == e.fenum && Framed(e, vlut[..], glide3)
      && arg + |e.args| <= MAX_FIFO && shm[arg..arg + |e.args|] == e.args
      && DATA + FIRST_DATA <= hshm && hshm + PayLen(e.chunks) <= OUT
      && PayloadAt(shm[..], hshm, e.chunks)
    }

    // processArgs: size the payload and point the library at its pieces.
    method ProcessArgs(ghost e: Event) returns (ghost pieces: seq<seq<Word>>)
      requires At(e)
      modifies this`datacb, shm
      ensures WordCount(datacb) == HostWords(KindOf(e.fenum), e.chunks) && pieces == e.chunks
      ensures shm[..] == LeftBy(old(shm[..]), hshm, e, base)
    {
      hide Views, DataCb, VertexSize, ViewsMatch, SymbolArgs, ReadViews, HostWords, WordCount, RuleArgs, LeftBy;
      RuleArgsPresent(fenum);
      var k, n := KindOf(fenum), DispatchArgs(fenum);
      var a := shm[arg..arg + n];
      var sz3x := SizeVertex3x(vlut);
      var sz := if glide3 then sz3x else SIZE_GRVERTEX;
      var d0 := FirstWord(fenum, shm[..], hshm);
      ArgsRecovered(e, vlut[..], glide3, shm[..], hshm);
      datacb := DataCb(k, a, d0, sz, sz3x);
      var parg := Views(k, a, d0, sz, sz3x);
      pieces := ReadViews(shm[..], hshm, parg);
      if k.GuMipMapLevel? {
        LevelArgs();
        LeavePointer(a[3], e);
      } else {
        NothingLeft(shm[..], hshm, e, base);
      }
    }

    // A pointer to the texture is left in the eight bytes after it.
    method LeavePointer(texBytes: nat, ghost e: Event)
      requires At(e) && KindOf(e.fenum).GuMipMapLevel? && |e.args| >= 4 && texBytes == e.args[3]
      modifies shm
      ensures shm[..] == LeftBy(old(shm[..]), hshm, e, base)
    {
      PointerSlot(e, vlut[..], glide3);
      hide Framed, PayloadAt, KindOf, PayLen, PointerWords, Aligned, LeftBy;
      var lo, pointer := hshm + Aligned(texBytes) / 4, PointerWords(base, hshm);
      LeftIs(shm[..], hshm, e, base, lo, pointer);
      ghost var m: seq<Word> := shm[..];
      shm[lo] := pointer[0];
      shm[lo + 1] := pointer[1];
      assert shm[..] == m[lo := pointer[0]][lo + 1 := pointer[1]];
    }

    // Words below this one are out of the library's reach: it fills the output page,
    // and a frame buffer read also lands where the call's payload starts.
    ghost function Reach(): nat
      reads this
    {
      if ReadsRegion(fenum) && hshm < OUT then hshm else OUT
    }

    // doGlideFunc: the library may leave anything in the words it can reach; out is what it
    // leaves of a frame buffer region.
    method DoGlideFunc(ghost pieces: seq<seq<Word>>, out: seq<Word>)
      requires Shape() && fenum < NFUNCS && arg + DispatchArgs(fenum) <= MAX_FIFO
      requires ReadsRegion(fenum) ==> MAX_FIFO <= hshm && hshm + |out| <= OUT
      modifies this`trace, this`fret, shm
      ensures trace == old(trace) + [Event(fenum, old(shm[arg..arg + DispatchArgs(fenum)]), pieces)]
      ensures forall w :: 0 <= w < Reach() ==> shm[w] == old(shm[w])
      ensures ReadsRegion(fenum) ==> shm[hshm..hshm + |out|] == out
    {
      hide KindOf;
      trace := trace + [Event(fenum, shm[arg..arg + DispatchArgs(fenum)], pieces)];
      fret := *;
      var w := if ReadsRegion(fenum) && hshm < OUT then hshm else OUT;
      while w < SHM_WORDS
        invariant Reach() <= w <= SHM_WORDS
        invariant trace == old(trace) + [Event(fenum, old(shm[arg..arg + DispatchArgs(fenum)]), pieces)]
        invariant forall x :: 0 <= x < Reach() ==> shm[x] == old(shm[x])
        invariant ReadsRegion(fenum) ==> forall x :: 0 <= x < |out| && hshm + x < w ==> shm[hshm + x] == out[x]
      {
        shm[w] := *;
        if ReadsRegion(fenum) && hshm <= w < hshm + |out| {
          shm[w] := out[w - hshm];
        }
        w := w + 1;
      }
    }

    // processFRet: keep the vertex layout in step with the stream.
    method ProcessFRet(ghost e: Event)
      requires Shape() && fenum == e.fenum && Framed(e, vlut[..], glide3)
      requires arg + |e.args| <= MAX_FIFO && shm[arg..arg + |e.args|] == e.args
      modifies vlut
      ensures vlut[..] == VlutAfter(old(vlut[..]), e)
    {
      assert forall i :: 0 <= i < |e.args| ==> e.args[i] == shm[arg + i];
      if fenum == GRRESET {
        assert DispatchArgs(GRRESET) == 1;
        if shm[arg] == GR_VERTEX_PARAMETER {
          ClearVlut(vlut);
        }
      } else if fenum == GRVERTEXLAYOUT {
        VlutVars(vlut, shm[arg], shm[arg + 1], shm[arg + 2]);
      }
    }

    // One call, from framing to the layout update.
    method RunCall(ghost e: Event, out: seq<Word>)
      requires At(e)
      requires ReadsRegion(fenum) ==> hshm + |out| <= OUT
      modifies this`datacb, this`trace, this`fret, shm, vlut
      ensures WordCount(datacb) == HostWords(KindOf(e.fenum), e.chunks)
      ensures trace == old(trace) + [e] && vlut[..] == VlutAfter(old(vlut[..]), e)
      ensures SameOn(old(shm[..]), shm[..], 0, hshm)
      ensures !ReadsRegion(fenum) ==> SameOn(LeftBy(old(shm[..]), hshm, e, base), shm[..], 0, OUT)
      ensures !ReadsRegion(fenum) ==> SameOn(old(shm[..]), shm[..], hshm + PayLen(e.chunks) + Spill(e), OUT)
      ensures !ReadsRegion(fenum) && !Scribbles(fenum) ==> SameOn(old(shm[..]), shm[..], 0, OUT)
      ensures ReadsRegion(fenum) ==> shm[hshm..hshm + |out|] == out
    {
      hide Framed, VlutAfter, PayloadAt, KindOf, HostWords, WordCount, DispatchArgs, Spill, LeftBy;
      FramedBounds(e, vlut[..], glide3);
      LeftFrame(shm[..], hshm, e, vlut[..], glide3, base);
      ghost var pieces := ProcessArgs(e);
      assert shm[arg..arg + |e.args|] == e.args;
      DoGlideFunc(pieces, out);
      assert shm[arg..arg + |e.args|] == e.args;
      ProcessFRet(e);
    }

    // One turn of the drain loop: run the call at the cursors and move past it.
    method NextQueued(i: nat, j: nat, ghost n: nat, ghost rest: seq<Event>) returns (i': nat, j': nat)
      requires Shape() && Remaining(shm[..], i, j, n, rest, vlut[..], glide3) && i < n
      modifies this`fenum, this`arg, this`hshm, this`datacb, this`trace, this`fret, shm, vlut
      ensures rest != [] && i < i' && j' == j + PayLen(rest[0].chunks) && FIRST_DATA <= j
      ensures Remaining(shm[..], i', j', n, rest[1..], vlut[..], glide3)
      ensures trace == old(trace) + [rest[0]] && vlut[..] == VlutAfter(old(vlut[..]), rest[0])
      ensures SameOn(old(shm[..]), shm[..], 0, DATA + FIRST_DATA)
      ensures SameOn(LeftBy(old(shm[..]), DATA + j, rest[0], base), shm[..], 0, OUT)
      ensures SameOn(old(shm[..]), shm[..], DATA + j' + Spill(rest[0]), OUT)
      ensures !Scribbles(rest[0].fenum) ==> SameOn(old(shm[..]), shm[..], 0, OUT)
    {
      hide Framed, FramedAll, Remaining, DataAt, DispatchArgs, ArgsCnt, VlutAfter, PayloadAt, KindOf, HostWords,
          WordCount, QueuedArgs, LeftBy;
      ghost var m, v := shm[..], vlut[..];
      RemainingHead(m, i, j, n, rest, v, glide3);
      ghost var e := rest[0];
      FramedBounds(e, v, glide3);
      ArgCountsAgree(e.fenum);
      QueuedWords(e.fenum, e.chunks);
      fenum := shm[i];
      i' := i + 1;
      var numArgs := ArgsCnt(fenum);
      datacb := 0;
      arg := i';
      hshm := DATA + j;
      RunCall(e, []);
      var numData := WordCount(datacb);
      i' := i' + numArgs;
      j' := j + numData;
      SameOnTrans(m, m, shm[..], 0, DATA + FIRST_DATA, 0, hshm);
      RemainingTail(m, shm[..], i, j, n, rest, v, glide3);
    }

    // The drain loop: every queued call, in order.
    method DrainQueue(ghost pend: seq<Event>) returns (j: nat)
      requires Shape() && Queued(shm[..], pend, vlut[..], glide3)
      modifies this`fenum, this`arg, this`hshm, this`datacb, this`trace, this`fret, shm, vlut
      ensures trace == old(trace) + pend && vlut[..] == VlutFold(old(vlut[..]), pend)
      ensures j == FIRST_DATA + DataLen(pend) && DATA + j <= OUT
      ensures SameOn(old(shm[..]), shm[..], 0, DATA + FIRST_DATA)
      ensures SameOn(old(shm[..]), shm[..], DATA + j + Past(pend), OUT)
      ensures Quiet(pend) ==> SameOn(old(shm[..]), shm[..], 0, OUT)
    {
      hide Framed, FramedAll, Queued, Remaining, DataAt, VlutAfter, Scribbles, Quiet, Past, Spill, Spills, Calm;
      ghost var m0, v0, total := shm[..], vlut[..], DataLen(pend);
      ghost var done: seq<Event>, rest := [], pend;
      RemainingStart(m0, pend, v0, glide3);
      QueuedBounds(m0, pend, v0, glide3);
      var i: nat := FIRST_FIFO;
      j := FIRST_DATA;
      while i < shm[0]
        invariant Remaining(shm[..], i, j, m0[0], rest, vlut[..], glide3)
        invariant done + rest == pend && trace == old(trace) + done
        invariant j + DataLen(rest) == FIRST_DATA + total
        invariant VlutFold(vlut[..], rest) == VlutFold(v0, pend)
        invariant SameOn(m0, shm[..], 0, DATA + FIRST_DATA)
        invariant SameOn(m0, shm[..], DATA + FIRST_DATA + total + Past(pend), OUT)
        invariant Quiet(pend) ==> SameOn(m0, shm[..], 0, OUT)
        decreases m0[0] - i
      {
        ghost var m := shm[..];
        SpillBound(m, i, j, m0[0], rest, vlut[..], glide3);
        PastAt(pend, done, rest);
        QuietAt(pend, done, rest);
        i, j := NextQueued(i, j, m0[0], rest);
        SameOnTrans(m0, m, shm[..], 0, DATA + FIRST_DATA, 0, DATA + FIRST_DATA);
        SameOnTrans(m0, m, shm[..], DATA + FIRST_DATA + total + Past(pend), OUT, DATA + j + Spill(rest[0]), OUT);
        done, rest := done + [rest[0]], rest[1..];
      }
      RemainingEnd(shm[..], i, j, m0[0], rest, vlut[..], glide3);
    }

    // processFifo: run every queued call, then point at the call that triggered us.
    method ProcessFifo(ghost pend: seq<Event>)
      requires Shape() && Queued(shm[..], pend, vlut[..], glide3)
      modifies this, shm, vlut
      ensures trace == old(trace) + pend && vlut[..] == VlutFold(old(vlut[..]), pend)
      ensures fenum == old(fenum) && leak == old(leak) && arg == 2 && datacb == 0
      ensures hshm == DATA + FIRST_DATA + DataLen(pend) && shm[0] == FIRST_FIFO
      ensures shm[DATA] == if DataLen(pend) > 0 then Sub32(old(shm[DATA]), FIRST_DATA + DataLen(pend))
          else old(shm[DATA])
      ensures SameOn(old(shm[..]), shm[..], 1, FIRST_FIFO)
      ensures SameOn(old(shm[..]), shm[..], DATA + FIRST_DATA + DataLen(pend) + Past(pend), OUT)
      ensures Quiet(pend) ==> SameOn(old(shm[..]), shm[..], DATA + FIRST_DATA, OUT)
    {
      hide Framed, FramedAll, Queued, DataAt, VlutAfter, FifoWords, Scribbles, Quiet, Past, Spills, Calm;
      var trigger := fenum;
      var j: nat := FIRST_DATA;
      QueuedBounds(shm[..], pend, vlut[..], glide3);
      if shm[0] - FIRST_FIFO != 0 {
        j := DrainQueue(pend);
        shm[0] := FIRST_FIFO;
        fenum := trigger;
      }
      datacb := 0;
      arg := 2;
      hshm := DATA + j;
      if j > FIRST_DATA {
        shm[DATA] := Sub32(shm[DATA], j);
      }
    }

    // The end of a trigger: what is left of the data count must be 0 or its start value.
    // The warning is given exactly when the host counted a word too few and nothing was
    // queued ahead: short is that word, rest the payload drained before.
    method SettleData(ghost queued: nat, ghost short: nat)
      requires Shape() && short <= 1
      requires shm[DATA] == WordCount(datacb) + short + if queued > 0 then 0 else FIRST_DATA
      modifies this`leak, shm
      ensures shm[DATA] == FIRST_DATA && leak == (old(leak) || (short == 1 && queued == 0))
      ensures forall w :: 0 <= w < SHM_WORDS && w != DATA ==> shm[w] == old(shm[w])
    {
      var numData := WordCount(datacb);
      shm[DATA] := Sub32(shm[DATA], numData);
      assert shm[DATA] == short + if queued > 0 then 0 else FIRST_DATA;
      leak := leak || shm[DATA] > FIRST_DATA;
      shm[DATA] := FIRST_DATA;
    }

    // A write to the trigger register: drain, run the call, settle the data cursor.
    // Everything issued reaches the library in order, and the cursors start afresh.
    // drained is the memory before the library ran the call.
    method Trigger(val: Word, ghost pend: seq<Event>, ghost e: Event, out: seq<Word>) returns (ghost drained: seq<Word>)
      requires Shape() && Queued(shm[..], pend, vlut[..], glide3) && Staged(shm[..], pend, e.chunks)
      requires val == e.fenum && Framed(e, VlutFold(vlut[..], pend), glide3)
      requires shm[2..2 + |e.args|] == e.args && 2 + |e.args| <= FIRST_FIFO
      requires ReadsRegion(e.fenum) ==> DATA + FIRST_DATA + DataLen(pend) + |out| <= OUT
      modifies this, shm, vlut
      ensures trace == old(trace) + pend + [e]
      ensures vlut[..] == VlutAfter(VlutFold(old(vlut[..]), pend), e)
      ensures shm[0] == FIRST_FIFO && shm[DATA] == FIRST_DATA
      ensures leak == (old(leak) || (Uncounted(e) == 1 && DataLen(pend) == 0))
      ensures |drained| == SHM_WORDS
      ensures Quiet(pend) ==> SameOn(old(shm[..]), drained, DATA + FIRST_DATA, OUT)
      ensures ReadsRegion(e.fenum) ==>
                shm[DATA + FIRST_DATA..DATA + FIRST_DATA + |out|] == RegionReadBack(drained, DataLen(pend), out)
    {
      hide Framed, FramedAll, Queued, DataAt, VlutAfter, PayloadAt, HostWords, Scribbles, WordCount, Uncounted,
          RegionReadBack,
           PayLen, DataLen, KindOf, Quiet, Past, Spills, Spill;
      UncountedWords(e);
      StagedAt(shm[..], pend, e.chunks);
      fenum := val;
      ghost var m := shm[..];
      ProcessFifo(pend);
      drained := shm[..];
      assert shm[2..2 + |e.args|] == m[2..2 + |e.args|];
      StagedKept(m, shm[..], pend, hshm, e.chunks);
      RunCall(e, out);
      ghost var left := shm[..];
      SettleData(DataLen(pend), Uncounted(e));
      if ReadsRegion(e.fenum) {
        ReadBackIs(drained, left, shm[..], DataLen(pend), out);
      }
    }
  }
}
