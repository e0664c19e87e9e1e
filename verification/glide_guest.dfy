/**
 The guest wrapper's side of the Glide FIFO: what one call does to the shared memory,
 and the invariant that couples guest and host.
 */
module GlideGuest {
  import opened Words
  import opened Vertex3x
  import opened GlideCalls
  import opened GlideQueue
  import opened GlideHost

  lemma {:induction false} PayLenPrefix(cs: seq<seq<Word>>, k: nat)
    requires k < |cs|
    ensures PayLen(cs[..k + 1]) == PayLen(cs[..k]) + PadEven(|cs[k]|) <= PayLen(cs)
    decreases |cs| - k
  {
    assert cs[..k + 1] == cs[..k] + [cs[k]];
    PayLenAppend(cs[..k], cs[k]);
    if k + 1 < |cs| {
      PayLenPrefix(cs, k + 1);
    } else {
      assert cs[..k + 1] == cs;
    }
  }

  lemma NoPieces(cs: seq<seq<Word>>)
    ensures cs[..0] == [] && PayLen(cs[..0]) == 0
  {
  }

  // A drained queue is the empty queue.
  lemma NothingQueued(m: seq<Word>, v: Vlut, glide3: bool)
    requires |m| == SHM_WORDS && m[0] == FIRST_FIFO && m[DATA] == FIRST_DATA
    ensures Queued(m, [], v, glide3) && Staged(m, [], []) && VlutFold(v, []) == v && !Spills([])
  {
  }

  lemma RegionSent(f: nat)
    requires ReadsRegion(f)
    ensures QueuedArgs(f).None?
  {
  }

  // The host warns of a leak: a word not counted, and no payload queued ahead to hide it.
  predicate Leaks(cur: Cursor, e: Event) {
    Uncounted(e) == 1 && cur.data == FIRST_DATA
  }

  class Guest {
    const shm: array<Word>
    const host: GlidePT
    const vlut: array<int>
    const fifoEn: bool             // FIFO_EN
    ghost var pend: seq<Event>     // queued, not yet seen by the host
    ghost var issued: seq<Event>   // every call made so far

    ghost predicate Wired()
      reads this, host
    {
      host.shm == shm && host.Shape() && vlut.Length == NPARAM && vlut != host.vlut
    }

    // The shared memory holds the pending calls and, after them, the pieces cs.
    ghost predicate Holding(cs: seq<seq<Word>>)
      reads this, host, shm, host.vlut
    {
      && Wired()
      && Queued(shm[..], pend, host.vlut[..], host.glide3)
      && Staged(shm[..], pend, cs)
    }

    // What every call keeps.  The host lags by exactly the pending calls: they are
    // the difference between what was issued and what ran, and between the two
    // sides' vertex layouts.
    ghost predicate Valid()
      reads this, host, shm, vlut, host.vlut
    {
      && Holding([])
      && shm[DATA] < MAX_DATA
      && vlut[..] == VlutFold(host.vlut[..], pend)
      && issued == host.trace + pend
      && (!fifoEn ==> pend == [])
    }

    constructor (shm: array<Word>, host: GlidePT, fifoEn: bool)
      requires host.shm == shm && host.Shape() && host.vlut[..] == EMPTY_VLUT && host.trace == []
      modifies shm
      ensures Valid() && this.shm == shm && this.host == host && this.fifoEn == fifoEn && fresh(vlut)
      ensures pend == issued == [] && vlut[..] == EMPTY_VLUT && CursorOf(shm[..]) == START
    {
      this.shm, this.host, this.fifoEn := shm, host, fifoEn;
      var table := new int[NPARAM](_ => 0);
      vlut := table;
      pend, issued := [], [];
      new;
      shm[0] := FIRST_FIFO;
      shm[DATA] := FIRST_DATA;
      assert vlut[..] == EMPTY_VLUT;
      NothingQueued(shm[..], host.vlut[..], host.glide3);
    }

    // fifoAddData: copy one block behind the payload already there.
    method FifoAddData(data: seq<Word>, cb: nat, ghost cs: seq<seq<Word>>)
      requires Holding(cs) && |data| == WordCount(cb) && DATA + shm[DATA] + PadEven(|data|) <= OUT
      requires Spills(pend) ==> PadEven(|data|) == 0
      modifies shm
      ensures Holding(cs + [data]) && shm[DATA] == old(shm[DATA]) + PadEven(|data|)
      ensures SameOn(old(shm[..]), shm[..], DATA + FIRST_DATA, DATA + old(shm[DATA]))
    {
      hide Queued, Staged;
      StagedBounds(shm[..], pend, cs);
      ghost var m, v := shm[..], host.vlut[..];
      var numData := WordCount(cb);
      var j := shm[DATA];
      shm[DATA] := if (j + numData) % 2 != 0 then j + numData + 1 else j + numData;
      forall w | 0 <= w < numData {
        shm[DATA + j + w] := data[w];
      }
      assert shm[DATA + j..DATA + j + numData] == data;
      assert host.vlut[..] == v;
      StagedAppend(m, shm[..], pend, cs, data, v, host.glide3);
    }

    // fifoAddEntry: queue the call's number and its argument words.
    method FifoAddEntry(f: Word, numArgs: nat)
      requires shm.Length == SHM_WORDS && numArgs <= 16 && FIRST_FIFO <= shm[0] && shm[0] + 1 + numArgs < MAX_FIFO
      modifies shm
      ensures shm[0] == old(shm[0]) + 1 + numArgs
      ensures shm[old(shm[0])..shm[0]] == [f] + old(shm[2..2 + numArgs])
      ensures forall w :: 1 <= w < SHM_WORDS && !(old(shm[0]) <= w < shm[0]) ==> shm[w] == old(shm[w])
    {
      ghost var start: nat, window := shm[0], shm[2..2 + numArgs];
      var j: nat := shm[0];
      shm[j] := f;
      j := j + 1;
      for i := 0 to numArgs
        invariant j == start + 1 + i && shm[0] == start
        invariant shm[start..j] == [f] + window[..i]
        invariant forall w :: 1 <= w < SHM_WORDS && !(start <= w < j) ==> shm[w] == old(shm[w])
      {
        assert shm[2 + i] == old(shm[2 + i]) == window[i];
        shm[j] := shm[2 + i];
        j := j + 1;
        assert shm[start..j] == shm[start..j - 1] + [window[i]];
      }
      shm[0] := j;
    }

    // The window of argument words and the payload of e are in place.
    ghost predicate Ready(e: Event)
      reads this, host, shm, host.vlut
    {
      Holding(e.chunks) && Framed(e, VlutFold(host.vlut[..], pend), host.glide3) && |e.args| <= 16 &&
      shm[2..2 + |e.args|] == e.args
    }

    // Trigger the host: the queue drains, then the call runs.
    method Send(f: Word, ghost e: Event, out: seq<Word>) returns (ghost drained: seq<Word>)
      requires Ready(e) && f == e.fenum
      requires ReadsRegion(f) ==> DATA + FIRST_DATA + DataLen(pend) + |out| <= OUT
      modifies this`pend, host, shm, host.vlut
      ensures Holding([]) && pend == [] && !Spills(pend) && CursorOf(shm[..]) == START
      ensures host.leak == (old(host.leak) || (Uncounted(e) == 1 && DataLen(old(pend)) == 0))
      ensures host.trace == old(host.trace + pend) + [e]
      ensures VlutFold(host.vlut[..], pend) == host.vlut[..] == VlutAfter(VlutFold(old(host.vlut[..]), old(pend)), e)
      ensures |drained| == SHM_WORDS
      ensures Quiet(old(pend)) ==> SameOn(old(shm[..]), drained, DATA + FIRST_DATA, OUT)
      ensures ReadsRegion(f) ==>
                shm[DATA + FIRST_DATA..DATA + FIRST_DATA + |out|] == RegionReadBack(drained, DataLen(old(pend)), out)
    {
      hide Framed, FramedAll, DataAt, VlutAfter, PayloadAt, Scribbles, Quiet, Uncounted, RegionReadBack;
      drained := host.Trigger(f, pend, e, out);
      pend := [];
      NothingQueued(shm[..], host.vlut[..], host.glide3);
    }

    // FIFO_GRFUNC: queue the call if there is room, else send it at once.
    method FifoGrFunc(f: Word, numArgs: nat, ghost e: Event)
      requires Ready(e) && f == e.fenum && QueuedArgs(f) == Some(numArgs) && numArgs == |e.args|
      modifies this`pend, host, shm, host.vlut
      ensures Holding([]) && shm[DATA] < MAX_DATA && host.leak == old(host.leak)
      ensures host.trace + pend == old(host.trace + pend) + [e]
      ensures VlutFold(host.vlut[..], pend) == VlutAfter(VlutFold(old(host.vlut[..]), old(pend)), e)
      ensures !fifoEn ==> pend == []
      ensures Spills(pend) <==> CursorOf(shm[..]) != START && (Spills(old(pend)) || Spill(e) > 0)
      ensures CursorOf(shm[..]) ==
              if fifoEn && old(shm[0]) + (numArgs + 1) < MAX_FIFO && old(shm[DATA]) < MAX_DATA
              then Cursor(old(shm[0]) + 1 + numArgs, old(shm[DATA])) else START
    {
      hide Framed, FramedAll, DataAt, VlutAfter, PayloadAt, QueuedArgs, KindOf, HostWords, Spills, Spill, Calm;
      QueuedWords(f, e.chunks);
      QueuedBounds(shm[..], pend, host.vlut[..], host.glide3);
      if fifoEn && shm[0] + (numArgs + 1) < MAX_FIFO && shm[DATA] < MAX_DATA {
        ghost var m := shm[..];
        FifoAddEntry(f, numArgs);
        assert shm[FIRST_FIFO..m[0]] == m[FIRST_FIFO..m[0]];
        FoldAppend(host.vlut[..], pend, e, host.glide3);
        QueuedAppend(m, shm[..], pend, e, host.vlut[..], host.glide3);
        SpillsAppend(pend, e);
        pend := pend + [e];
      } else {
        ghost var _ := Send(f, e, []);
      }
    }

    // The common start of every wrapper: add each block, then write the arguments.
    method Stage(c: Call, ghost e: Event)
      requires Valid() && ValidCall(c, host.glide3) && e == EventOf(c, host.glide3, vlut[..])
      requires DATA + shm[DATA] + PayLen(e.chunks) <= OUT && (Spills(pend) ==> PayLen(e.chunks) == 0)
      modifies shm
      ensures Ready(e) && SameOn(old(shm[..]), shm[..], DATA + FIRST_DATA, DATA + old(shm[DATA]))
    {
      hide Queued, Framed, FramedAll, Staged, Symbol2xA, Symbol2xB, Symbol3x, SymbolExt, KindOf, RuleArgs, Sources,
          VlutFold, FetchAll;
      EventFramed(c, host.glide3, vlut[..]);
      StagedBounds(shm[..], pend, []);
      var sz3x := SizeVertex3x(vlut);
      var sz := if host.glide3 then sz3x else SIZE_GRVERTEX;
      var srcs := Sources(KindOf(c.f), c.args[..DispatchArgs(c.f)], c.mem, sz, c.aux);
      FetchAllIndexed(c.mem, KindOf(c.f), c.args[..DispatchArgs(c.f)], sz, c.aux);
      ghost var m, v, hv := shm[..], vlut[..], host.vlut[..];
      assert e.chunks == FetchAll(c.mem, srcs);
      AddBlocks(c.mem, srcs, e.chunks);
      WriteArgs(c.args, e);
      assert vlut[..] == v && host.vlut[..] == hv;
    }

    // Every block of a call, in order.
    method AddBlocks(mem: Memory, srcs: seq<Src>, ghost cs: seq<seq<Word>>)
      requires Holding([]) && |cs| == |srcs| && DATA + shm[DATA] + PayLen(cs) <= OUT
      requires Spills(pend) ==> PayLen(cs) == 0
      requires forall k :: 0 <= k < |srcs| ==> cs[k] == Fetch(mem, srcs[k]) && |cs[k]| == WordCount(srcs[k].cb)
      modifies shm
      ensures Holding(cs) && SameOn(old(shm[..]), shm[..], DATA + FIRST_DATA, DATA + old(shm[DATA]))
    {
      hide Queued, Staged, Fetch, WordCount, PadEven, PayLen, Spills;
      StagedBounds(shm[..], pend, []);
      ghost var m0, start := shm[..], shm[DATA] as int;
      NoPieces(cs);
      for k := 0 to |srcs|
        invariant Holding(cs[..k]) && shm[DATA] == start + PayLen(cs[..k])
        invariant SameOn(m0, shm[..], DATA + FIRST_DATA, DATA + start)
      {
        PayLenPrefix(cs, k);
        StagedBounds(shm[..], pend, cs[..k]);
        ghost var m := shm[..];
        FifoAddData(Fetch(mem, srcs[k]), srcs[k].cb, cs[..k]);
        SameOnTrans(m0, m, shm[..], DATA + FIRST_DATA, DATA + start, DATA + FIRST_DATA, DATA + m[DATA]);
        assert cs[..k + 1] == cs[..k] + [cs[k]];
      }
      assert cs[..|srcs|] == cs;
    }

    // pt[1], pt[2], ...
    method WriteArgs(args: seq<Word>, ghost e: Event)
      requires Holding(e.chunks) && |e.args| <= |args| <= 16 && e.args == args[..|e.args|]
      modifies shm
      ensures Holding(e.chunks) && shm[2..2 + |e.args|] == e.args
      ensures SameOn(old(shm[..]), shm[..], FIRST_FIFO, SHM_WORDS)
    {
      hide Queued, Staged;
      StagedBounds(shm[..], pend, e.chunks);
      QueuedBounds(shm[..], pend, host.vlut[..], host.glide3);
      ghost var m, hv := shm[..], host.vlut[..];
      forall i | 0 <= i < |args| {
        shm[2 + i] := args[i];
      }
      WindowFrame(m, shm[..], pend, e.chunks, hv, host.glide3);
      assert host.vlut[..] == hv;
    }

    // One API call.  The event it stands for is appended to what was issued; a call
    // that is sent at once leaves nothing pending.  A region read copies the start of the
    // payload area out, where out is the region the library left.
    method Issue(c: Call, out: seq<Word>) returns (copy: seq<Word>, ghost drained: seq<Word>)
      requires Valid() && ValidCall(c, host.glide3)
      requires DATA + shm[DATA] + PayLen(EventOf(c, host.glide3, vlut[..]).chunks) <= OUT
      requires Spills(pend) ==> PayLen(EventOf(c, host.glide3, vlut[..]).chunks) == 0
      requires ReadsRegion(c.f) ==> DATA + shm[DATA] + |out| <= OUT
      modifies this`pend, this`issued, host, shm, vlut, host.vlut
      ensures Valid()
      ensures issued == old(issued) + [EventOf(c, host.glide3, old(vlut[..]))]
      ensures vlut[..] == VlutAfter(old(vlut[..]), EventOf(c, host.glide3, old(vlut[..])))
      ensures QueuedArgs(c.f).None? ==> pend == [] && host.trace == issued
      ensures ReadsRegion(c.f) ==> QueuedArgs(c.f).None?
      ensures CursorOf(shm[..]) == NextCursor(old(CursorOf(shm[..])), EventOf(c, host.glide3, old(vlut[..])), fifoEn)
      ensures Spills(pend) <==>
                CursorOf(shm[..]) != START && (Spills(old(pend)) || Spill(EventOf(c, host.glide3, old(vlut[..]))) > 0)
      ensures host.leak == (old(host.leak) || Leaks(old(CursorOf(shm[..])), EventOf(c, host.glide3, old(vlut[..]))))
      ensures ReadsRegion(c.f) ==> |drained| == SHM_WORDS && copy == RegionReadBack(drained, DataLen(old(pend)), out)
      ensures Quiet(old(pend)) && ReadsRegion(c.f) ==>
                SameOn(old(shm[..]), drained, DATA + FIRST_DATA, DATA + old(shm[DATA]))
    {
      hide Queued, Framed, FramedAll, Staged, Symbol2xA, Symbol2xB, Symbol3x, KindOf, RuleArgs, Sources, VlutFold,
          FetchAll, QueuedArgs,
           HostWords, Scribbles, Quiet, RegionReadBack, PayLen, DataLen, Spills, Spill;
      ghost var e, v := EventOf(c, host.glide3, vlut[..]), vlut[..];
      CursorCounts(shm[..], pend, [], host.vlut[..], host.glide3);
      Stage(c, e);
      CursorCounts(shm[..], pend, e.chunks, host.vlut[..], host.glide3);
      if ReadsRegion(c.f) {
        RegionSent(c.f);
      }
      var n := QueuedArgs(c.f);
      copy, drained := [], shm[..];
      if n.Some? {
        ArgCountsAgree(c.f);
        QueuedWords(c.f, e.chunks);
        FifoGrFunc(c.f, n.value, e);
      } else {
        drained := Send(c.f, e, out);
        if ReadsRegion(c.f) {
          copy := shm[DATA + FIRST_DATA..DATA + FIRST_DATA + |out|];
        }
      }
      issued := issued + [e];
      assert vlut[..] == v;
      UpdateLayout(c, e);
    }

    // Only grVertexLayout and grReset touch the guest's own layout table.
    method UpdateLayout(c: Call, ghost e: Event)
      requires Wired() && ValidCall(c, host.glide3) && e == EventOf(c, host.glide3, vlut[..])
      modifies vlut
      ensures vlut[..] == VlutAfter(old(vlut[..]), e)
    {
      hide Sources, FetchAll, KindOf, RuleArgs;
      if c.f == GRVERTEXLAYOUT {
        VlutVars(vlut, c.args[0], c.args[1], c.args[2]);
      } else if c.f == GRRESET {
        if c.args[0] == GR_VERTEX_PARAMETER {
          ClearVlut(vlut);
        }
      }
    }
  }
}
