/**
 Whole programs of Glide calls: whatever the guest issues reaches the library once, in
 order, framed as it was sent, and batching cannot be seen; when that needs the payload
 area to be large enough, exactly how large is said here.
 */
module GlideRuns {
  import opened Words
  import opened Vertex3x
  import opened GlideCalls
  import opened GlideQueue
  import opened GlideHost
  import opened GlideGuest
  import opened GlideLevels
  import opened GlideMeaning

  ghost predicate AllValid(prog: seq<Call>, glide3: bool) {
    forall c :: c in prog ==> ValidCall(c, glide3)
  }

  // The calls of a program as they should reach the library.
  ghost function ProgramTrace(prog: seq<Call>, glide3: bool, v: Vlut): seq<Event>
    requires AllValid(prog, glide3)
    decreases |prog|
  {
    if prog == [] then []
    else
      var e := EventOf(prog[0], glide3, v);
      [e] + ProgramTrace(prog[1..], glide3, VlutAfter(v, e))
  }

  // Every payload ends at or before the output page when it is staged.
  ghost predicate FitsRun(prog: seq<Call>, cur: Cursor, glide3: bool, v: Vlut, fifoEn: bool)
    requires AllValid(prog, glide3)
    decreases |prog|
  {
    prog != [] ==>
      var e := EventOf(prog[0], glide3, v);
      && DATA + cur.data + PayLen(e.chunks) <= OUT
      && FitsRun(prog[1..], NextCursor(cur, e, fifoEn), glide3, VlutAfter(v, e), fifoEn)
  }

  // No call with payload follows, in one batch, a mip-map level download of no bytes: the
  // host writes a pointer just past such a call's empty payload.
  ghost predicate Unspilt(prog: seq<Call>, cur: Cursor, spilt: bool, glide3: bool, v: Vlut, fifoEn: bool)
    requires AllValid(prog, glide3)
    decreases |prog|
  {
    prog != [] ==>
      var e := EventOf(prog[0], glide3, v);
      var next := NextCursor(cur, e, fifoEn);
      && (spilt ==> PayLen(e.chunks) == 0)
      && Unspilt(prog[1..], next, next != START && (spilt || Spill(e) > 0), glide3, VlutAfter(v, e), fifoEn)
  }

  // Some call makes the host warn of a leak.
  ghost predicate RunLeaks(prog: seq<Call>, cur: Cursor, glide3: bool, v: Vlut, fifoEn: bool)
    requires AllValid(prog, glide3)
    decreases |prog|
  {
    prog != [] &&
    var e := EventOf(prog[0], glide3, v);
    Leaks(cur, e) || RunLeaks(prog[1..], NextCursor(cur, e, fifoEn), glide3, VlutAfter(v, e), fifoEn)
  }

  // ---------- every program ----------

  // The program's events are its calls, as the application made them.
  lemma {:induction false} ProgramMeant(prog: seq<Call>, glide3: bool, v: Vlut)
    requires AllValid(prog, glide3)
    ensures AllMeant(prog, ProgramTrace(prog, glide3, v), glide3, v)
    decreases |prog|
  {
    hide Meant, VlutAfter, EventOf, ValidCall;
    if prog == [] {
    } else {
      var e := EventOf(prog[0], glide3, v);
      assert prog[0] in prog && forall c :: c in prog[1..] ==> c in prog;
      EventMeant(prog[0], glide3, v);
      ProgramMeant(prog[1..], glide3, VlutAfter(v, e));
      assert ProgramTrace(prog, glide3, v)[1..] == ProgramTrace(prog[1..], glide3, VlutAfter(v, e));
      AllMeantCons(prog, ProgramTrace(prog, glide3, v), glide3, v);
    }
  }

  // The first call of a program and the rest of it.
  lemma RunStep(prog: seq<Call>, cur: Cursor, spilt: bool, glide3: bool, v: Vlut, fifoEn: bool)
    requires AllValid(prog, glide3) && prog != []
    requires FitsRun(prog, cur, glide3, v, fifoEn) && Unspilt(prog, cur, spilt, glide3, v, fifoEn)
    ensures ValidCall(prog[0], glide3) && AllValid(prog[1..], glide3)
    ensures var e, rest := EventOf(prog[0], glide3, v), prog[1..];
            var next, v' := NextCursor(cur, e, fifoEn), VlutAfter(v, e);
            && DATA + cur.data + PayLen(e.chunks) <= OUT && (spilt ==> PayLen(e.chunks) == 0)
            && FitsRun(rest, next, glide3, v', fifoEn)
            && Unspilt(rest, next, next != START && (spilt || Spill(e) > 0), glide3, v', fifoEn)
            && ProgramTrace(prog, glide3, v) == [e] + ProgramTrace(rest, glide3, v')
            && VlutFold(v, ProgramTrace(prog, glide3, v)) == VlutFold(v', ProgramTrace(rest, glide3, v'))
            && (RunLeaks(prog, cur, glide3, v, fifoEn) <==>
                Leaks(cur, e) || RunLeaks(rest, next, glide3, v', fifoEn))
  {
    hide EventOf, ValidCall, VlutAfter, NextCursor, PayLen, Spill, Leaks;
    assert prog[0] in prog && forall c :: c in prog[1..] ==> c in prog;
    var e := EventOf(prog[0], glide3, v);
    assert ProgramTrace(prog, glide3, v)[1..] == ProgramTrace(prog[1..], glide3, VlutAfter(v, e));
  }

  lemma RunEnd(cur: Cursor, glide3: bool, v: Vlut, fifoEn: bool)
    ensures AllValid([], glide3) && ProgramTrace([], glide3, v) == [] && VlutFold(v, []) == v
    ensures !RunLeaks([], cur, glide3, v, fifoEn)
  {
  }

  // Any program: all its calls are issued, and once the last one is sent at once they
  // have all reached the library, in program order, with the payload the guest meant.
  method RunCalls(g: Guest, prog: seq<Call>)
    requires g.Valid() && AllValid(prog, g.host.glide3)
    requires FitsRun(prog, CursorOf(g.shm[..]), g.host.glide3, g.vlut[..], g.fifoEn)
    requires Unspilt(prog, CursorOf(g.shm[..]), Spills(g.pend), g.host.glide3, g.vlut[..], g.fifoEn)
    modifies g`pend, g`issued, g.host, g.shm, g.vlut, g.host.vlut
    ensures g.Valid()
    ensures g.issued == old(g.issued) + ProgramTrace(prog, g.host.glide3, old(g.vlut[..]))
    ensures prog != [] && QueuedArgs(prog[|prog| - 1].f).None? ==> g.host.trace == g.issued
    ensures !g.fifoEn ==> g.host.trace == g.issued
    ensures g.vlut[..] == VlutFold(old(g.vlut[..]), ProgramTrace(prog, g.host.glide3, old(g.vlut[..])))
    ensures prog == [] ==> g.host.trace == old(g.host.trace) && g.issued == old(g.issued)
    ensures g.host.leak ==
            (old(g.host.leak) || RunLeaks(prog, old(CursorOf(g.shm[..])), g.host.glide3, old(g.vlut[..]), g.fifoEn))
    decreases |prog|
  {
    hide QueuedArgs, ValidCall, VlutAfter, PayLen, EventOf, Queued, Staged, NextCursor, Leaks, RegionReadBack,
        Scribbles, ReadsRegion, Spills, Spill, VlutFold, ProgramTrace, FitsRun, Unspilt, RunLeaks, AllValid;
    StagedBounds(g.shm[..], g.pend, []);
    ghost var cur, v := CursorOf(g.shm[..]), g.vlut[..];
    if prog == [] {
      RunEnd(cur, g.host.glide3, v, g.fifoEn);
    } else {
      RunStep(prog, cur, Spills(g.pend), g.host.glide3, v, g.fifoEn);
      var _, _ := g.Issue(prog[0], []);
      RunCalls(g, prog[1..]);
    }
  }

  // Any program: all its calls are issued, as the application made them, and once the last one
  // is sent at once they have all reached the library, in program order.
  method Run(g: Guest, prog: seq<Call>)
    requires g.Valid() && AllValid(prog, g.host.glide3)
    requires FitsRun(prog, CursorOf(g.shm[..]), g.host.glide3, g.vlut[..], g.fifoEn)
    requires Unspilt(prog, CursorOf(g.shm[..]), Spills(g.pend), g.host.glide3, g.vlut[..], g.fifoEn)
    modifies g`pend, g`issued, g.host, g.shm, g.vlut, g.host.vlut
    ensures g.Valid()
    ensures g.issued == old(g.issued) + ProgramTrace(prog, g.host.glide3, old(g.vlut[..]))
    ensures old(g.issued) <= g.issued && AllMeant(prog, g.issued[old(|g.issued|)..], g.host.glide3, old(g.vlut[..]))
    ensures g.vlut[..] == VlutFold(old(g.vlut[..]), g.issued[old(|g.issued|)..])
    ensures prog != [] && QueuedArgs(prog[|prog| - 1].f).None? ==> g.host.trace == g.issued
    ensures !g.fifoEn ==> g.host.trace == g.issued
    ensures prog == [] ==> g.host.trace == old(g.host.trace)
    ensures g.host.leak ==
            (old(g.host.leak) || RunLeaks(prog, old(CursorOf(g.shm[..])), g.host.glide3, old(g.vlut[..]), g.fifoEn))
  {
    hide QueuedArgs, ValidCall, EventOf, Queued, Staged, NextCursor, Leaks, RunLeaks, FitsRun, Unspilt, AllValid,
        Spills, AllMeant, ProgramTrace, VlutFold;
    ghost var v, before := g.vlut[..], g.issued;
    ProgramMeant(prog, g.host.glide3, v);
    RunCalls(g, prog);
    assert g.issued[|before|..] == ProgramTrace(prog, g.host.glide3, v);
  }

  // A guest that sends every call at once needs no more room than one that batches.
  lemma {:induction false} ImmediateFits(prog: seq<Call>, cur: Cursor, cur': Cursor, glide3: bool, v: Vlut,
      fifoEn: bool)
    requires AllValid(prog, glide3) && FitsRun(prog, cur, glide3, v, fifoEn)
    requires cur'.data <= cur.data && FIRST_DATA <= cur.data
    ensures FitsRun(prog, cur', glide3, v, false)
    decreases |prog|
  {
    hide QueuedArgs, ValidCall, VlutAfter, PayLen, EventOf;
    if prog == [] {
    } else {
      var e := EventOf(prog[0], glide3, v);
      assert forall c :: c in prog[1..] ==> c in prog;
      ImmediateFits(prog[1..], NextCursor(cur, e, fifoEn), NextCursor(cur', e, false), glide3, VlutAfter(v, e), fifoEn);
    }
  }

  // And such a guest has nothing queued to spill on.
  lemma {:induction false} ImmediateUnspilt(prog: seq<Call>, cur: Cursor, glide3: bool, v: Vlut)
    requires AllValid(prog, glide3)
    ensures Unspilt(prog, cur, false, glide3, v, false)
    decreases |prog|
  {
    hide ValidCall, VlutAfter, PayLen, EventOf, Spill;
    if prog == [] {
    } else {
      var e := EventOf(prog[0], glide3, v);
      assert forall c :: c in prog[1..] ==> c in prog;
      assert NextCursor(cur, e, false) == START;
      ImmediateUnspilt(prog[1..], START, glide3, VlutAfter(v, e));
    }
  }

  // FIFO_EN makes no difference to what the library sees: a batching guest and a guest
  // that sends every call at once, each on its own host, end with equal traces.
  method BatchingRefinesImmediate(batched: Guest, immediate: Guest, prog: seq<Call>)
    requires batched.Valid() && immediate.Valid() && !immediate.fifoEn
    requires {batched, batched.host, batched.vlut, batched.host.vlut} !! {immediate, immediate.host, immediate.vlut,
        immediate.host.vlut}
    requires batched.shm != immediate.shm
    requires batched.host.glide3 == immediate.host.glide3 && batched.issued == immediate.issued &&
        batched.vlut[..] == immediate.vlut[..]
    requires AllValid(prog, batched.host.glide3)
    requires FitsRun(prog, CursorOf(batched.shm[..]), batched.host.glide3, batched.vlut[..], batched.fifoEn)
    requires Unspilt(prog, CursorOf(batched.shm[..]), Spills(batched.pend), batched.host.glide3, batched.vlut[..],
                     batched.fifoEn)
    requires prog != [] && QueuedArgs(prog[|prog| - 1].f).None?
    modifies batched`pend, batched`issued, batched.host, batched.shm, batched.vlut, batched.host.vlut
    modifies immediate`pend, immediate`issued, immediate.host, immediate.shm, immediate.vlut, immediate.host.vlut
    ensures batched.host.trace == immediate.host.trace
    ensures batched.host.trace == old(batched.issued) + ProgramTrace(prog, batched.host.glide3, old(batched.vlut[..]))
    ensures AllMeant(prog, batched.host.trace[old(|batched.issued|)..], batched.host.glide3, old(batched.vlut[..]))
  {
    hide QueuedArgs, EventOf, Queued, Staged, FitsRun, Unspilt, RunLeaks, ProgramTrace, AllValid, VlutFold, Spills,
        AllMeant;
    ghost var v := batched.vlut[..];
    StagedBounds(batched.shm[..], batched.pend, []);
    CursorCounts(immediate.shm[..], [], [], immediate.host.vlut[..], immediate.host.glide3);
    ImmediateFits(prog, CursorOf(batched.shm[..]), CursorOf(immediate.shm[..]), batched.host.glide3, v, batched.fifoEn);
    ImmediateUnspilt(prog, CursorOf(immediate.shm[..]), immediate.host.glide3, v);
    NothingSpills();
    Run(batched, prog);
    assert immediate.vlut[..] == v;
    Run(immediate, prog);
  }

  // ---------- downloads of no bytes ----------

  // guTexDownloadMipMapLevel of a level of no bytes.
  predicate EmptyLevel(c: Call) {
    c.f == 0x7c && |c.args| > 3 && c.args[3] == 0
  }

  lemma LevelSpills(c: Call, glide3: bool, v: Vlut)
    requires ValidCall(c, glide3)
    ensures Spill(EventOf(c, glide3, v)) > 0 <==> EmptyLevel(c)
  {
    hide Sources, FetchAll;
    RuleArgsPresent(c.f);
    assert KindOf(c.f).GuMipMapLevel? <==> c.f == 0x7c;
  }

  lemma EventSlotted(c: Call, glide3: bool, v: Vlut)
    requires ValidCall(c, glide3)
    ensures Slotted(EventOf(c, glide3, v))
  {
    var e := EventOf(c, glide3, v);
    EventFramed(c, glide3, v);
    hide EventOf, Framed, ValidCall, KindOf;
    if KindOf(e.fenum).GuMipMapLevel? {
      PointerSlot(e, v, glide3);
    }
  }

  // The pointer to a level ends past the level's own payload exactly when there is none.
  lemma SpillExact(c: Call, glide3: bool, v: Vlut)
    requires ValidCall(c, glide3) && c.f == 0x7c
    ensures var e := EventOf(c, glide3, v);
            |e.args| > 3 && (Aligned(e.args[3]) / 4 + 2 > PayLen(e.chunks) <==> EmptyLevel(c))
  {
    LevelSpills(c, glide3, v);
    EventSlotted(c, glide3, v);
    assert KindOf(0x7c).GuMipMapLevel?;
    hide ValidCall, Spill, PayLen, EmptyLevel;
  }

  // A program without one never meets the pointer.
  lemma {:induction false} NoneEmptyUnspilt(prog: seq<Call>, cur: Cursor, glide3: bool, v: Vlut, fifoEn: bool)
    requires AllValid(prog, glide3) && forall c :: c in prog ==> !EmptyLevel(c)
    ensures Unspilt(prog, cur, false, glide3, v, fifoEn)
    decreases |prog|
  {
    hide ValidCall, VlutAfter, PayLen, EventOf, Spill, NextCursor, EmptyLevel;
    if prog == [] {
    } else {
      var e := EventOf(prog[0], glide3, v);
      assert prog[0] in prog && forall c :: c in prog[1..] ==> c in prog;
      LevelSpills(prog[0], glide3, v);
      NoneEmptyUnspilt(prog[1..], NextCursor(cur, e, fifoEn), glide3, VlutAfter(v, e), fifoEn);
    }
  }

  // Every batch of the program, its trigger included, finds its payloads when it is drained,
  // and what stays queued would; pend is queued before the program starts.
  ghost predicate RunSpares(prog: seq<Call>, cur: Cursor, pend: seq<Event>, glide3: bool, v: Vlut, fifoEn: bool)
    requires AllValid(prog, glide3)
    decreases |prog|
  {
    if prog == [] then Spared(pend)
    else
      var e := EventOf(prog[0], glide3, v);
      var next := NextCursor(cur, e, fifoEn);
      if next == START then Spared(pend + [e]) && RunSpares(prog[1..], next, [], glide3, VlutAfter(v, e), fifoEn)
      else RunSpares(prog[1..], next, pend + [e], glide3, VlutAfter(v, e), fifoEn)
  }

  lemma SparedAppend(pend: seq<Event>, e: Event)
    requires AllSlotted(pend) && Slotted(e)
    ensures AllSlotted(pend + [e])
    ensures Spared(pend + [e]) <==> Calm(pend) && (Spills(pend) ==> PayLen(e.chunks) == 0)
  {
    CalmAppend(pend, e);
    hide Slotted, Calm, Spared, Spills, PayLen;
    SparedExact(pend + [e]);
  }

  // No payload of a run is lost to a pointer, wherever the host has mapped the memory, exactly
  // when in no batch payload follows a level of no bytes.
  lemma {:induction false} RunSparesExact(prog: seq<Call>, cur: Cursor, pend: seq<Event>, glide3: bool, v: Vlut,
      fifoEn: bool)
    requires AllValid(prog, glide3) && AllSlotted(pend)
    ensures RunSpares(prog, cur, pend, glide3, v, fifoEn) <==>
            Calm(pend) && Unspilt(prog, cur, Spills(pend), glide3, v, fifoEn)
    decreases |prog|
  {
    if prog == [] {
      SparedExact(pend);
    } else {
      var e := EventOf(prog[0], glide3, v);
      var next, v' := NextCursor(cur, e, fifoEn), VlutAfter(v, e);
      assert prog[0] in prog && forall c :: c in prog[1..] ==> c in prog;
      EventSlotted(prog[0], glide3, v);
      SparedAppend(pend, e);
      SpillsAppend(pend, e);
      CalmAppend(pend, e);
      NothingSpills();
      assert Calm([]) && AllSlotted([]);
      hide ValidCall, VlutAfter, PayLen, EventOf, Spill, NextCursor, Spared, Calm, AllSlotted, Spills, Slotted;
      RunSparesExact(prog[1..], next, if next == START then [] else pend + [e], glide3, v', fifoEn);
    }
  }

  // An input that is not spared: a point queued behind a download of no bytes. Where its
  // first word was sent the library finds the pointer.
  lemma PointBehindEmptyLevel(level: Call, point: Call, v: Vlut)
    requires level.f == 0x7c && |level.args| == 4 && level.args[3] == 0
    requires point.f == 0x20 && |point.args| == 1
    ensures AllValid([level, point], false) && !RunSpares([level, point], START, [], false, v, true)
    ensures var pt := EventOf(point, false, v);
            PayLen(pt.chunks) == 16 && Overwrites(EventOf(level, false, v), pt)
  {
    EmptyLevelEvent(level, v);
    PointEvent(point, v);
    EventSlotted(level, false, v);
    assert AllValid([level, point], false);
    hide ValidCall, EventOf, Slotted, Spill, PayLen, QueuedArgs, VlutAfter, Scribbles, Unspilt, RunSpares;
    LevelOverwrites(EventOf(level, false, v), EventOf(point, false, v));
    hide Overwrites;
    PointSpilt(level, point, v);
    NothingSpills();
    RunSparesExact([level, point], START, [], false, v, true);
  }

  lemma PointSpilt(level: Call, point: Call, v: Vlut)
    requires ValidCall(level, false) && ValidCall(point, false)
    requires var e := EventOf(level, false, v);
             PayLen(e.chunks) == 0 && Spill(e) > 0 && VlutAfter(v, e) == v && QueuedArgs(e.fenum) == Some(4)
    requires PayLen(EventOf(point, false, v).chunks) > 0
    ensures !Unspilt([level, point], START, false, false, v, true)
  {
    hide ValidCall, EventOf, QueuedArgs, VlutAfter, Spill, PayLen;
    assert [level, point][1..] == [point];
    assert NextCursor(START, EventOf(level, false, v), true) == Cursor(FIRST_FIFO + 5, FIRST_DATA);
    assert !Unspilt([point], Cursor(FIRST_FIFO + 5, FIRST_DATA), true, false, v, true);
  }

  lemma EmptyLevelEvent(c: Call, v: Vlut)
    requires c.f == 0x7c && |c.args| == 4 && c.args[3] == 0
    ensures ValidCall(c, false)
    ensures var e := EventOf(c, false, v);
            PayLen(e.chunks) == 0 && Spill(e) > 0 && VlutAfter(v, e) == v && QueuedArgs(e.fenum) == Some(4)
  {
  }

  // ---------- the payload and the output page ----------

  // Word w is written when the pieces cs are copied from word j on.
  ghost predicate StagedWord(cs: seq<seq<Word>>, j: nat, w: nat)
    decreases cs
  {
    cs != [] && (j <= w < j + |cs[0]| || StagedWord(cs[1..], j + PadEven(|cs[0]|), w))
  }

  // Word w is written as payload in the course of a program.
  ghost predicate RunWrites(prog: seq<Call>, cur: Cursor, glide3: bool, v: Vlut, fifoEn: bool, w: nat)
    requires AllValid(prog, glide3)
    decreases |prog|
  {
    prog != [] &&
    var e := EventOf(prog[0], glide3, v);
    StagedWord(e.chunks, DATA + cur.data, w) || RunWrites(prog[1..], NextCursor(cur, e, fifoEn), glide3,
        VlutAfter(v, e), fifoEn, w)
  }

  // None of those words is on the output page.
  ghost predicate PiecesBelow(cs: seq<seq<Word>>, j: nat) {
    forall w: nat :: StagedWord(cs, j, w) ==> w < OUT
  }

  ghost predicate RunBelow(prog: seq<Call>, cur: Cursor, glide3: bool, v: Vlut, fifoEn: bool)
    requires AllValid(prog, glide3)
  {
    forall w: nat :: RunWrites(prog, cur, glide3, v, fifoEn, w) ==> w < OUT
  }

  lemma PiecesBelowCons(cs: seq<seq<Word>>, j: nat)
    requires cs != []
    ensures PiecesBelow(cs, j) <==> (|cs[0]| > 0 ==> j + |cs[0]| <= OUT) && PiecesBelow(cs[1..], j + PadEven(|cs[0]|))
  {
    var n, j', rest := |cs[0]|, j + PadEven(|cs[0]|), cs[1..];
    if PiecesBelow(cs, j) {
      assert n > 0 ==> StagedWord(cs, j, j + n - 1);
      forall w: nat | StagedWord(rest, j', w) ensures w < OUT {
        assert StagedWord(cs, j, w);
      }
    } else {
      var w: nat :| StagedWord(cs, j, w) && w >= OUT;
      assert j <= w < j + n || StagedWord(rest, j', w);
    }
  }

  lemma {:induction false} StagedExact(cs: seq<seq<Word>>, j: nat)
    requires j % 2 == 0
    ensures PiecesBelow(cs, j) <==> (PayLen(cs) > 0 ==> j + PayLen(cs) <= OUT)
    decreases cs
  {
    if cs == [] {
    } else {
      StagedExact(cs[1..], j + PadEven(|cs[0]|));
      PayLenIsEven(cs[1..]);
      PiecesBelowCons(cs, j);
      assert PayLen(cs) == PadEven(|cs[0]|) + PayLen(cs[1..]);
      hide PiecesBelow, PayLen;
    }
  }

  lemma RunBelowCons(prog: seq<Call>, cur: Cursor, glide3: bool, v: Vlut, fifoEn: bool)
    requires AllValid(prog, glide3) && prog != [] && AllValid(prog[1..], glide3)
    ensures var e := EventOf(prog[0], glide3, v);
            RunBelow(prog, cur, glide3, v, fifoEn) <==>
              && PiecesBelow(e.chunks, DATA + cur.data)
              && RunBelow(prog[1..], NextCursor(cur, e, fifoEn), glide3, VlutAfter(v, e), fifoEn)
  {
    hide QueuedArgs, ValidCall, VlutAfter, PayLen, EventOf, StagedWord, NextCursor;
    var e := EventOf(prog[0], glide3, v);
    var at, next, v' := DATA + cur.data, NextCursor(cur, e, fifoEn), VlutAfter(v, e);
    if RunBelow(prog, cur, glide3, v, fifoEn) {
      forall w: nat | StagedWord(e.chunks, at, w) ensures w < OUT {
        assert RunWrites(prog, cur, glide3, v, fifoEn, w);
      }
      forall w: nat | RunWrites(prog[1..], next, glide3, v', fifoEn, w) ensures w < OUT {
        assert RunWrites(prog, cur, glide3, v, fifoEn, w);
      }
    } else {
      var w: nat :| RunWrites(prog, cur, glide3, v, fifoEn, w) && w >= OUT;
      assert StagedWord(e.chunks, at, w) || RunWrites(prog[1..], next, glide3, v', fifoEn, w);
    }
  }

  // A place where a payload may start.
  predicate Startable(cur: Cursor) {
    cur.data % 2 == 0 && FIRST_DATA <= cur.data < MAX_DATA
  }

  lemma NextStartable(cur: Cursor, e: Event, fifoEn: bool)
    requires Startable(cur)
    ensures Startable(NextCursor(cur, e, fifoEn))
  {
    PayLenIsEven(e.chunks);
    hide PayLen, QueuedArgs;
  }

  lemma PlacedExact(cur: Cursor, cs: seq<seq<Word>>)
    requires Startable(cur)
    ensures PiecesBelow(cs, DATA + cur.data) <==> DATA + cur.data + PayLen(cs) <= OUT
  {
    StagedExact(cs, DATA + cur.data);
    hide PayLen, PiecesBelow;
  }

  // Payload stays off the output page throughout a run exactly when the run fits.
  lemma {:induction false} FitsRunExact(prog: seq<Call>, cur: Cursor, glide3: bool, v: Vlut, fifoEn: bool)
    requires AllValid(prog, glide3)
    requires Startable(cur)
    ensures RunBelow(prog, cur, glide3, v, fifoEn) <==> FitsRun(prog, cur, glide3, v, fifoEn)
    decreases |prog|
  {
    if prog == [] {
    } else {
      hide ValidCall, VlutAfter, PayLen, EventOf, PiecesBelow, RunBelow, NextCursor, Startable;
      var e := EventOf(prog[0], glide3, v);
      assert forall c :: c in prog[1..] ==> c in prog;
      PlacedExact(cur, e.chunks);
      NextStartable(cur, e, fifoEn);
      RunBelowCons(prog, cur, glide3, v, fifoEn);
      FitsRunExact(prog[1..], NextCursor(cur, e, fifoEn), glide3, VlutAfter(v, e), fifoEn);
    }
  }

  // Most words that fit wherever the room tests let a payload start.
  const MAX_PAYLOAD: nat := OUT - DATA - MAX_DATA

  ghost predicate SmallPayloads(prog: seq<Call>, glide3: bool, v: Vlut)
    requires AllValid(prog, glide3)
    decreases |prog|
  {
    prog != [] ==>
      var e := EventOf(prog[0], glide3, v);
      PayLen(e.chunks) <= MAX_PAYLOAD && SmallPayloads(prog[1..], glide3, VlutAfter(v, e))
  }

  // Calls of at most 60 KB always fit.
  lemma {:induction false} SmallFits(prog: seq<Call>, cur: Cursor, glide3: bool, v: Vlut, fifoEn: bool)
    requires AllValid(prog, glide3) && SmallPayloads(prog, glide3, v) && cur.data < MAX_DATA
    ensures FitsRun(prog, cur, glide3, v, fifoEn)
    decreases |prog|
  {
    hide QueuedArgs, ValidCall, VlutAfter, PayLen, EventOf;
    if prog == [] {
    } else {
      var e := EventOf(prog[0], glide3, v);
      assert forall c :: c in prog[1..] ==> c in prog;
      SmallFits(prog[1..], NextCursor(cur, e, fifoEn), glide3, VlutAfter(v, e), fifoEn);
    }
  }

  // ---------- texture downloads ----------

  // A download of part of a level, of that many bytes, from zeroed memory.
  function Download(bytes: Word): Call {
    Call(0x54, [0, 0, 0, 0, 0, 0, 0, 0, 0, 0, bytes], (_: nat) => 0, Aux(0, 0, 0, 0))
  }

  lemma DownloadEvent(bytes: Word, glide3: bool, v: Vlut)
    ensures ValidCall(Download(bytes), glide3)
    ensures var e := EventOf(Download(bytes), glide3, v);
            PayLen(e.chunks) == PadEven(WordCount(bytes)) && VlutAfter(v, e) == v && QueuedArgs(e.fenum) == Some(11)
  {
    var c := Download(bytes);
    var e := EventOf(c, glide3, v);
    assert c.args[..11] == c.args;
    FetchAllIndexed(c.mem, MipMapLevelPartial, c.args, VertexBytes(glide3, v), c.aux);
    PayLenSmall(e.chunks);
    assert e.chunks[..1] == e.chunks;
  }

  // A level of 64 KB sent behind an empty payload area fits, though it is over 60 KB.
  lemma LargeDownloadFits(glide3: bool, v: Vlut, fifoEn: bool)
    ensures AllValid([Download(0x1_0000)], glide3)
    ensures FitsRun([Download(0x1_0000)], START, glide3, v, fifoEn) && !SmallPayloads([Download(0x1_0000)], glide3, v)
  {
    DownloadEvent(0x1_0000, glide3, v);
    hide EventOf, ValidCall;
    var prog := [Download(0x1_0000)];
    assert prog[1..] == [];
    assert FitsRun([], NextCursor(START, EventOf(prog[0], glide3, v), fifoEn), glide3, v, fifoEn);
  }

  function Repeat(c: Call, n: nat): (r: seq<Call>)
    ensures |r| == n && forall i :: 0 <= i < n ==> r[i] == c
  {
    if n == 0 then [] else [c] + Repeat(c, n - 1)
  }

  lemma DownloadNext(cur: Cursor, glide3: bool, v: Vlut)
    ensures ValidCall(Download(0x2_0000), glide3)
    ensures var e := EventOf(Download(0x2_0000), glide3, v);
            && PayLen(e.chunks) == 0x8000 && VlutAfter(v, e) == v
            && (cur.fifo + 12 < MAX_FIFO && cur.data + 0x8000 < MAX_DATA ==>
                  NextCursor(cur, e, true) == Cursor(cur.fifo + 12, cur.data + 0x8000))
  {
    DownloadEvent(0x2_0000, glide3, v);
    hide EventOf, ValidCall, QueuedArgs, VlutAfter, PayLen;
  }

  lemma RepeatTail(c: Call, n: nat)
    requires n > 0
    ensures Repeat(c, n)[0] == c && Repeat(c, n)[1..] == Repeat(c, n - 1)
  {
  }

  // Nothing bounds what is queued in a row: n downloads of 128 KB run over when the last
  // one starts below MAX_DATA and ends on the output page.
  lemma {:induction false} DownloadsOverrun(n: nat, cur: Cursor, glide3: bool, v: Vlut)
    requires 1 <= n && cur.fifo + 12 * n < MAX_FIFO
    requires cur.data + 0x8000 * (n - 1) < MAX_DATA && OUT - DATA < cur.data + 0x8000 * n
    ensures AllValid(Repeat(Download(0x2_0000), n), glide3)
    ensures !FitsRun(Repeat(Download(0x2_0000), n), cur, glide3, v, true)
  {
    hide EventOf, ValidCall, VlutAfter, PayLen, NextCursor, Download, Repeat;
    RepeatTail(Download(0x2_0000), n);
    DownloadNext(cur, glide3, v);
    if n == 1 {
    } else {
      DownloadsOverrun(n - 1, Cursor(cur.fifo + 12, cur.data + 0x8000), glide3, v);
    }
  }

  // From an empty queue 22 of them write on the output page.
  lemma QueuedDownloadsOverrun(glide3: bool, v: Vlut)
    ensures AllValid(Repeat(Download(0x2_0000), 22), glide3)
    ensures !RunBelow(Repeat(Download(0x2_0000), 22), START, glide3, v, true)
  {
    hide AllValid, FitsRun, RunBelow, Repeat, Download;
    DownloadsOverrun(22, START, glide3, v);
    FitsRunExact(Repeat(Download(0x2_0000), 22), START, glide3, v, true);
  }

  // ---------- the leak warning ----------

  // guFbWriteRegion of an odd number of words: width in bytes times height, rounded up.
  predicate OddWrite(c: Call) {
    c.f == GUFBWRITEREGION && |c.args| > 5 && WordCount((c.args[3] as int) * (c.args[5] as int)) % 2 != 0
  }

  // Only a frame buffer write of an odd word count can make the host warn.
  lemma {:induction false} RunLeaksOnlyOdd(prog: seq<Call>, cur: Cursor, glide3: bool, v: Vlut, fifoEn: bool)
    requires AllValid(prog, glide3)
    requires forall c :: c in prog ==> !OddWrite(c)
    ensures !RunLeaks(prog, cur, glide3, v, fifoEn)
    decreases |prog|
  {
    hide VlutAfter, PayLen, NextCursor, EventOf, ValidCall, Uncounted;
    if prog == [] {
    } else {
      assert forall c :: c in prog[1..] ==> c in prog;
      assert prog[0] in prog;
      UncountedExact(prog[0], glide3, v);
      var e := EventOf(prog[0], glide3, v);
      RunLeaksOnlyOdd(prog[1..], NextCursor(cur, e, fifoEn), glide3, VlutAfter(v, e), fifoEn);
    }
  }

  // A call's payload is counted a word short exactly when it is such a write.
  lemma UncountedExact(c: Call, glide3: bool, v: Vlut)
    requires ValidCall(c, glide3)
    ensures Uncounted(EventOf(c, glide3, v)) == 1 <==> OddWrite(c)
  {
    var e, k := EventOf(c, glide3, v), KindOf(c.f);
    assert k.FbWrite? <==> c.f == GUFBWRITEREGION;
    if k.FbWrite? {
      FetchAllIndexed(c.mem, k, e.args, VertexBytes(glide3, v), c.aux);
      FbWriteAgrees(e.args, 0, c.mem, VertexBytes(glide3, v), c.aux, e.chunks);
    }
  }

  // One word, with nothing queued ahead: the guest sends two, the host counts one and warns.
  lemma OneWordWriteLeaks(c: Call, v: Vlut, fifoEn: bool)
    requires c.f == GUFBWRITEREGION && |c.args| == DispatchArgs(GUFBWRITEREGION) && c.args[3] == 4 && c.args[5] == 1
    ensures AllValid([c], false) && RunLeaks([c], START, false, v, fifoEn)
  {
    assert ValidCall(c, false);
    UncountedExact(c, false, v);
  }

  // ---------- reading a frame buffer region back ----------

  // The guest's copy is the region the library left, whatever that is, exactly when no
  // payload was queued ahead of the call.
  method ReadRegion(g: Guest, c: Call, out: seq<Word>) returns (copy: seq<Word>, ghost drained: seq<Word>)
    requires g.Valid() && ValidCall(c, g.host.glide3) && ReadsRegion(c.f) && out != []
    requires DATA + g.shm[DATA] + PayLen(EventOf(c, g.host.glide3, g.vlut[..]).chunks) <= OUT
    requires Spills(g.pend) ==> PayLen(EventOf(c, g.host.glide3, g.vlut[..]).chunks) == 0
    requires DATA + g.shm[DATA] + |out| <= OUT
    modifies g`pend, g`issued, g.host, g.shm, g.vlut, g.host.vlut
    ensures g.Valid() && g.pend == [] && g.host.trace == g.issued
    ensures g.issued == old(g.issued) + [EventOf(c, g.host.glide3, old(g.vlut[..]))]
    ensures |drained| == SHM_WORDS && copy == RegionReadBack(drained, DataLen(old(g.pend)), out)
    ensures (forall o: seq<Word> | |o| == |out| :: RegionReadBack(drained, DataLen(old(g.pend)), o) == o) <==>
        DataLen(old(g.pend)) == 0
    ensures DataLen(old(g.pend)) == 0 ==> copy == out
    ensures Quiet(old(g.pend)) ==>
              SameOn(old(g.shm[..]), drained, DATA + FIRST_DATA, DATA + old(g.shm[DATA]))
  {
    hide Queued, Staged, EventOf, ValidCall, VlutAfter, NextCursor, Leaks, Scribbles, Quiet, RegionReadBack,
        QueuedArgs, PayLen, DataLen;
    CursorCounts(g.shm[..], g.pend, [], g.host.vlut[..], g.host.glide3);
    copy, drained := g.Issue(c, out);
    RegionReadBackExact(drained, DataLen(old(g.pend)), |out|);
  }

  lemma SpillsOne(e: Event)
    ensures Spills([e]) <==> Spill(e) > 0
  {
    assert e in [e];
  }

  // A guest with one point queued.
  method QueuedPoint(shm: array<Word>, point: Call) returns (g: Guest)
    requires shm.Length == SHM_WORDS && point.f == 0x20 && |point.args| == 1
    modifies shm
    ensures fresh(g) && fresh(g.host) && fresh(g.vlut) && fresh(g.host.vlut)
    ensures g.shm == shm && g.Valid() && !g.host.glide3
    ensures g.vlut[..] == EMPTY_VLUT && g.pend == [EventOf(point, false, EMPTY_VLUT)] && shm[DATA] == FIRST_DATA + 16
  {
    hide Queued, Staged, VlutFold;
    var host := new GlidePT(shm, false, 0);
    g := new Guest(shm, host, true);
    ghost var e := EventOf(point, false, EMPTY_VLUT);
    PointEvent(point, EMPTY_VLUT);
    hide EventOf, ValidCall, PayLen, DataLen, QueuedArgs, RegionReadBack, Leaks, Scribbles, VlutAfter, KindOf;
    var _, _ := g.Issue(point, []);
    CursorCounts(shm[..], g.pend, [], host.vlut[..], false);
    assert g.issued == [e] && |g.pend| > 0;
    assert host.trace + g.pend == [e];
  }

  // One queued point, then a region read: the guest copies the point's first word.
  method StaleRegionRead(shm: array<Word>) returns (copy: seq<Word>, out: seq<Word>)
    requires shm.Length == SHM_WORDS
    modifies shm
    ensures |copy| == |out| == 1 && copy != out
  {
    hide Queued, Staged, VlutFold, RegionReadBack;
    var point := Call(0x20, [0], (_: nat) => 0, Aux(0, 0, 0, 0));
    var read := Call(GRLFBREADREGION, [0, 0, 0, 0, 0, 0, 0], (_: nat) => 0, Aux(0, 0, 0, 0));
    PointEvent(point, EMPTY_VLUT);
    RegionEvent(read, EMPTY_VLUT);
    hide EventOf, ValidCall, PayLen, DataLen, QueuedArgs, KindOf, Leaks, NextCursor, VlutAfter, Scribbles, FifoWords;
    var g := QueuedPoint(shm, point);
    SpillsOne(EventOf(point, false, EMPTY_VLUT));
    CursorCounts(shm[..], g.pend, [], g.host.vlut[..], false);
    out := [if shm[DATA + FIRST_DATA] == 0 then 1 else 0];
    copy := ReadBehind(g, read, out, 16);
  }

  // A region read behind n queued words that nothing wrote over: its copy starts with the first
  // of them.
  method ReadBehind(g: Guest, read: Call, out: seq<Word>, ghost n: nat) returns (copy: seq<Word>)
    requires g.Valid() && ValidCall(read, g.host.glide3) && ReadsRegion(read.f) && |out| == 1
    requires PayLen(EventOf(read, g.host.glide3, g.vlut[..]).chunks) == 0
    requires 0 < n == DataLen(g.pend) && Quiet(g.pend) && g.shm[DATA] == FIRST_DATA + n
    requires DATA + FIRST_DATA + n + 1 <= OUT
    modifies g`pend, g`issued, g.host, g.shm, g.vlut, g.host.vlut
    ensures |copy| == 1 && copy[0] == old(g.shm[DATA + FIRST_DATA])
  {
    hide Queued, Staged, VlutFold, RegionReadBack, EventOf, ValidCall, PayLen, DataLen, QueuedArgs, ReadsRegion, Quiet,
        Spills;
    ghost var drained;
    copy, drained := ReadRegion(g, read, out);
    FirstWordStale(drained, n, out);
  }

  lemma FirstWordStale(m: seq<Word>, queued: nat, out: seq<Word>)
    requires |m| == SHM_WORDS && 0 < queued && out != [] && DATA + FIRST_DATA + queued + |out| <= OUT
    ensures |RegionReadBack(m, queued, out)| == |out| && RegionReadBack(m, queued, out)[0] == m[DATA + FIRST_DATA]
  {
  }

  lemma PointEvent(c: Call, v: Vlut)
    requires c.f == 0x20 && |c.args| == 1
    ensures ValidCall(c, false) && QueuedArgs(c.f) == Some(1)
    ensures var e := EventOf(c, false, v);
            PayLen(e.chunks) == 16 && !Scribbles(e.fenum) && VlutAfter(v, e) == v && e.fenum == 0x20
  {
    var e := EventOf(c, false, v);
    FetchAllIndexed(c.mem, Point, e.args, 60, c.aux);
    PayLenSmall(e.chunks);
    assert e.chunks[..1] == e.chunks;
  }

  lemma RegionEvent(c: Call, v: Vlut)
    requires c.f == GRLFBREADREGION && |c.args| == 7
    ensures ValidCall(c, false) && PayLen(EventOf(c, false, v).chunks) == 0
  {
  }
}
